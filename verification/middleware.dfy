/** The request-id interceptor and the error-capture interceptor. The random
    bytes of a fresh id are an input. */
module Middleware {
  import opened Common
  import opened Errors

  // ---------------------------------------------------------------------
  // Hex encoding

  predicate IsHexDigit(c: char) { '0' <= c <= '9' || 'a' <= c <= 'f' }

  predicate IsHex(s: string) {
    forall i :: 0 <= i < |s| ==> IsHexDigit(s[i])
  }

  const HexDigits: string := "0123456789abcdef"

  function HexChar(d: int): (c: char)
    requires 0 <= d < 16
    ensures IsHexDigit(c)
  {
    HexDigits[d]
  }

  /** The value of a lower-case hex digit. */
  function HexValue(c: char): (d: int)
    requires IsHexDigit(c)
    ensures 0 <= d < 16
  {
    if c <= '9' then c as int - '0' as int else c as int - 'a' as int + 10
  }

  lemma HexValueOfChar(d: int)
    requires 0 <= d < 16
    ensures HexValue(HexChar(d)) == d
  {
  }

  /** The two digits of a byte give the byte back. */
  lemma HexPair(b: byte)
    ensures HexValue(HexChar(b / 16)) * 16 + HexValue(HexChar(b % 16)) == b
  {
    HexValueOfChar(b / 16);
    HexValueOfChar(b % 16);
  }

  /** `hex.EncodeToString`: two lower-case digits per byte, high nibble first. */
  function EncodeHex(bs: seq<byte>): (s: string)
    ensures |s| == 2 * |bs|
    ensures IsHex(s)
    decreases |bs|
  {
    if |bs| == 0 then ""
    else [HexChar(bs[0] / 16), HexChar(bs[0] % 16)] + EncodeHex(bs[1..])
  }

  /** The inverse of `EncodeHex`. */
  function DecodeHex(s: string): (bs: seq<byte>)
    requires |s| % 2 == 0 && IsHex(s)
    ensures |bs| == |s| / 2
    decreases |s|
  {
    if |s| == 0 then []
    else [HexValue(s[0]) * 16 + HexValue(s[1])] + DecodeHex(s[2..])
  }

  /** Decoding an encoding gives back the bytes. */
  lemma {:induction false} HexRoundTrip(bs: seq<byte>)
    ensures DecodeHex(EncodeHex(bs)) == bs
    decreases |bs|
  {
    if |bs| > 0 {
      var s := EncodeHex(bs);
      EncodeHead(bs);
      HexPair(bs[0]);
      HexRoundTrip(bs[1..]);
      DecodeHead(s);
      SameHeadTail(DecodeHex(s), bs);
    }
  }

  lemma EncodeHead(bs: seq<byte>)
    requires |bs| > 0
    ensures var s := EncodeHex(bs);
      s[0] == HexChar(bs[0] / 16) && s[1] == HexChar(bs[0] % 16) && s[2..] == EncodeHex(bs[1..])
  {
    DropPair(HexChar(bs[0] / 16), HexChar(bs[0] % 16), EncodeHex(bs[1..]));
  }

  lemma DropPair<T>(a: T, b: T, x: seq<T>)
    ensures ([a, b] + x)[0] == a && ([a, b] + x)[1] == b && ([a, b] + x)[2..] == x
  {
  }

  lemma DecodeHead(s: string)
    requires |s| >= 2 && |s| % 2 == 0 && IsHex(s)
    ensures var bs := DecodeHex(s);
      bs[0] == HexValue(s[0]) * 16 + HexValue(s[1]) && bs[1..] == DecodeHex(s[2..])
  {
  }

  lemma SameHeadTail(a: seq<byte>, b: seq<byte>)
    requires |a| == |b| > 0 && a[0] == b[0] && a[1..] == b[1..]
    ensures a == b
  {
    assert a == [a[0]] + a[1..];
    assert b == [b[0]] + b[1..];
  }

  /** Different bytes give different ids. */
  lemma HexInjective(a: seq<byte>, b: seq<byte>)
    ensures EncodeHex(a) == EncodeHex(b) ==> a == b
  {
    HexRoundTrip(a);
    HexRoundTrip(b);
  }

  // ---------------------------------------------------------------------
  // RequestID

  const DefaultRequestIdHeader: string := "X-Request-Id"

  /** The twelve random bytes of a fresh id. */
  type Nonce = b: seq<byte> | |b| == 12 witness [0, 0, 0, 0, 0, 0, 0, 0, 0, 0, 0, 0]

  /** The header the id travels in. */
  function IdHeader(headerName: string): (h: string)
    ensures h != ""
    ensures headerName != "" ==> h == headerName
    ensures headerName == "" ==> h == DefaultRequestIdHeader
  {
    if headerName == "" then DefaultRequestIdHeader else headerName
  }

  /** What `RequestID` did to one request: the id it chose, the context
      values and response headers it set, and its effect on the chain. */
  datatype Tagged = Tagged(id: string, stored: map<string, string>, responseHeaders: map<string, string>, effect: Effect)

  /** `RequestID`: reuse the incoming id when there is one, otherwise the
      hex of twelve random bytes; store it, echo it, and carry on. */
  function RequestID(headerName: string, headers: map<string, string>, nonce: Nonce): (r: Tagged)
    ensures
      var h := IdHeader(headerName);
      var incoming := if h in headers then headers[h] else "";
      && (incoming != "" ==> r.id == incoming)
      && (incoming == "" ==> |r.id| == 24 && IsHex(r.id) && DecodeHex(r.id) == nonce)
      && r.stored == map["request_id" := r.id]
      && r.responseHeaders == map[h := r.id]
    ensures r.id != ""
    ensures r.effect == Pass
  {
    var h := IdHeader(headerName);
    var incoming := if h in headers then headers[h] else "";
    var id := if incoming != "" then incoming else EncodeHex(nonce);
    HexRoundTrip(nonce);
    Tagged(id, map["request_id" := id], map[h := id], Pass)
  }

  /** Two requests without an incoming id get the same id only when they
      drew the same random bytes. */
  lemma FreshIdsDiffer(headerName: string, h1: map<string, string>, h2: map<string, string>, n1: Nonce, n2: Nonce)
    requires IdHeader(headerName) !in h1 && IdHeader(headerName) !in h2
    requires n1 != n2
    ensures RequestID(headerName, h1, n1).id != RequestID(headerName, h2, n2).id
  {
    HexInjective(n1, n2);
  }

  // ---------------------------------------------------------------------
  // ErrorCapture

  /** What the error-capture interceptor does, in order. */
  datatype Event = RanNext | Logged(err: string)

  /** `ErrorCapture`: run the rest of the chain, then log each error it
      attached to the context, in order. */
  function ErrorCapture(errors: seq<string>): (trace: seq<Event>)
    ensures |trace| == |errors| + 1
    ensures trace[0] == RanNext
    ensures forall i :: 1 <= i < |trace| ==> trace[i].Logged?
    decreases |errors|
  {
    if |errors| == 0 then [RanNext]
    else ErrorCapture(errors[..|errors| - 1]) + [Logged(errors[|errors| - 1])]
  }

  /** The errors a trace logged, in the order they were logged. */
  function LoggedErrors(trace: seq<Event>): seq<string>
    decreases |trace|
  {
    if |trace| == 0 then []
    else LoggedErrors(trace[..|trace| - 1]) + (if trace[|trace| - 1].Logged? then [trace[|trace| - 1].err] else [])
  }

  /** Exactly the captured errors are logged, each once, in order. */
  lemma {:induction false} CaptureLogsEachError(errors: seq<string>)
    ensures LoggedErrors(ErrorCapture(errors)) == errors
    decreases |errors|
  {
    if |errors| > 0 {
      var init := errors[..|errors| - 1];
      CaptureLogsEachError(init);
      var t := ErrorCapture(errors);
      assert t[..|t| - 1] == ErrorCapture(init);
      assert errors == init + [errors[|errors| - 1]];
    }
  }
}
