/** The cross-origin policy evaluator: the configuration is compiled once
    into header values, and every request is then judged on its `Origin`
    header and its method alone. */
module Cors {
  import opened Common
  import opened Text
  import Decimal
  import opened Errors

  datatype CorsConfig = CorsConfig(
    allowedOrigins: seq<string>,
    allowedMethods: seq<string>,
    allowedHeaders: seq<string>,
    exposedHeaders: seq<string>,
    allowCredentials: bool,
    maxAge: Int64)

  const DefaultMethods: seq<string> := ["GET", "POST", "PUT", "PATCH", "DELETE", "OPTIONS"]
  const DefaultHeaders: seq<string> := ["Content-Type", "Authorization", "X-Requested-With"]

  const AllowOrigin: string := "Access-Control-Allow-Origin"
  const AllowCredentials: string := "Access-Control-Allow-Credentials"
  const ExposeHeaders: string := "Access-Control-Expose-Headers"
  const AllowMethods: string := "Access-Control-Allow-Methods"
  const AllowHeaders: string := "Access-Control-Allow-Headers"
  const MaxAgeHeader: string := "Access-Control-Max-Age"

  // ---------------------------------------------------------------------
  // List shaping

  /** `normalize`: trim every entry and drop the blank ones, keeping order. */
  function Normalize(xs: seq<string>): (r: seq<string>)
    ensures |r| <= |xs|
    ensures forall i :: 0 <= i < |r| ==> r[i] != "" && TrimSpace(r[i]) == r[i]
    decreases |xs|
  {
    if |xs| == 0 then []
    else
      var t := TrimSpace(xs[|xs| - 1]);
      TrimSpaceIdempotent(xs[|xs| - 1]);
      Normalize(xs[..|xs| - 1]) + (if t != "" then [t] else [])
  }

  /** An entry survives `normalize` exactly when some input trims to it. */
  lemma {:induction false} NormalizeMembers(xs: seq<string>, x: string)
    ensures x in Normalize(xs) <==> x != "" && exists v :: v in xs && TrimSpace(v) == x
    decreases |xs|
  {
    if |xs| > 0 {
      var init := xs[..|xs| - 1];
      NormalizeMembers(init, x);
      assert xs == init + [xs[|xs| - 1]];
      assert forall v :: v in xs <==> v in init || v == xs[|xs| - 1];
    }
  }

  /** `normalize` works entry by entry: normalising a concatenation is
      concatenating the normalised parts, so the input order is kept. */
  lemma {:induction false} NormalizeAppend(a: seq<string>, b: seq<string>)
    ensures Normalize(a + b) == Normalize(a) + Normalize(b)
    decreases |b|
  {
    if |b| == 0 {
      assert a + b == a;
    } else {
      var b', last := b[..|b| - 1], b[|b| - 1];
      NormalizeAppend(a, b');
      assert b == b' + [last];
      ConcatAssoc(a, b', [last]);
      NormalizeSnoc(a + b', last);
      NormalizeSnoc(b', last);
      var t := if TrimSpace(last) != "" then [TrimSpace(last)] else [];
      ConcatAssoc(Normalize(a), Normalize(b'), t);
    }
  }

  lemma ConcatAssoc(x: seq<string>, y: seq<string>, z: seq<string>)
    ensures (x + y) + z == x + (y + z)
  {
  }

  /** One more entry at the end adds its trimmed form, unless blank. */
  lemma NormalizeSnoc(xs: seq<string>, x: string)
    ensures Normalize(xs + [x]) == Normalize(xs) + (if TrimSpace(x) != "" then [TrimSpace(x)] else [])
  {
    assert (xs + [x])[..|xs|] == xs;
  }

  /** Normalising twice is normalising once. */
  lemma {:induction false} NormalizeIdempotent(xs: seq<string>)
    ensures Normalize(Normalize(xs)) == Normalize(xs)
    decreases |xs|
  {
    if |xs| > 0 {
      var init := xs[..|xs| - 1];
      var t := TrimSpace(xs[|xs| - 1]);
      NormalizeIdempotent(init);
      var tail := if t != "" then [t] else [];
      NormalizeAppend(Normalize(init), tail);
      if t != "" {
        TrimSpaceIdempotent(xs[|xs| - 1]);
        assert Normalize(tail) == Normalize([] + tail);
        assert tail[..0] == [];
      }
    }
  }

  /** `defaultIfEmpty`. */
  function DefaultIfEmpty(xs: seq<string>, def: seq<string>): (r: seq<string>)
    ensures |xs| == 0 ==> r == def
    ensures |xs| > 0 ==> r == xs
  {
    if |xs| == 0 then def else xs
  }

  /** `upperAll`: every entry trimmed and upper-cased. */
  function UpperAll(xs: seq<string>): (r: seq<string>)
    ensures |r| == |xs|
    ensures forall i :: 0 <= i < |r| ==> r[i] == ToUpper(TrimSpace(xs[i]))
  {
    seq(|xs|, i requires 0 <= i < |xs| => ToUpper(TrimSpace(xs[i])))
  }

  /** Case mapping keeps whitespace where it was, so an upper-cased trimmed
      entry is still trimmed and applying `upperAll` twice changes nothing. */
  lemma UpperAllIdempotent(xs: seq<string>)
    ensures UpperAll(UpperAll(xs)) == UpperAll(xs)
    ensures forall i :: 0 <= i < |xs| ==> forall k :: 0 <= k < |UpperAll(xs)[i]| ==> !IsLower(UpperAll(xs)[i][k])
  {
    var u := UpperAll(xs);
    forall i | 0 <= i < |xs|
      ensures ToUpper(TrimSpace(u[i])) == u[i]
    {
      UpperOfTrimmed(xs[i]);
    }
  }

  /** An upper-cased trimmed entry is still trimmed, and upper-casing it
      again changes nothing. */
  lemma UpperOfTrimmed(x: string)
    ensures TrimSpace(ToUpper(TrimSpace(x))) == ToUpper(TrimSpace(x))
    ensures ToUpper(ToUpper(TrimSpace(x))) == ToUpper(TrimSpace(x))
  {
    var t := TrimSpace(x);
    var u := ToUpper(t);
    if u != [] {
      UpperCharKeepsSpace(t[0]);
      UpperCharKeepsSpace(t[|t| - 1]);
    }
    TrimSpaceOfTrimmed(u);
    ToUpperIdempotent(t);
  }

  /** A header-name segment: first character not a lower-case letter, the
      rest not upper-case letters. */
  predicate IsCapitalized(p: string) {
    p == "" || (!IsLower(p[0]) && forall k :: 1 <= k < |p| ==> !IsUpper(p[k]))
  }

  /** Upper-case the first character, lower-case the rest: only the case
      of letters changes. */
  function Capitalize(p: string): (r: string)
    ensures |r| == |p| && IsCapitalized(r)
    ensures ToLower(r) == ToLower(p)
    ensures forall k :: 0 <= k < |p| ==> (r[k] == '-' <==> p[k] == '-')
  {
    if p == "" then p else [UpperChar(p[0])] + ToLower(p[1..])
  }

  /** `headerCaseAll` on one entry: trim, split on `-`, capitalise every
      non-empty segment, re-join. */
  function HeaderCase(v: string): string {
    var parts := Split(TrimSpace(v), '-');
    Join(seq(|parts|, j requires 0 <= j < |parts| => Capitalize(parts[j])), "-")
  }

  /** `headerCaseAll`: every entry trimmed and header-cased. Each result
      differs from its trimmed entry only in the case of letters, and each
      of its `-`-separated segments is capitalised. */
  function HeaderCaseAll(xs: seq<string>): (r: seq<string>)
    ensures |r| == |xs|
    ensures forall i :: 0 <= i < |r| ==> r[i] == HeaderCase(xs[i])
    ensures forall i :: 0 <= i < |r| ==> EqualFold(r[i], TrimSpace(xs[i]))
    ensures forall i :: 0 <= i < |r| ==> forall seg :: seg in Split(r[i], '-') ==> IsCapitalized(seg)
  {
    var r := seq(|xs|, i requires 0 <= i < |xs| => HeaderCase(xs[i]));
    assert forall i :: 0 <= i < |r| ==> EqualFold(r[i], TrimSpace(xs[i])) by {
      forall i | 0 <= i < |r| ensures EqualFold(r[i], TrimSpace(xs[i])) {
        HeaderCaseFolds(xs[i]);
      }
    }
    assert forall i :: 0 <= i < |r| ==> forall seg :: seg in Split(r[i], '-') ==> IsCapitalized(seg) by {
      forall i | 0 <= i < |r| ensures forall seg :: seg in Split(r[i], '-') ==> IsCapitalized(seg) {
        HeaderCaseSegments(xs[i]);
      }
    }
    r
  }

  /** Header-casing changes only the case of letters: it folds to the
      trimmed entry. */
  lemma HeaderCaseFolds(v: string)
    ensures ToLower(HeaderCase(v)) == ToLower(TrimSpace(v))
  {
    var t := TrimSpace(v);
    var parts := Split(t, '-');
    var caps := seq(|parts|, j requires 0 <= j < |parts| => Capitalize(parts[j]));
    JoinFold(caps, parts, "-");
    JoinSplit(t, '-');
  }

  /** `headerCaseAll` keeps the `-`-separated segments of each trimmed
      entry: the segments of the result are the capitalised segments of the
      entry, one for one. */
  lemma HeaderCaseSegments(v: string)
    ensures var parts := Split(TrimSpace(v), '-');
      Split(HeaderCase(v), '-') == seq(|parts|, j requires 0 <= j < |parts| => Capitalize(parts[j]))
    ensures |Split(HeaderCase(v), '-')| == |Split(TrimSpace(v), '-')|
    ensures forall seg :: seg in Split(HeaderCase(v), '-') ==> IsCapitalized(seg)
  {
    var parts := Split(TrimSpace(v), '-');
    var caps := seq(|parts|, j requires 0 <= j < |parts| => Capitalize(parts[j]));
    forall j | 0 <= j < |caps| ensures '-' !in caps[j] && IsCapitalized(caps[j]) {
      CapitalizeNoDash(parts[j]);
    }
    SplitJoin(caps, '-');
    assert Split(HeaderCase(v), '-') == caps;
  }

  /** A segment without `-` stays without one. */
  lemma CapitalizeNoDash(p: string)
    requires '-' !in p
    ensures '-' !in Capitalize(p) && IsCapitalized(Capitalize(p))
  {
    var r := Capitalize(p);
    assert forall k :: 0 <= k < |r| ==> r[k] != '-' by {
      forall k | 0 <= k < |r| ensures r[k] != '-' {
        assert p[k] != '-';
      }
    }
  }

  /** `unique`: the entries in order of first appearance, each once. */
  function Unique(xs: seq<string>): (r: seq<string>)
    ensures forall i, j :: 0 <= i < j < |r| ==> r[i] != r[j]
    ensures forall x :: x in r <==> x in xs
    decreases |xs|
  {
    if |xs| == 0 then []
    else
      var init := xs[..|xs| - 1];
      var x := xs[|xs| - 1];
      assert forall y :: y in xs <==> y in init || y == x;
      if x in init then Unique(init) else Unique(init) + [x]
  }

  /** Where `x` first appears in `xs`. */
  function FirstPos(xs: seq<string>, x: string): (k: nat)
    requires x in xs
    ensures k < |xs| && xs[k] == x && x !in xs[..k]
  {
    if xs[0] == x then 0 else 1 + FirstPos(xs[1..], x)
  }

  /** `unique` lists the entries in the order of their first appearance. */
  lemma {:induction false} UniqueKeepsFirstOrder(xs: seq<string>)
    ensures forall i, j :: 0 <= i < j < |Unique(xs)| ==>
              FirstPos(xs, Unique(xs)[i]) < FirstPos(xs, Unique(xs)[j])
    decreases |xs|
  {
    if |xs| > 0 {
      var init := xs[..|xs| - 1];
      var x := xs[|xs| - 1];
      UniqueKeepsFirstOrder(init);
      var p := Unique(init);
      forall y | y in init ensures FirstPos(xs, y) == FirstPos(init, y) {
        var a, b := FirstPos(xs, y), FirstPos(init, y);
        assert xs[b] == y;
      }
      if x !in init {
        forall y | y in init ensures FirstPos(xs, y) < FirstPos(xs, x) {
          assert x !in xs[..|xs| - 1];
        }
      }
    }
  }

  /** A list without duplicates is its own `unique`. */
  lemma {:induction false} UniqueOfDistinct(xs: seq<string>)
    requires forall i, j :: 0 <= i < j < |xs| ==> xs[i] != xs[j]
    ensures Unique(xs) == xs
    decreases |xs|
  {
    if |xs| > 0 {
      var init := xs[..|xs| - 1];
      UniqueOfDistinct(init);
      assert xs[|xs| - 1] !in init;
      assert init + [xs[|xs| - 1]] == xs;
    }
  }

  /** `unique` is idempotent. */
  lemma UniqueIdempotent(xs: seq<string>)
    ensures Unique(Unique(xs)) == Unique(xs)
  {
    UniqueOfDistinct(Unique(xs));
  }

  // ---------------------------------------------------------------------
  // Origin matching

  /** A wildcard-subdomain entry (a scheme, then `://` and `*.`, then a
      domain): the origin, lower-cased, must use the scheme and end with a
      dot and the lower-cased domain. */
  predicate WildcardAdmits(a: string, origin: string) {
    && (HasPrefix(a, "http://*.") || HasPrefix(a, "https://*."))
    && var i := Index(a, "://*.");
       && i > 0
       && HasPrefix(ToLower(origin), a[..i] + "://")
       && HasSuffix(ToLower(origin), "." + ToLower(a[i + 5..]))
  }

  /** One allow-list entry admits the origin. */
  predicate EntryAdmits(a: string, origin: string) {
    a == "*" || EqualFold(a, origin) || WildcardAdmits(a, origin)
  }

  /** The allow-list scan of `originAllowed`, first admitting entry wins. */
  function AnyAdmits(allowed: seq<string>, origin: string): (b: bool)
    ensures b <==> exists a :: a in allowed && EntryAdmits(a, origin)
  {
    if |allowed| == 0 then false
    else if EntryAdmits(allowed[0], origin) then true
    else
      assert forall a :: a in allowed <==> a == allowed[0] || a in allowed[1..];
      AnyAdmits(allowed[1..], origin)
  }

  /** `originAllowed`. */
  function OriginAllowed(origin: string, allowed: seq<string>): (b: bool)
    ensures origin == "" || |allowed| == 0 ==> !b
    ensures origin != "" && "*" in allowed ==> b
    ensures origin != "" && (exists a :: a in allowed && EqualFold(a, origin)) ==> b
    ensures b <==> origin != "" && exists a :: a in allowed && EntryAdmits(a, origin)
  {
    if origin == "" || |allowed| == 0 then false else AnyAdmits(allowed, origin)
  }

  /** `Index` finds the scheme separator of a wildcard entry right after
      the scheme. */
  lemma WildcardIndex(a: string)
    ensures HasPrefix(a, "http://*.") ==> Index(a, "://*.") == 4
    ensures HasPrefix(a, "https://*.") ==> Index(a, "://*.") == 5
  {
    if HasPrefix(a, "http://*.") {
      assert a[..9] == "http://*.";
      assert OccursAt(a, "://*.", 4) by { assert a[4..9] == a[..9][4..9]; }
      forall k | k < 4 ensures !OccursAt(a, "://*.", k) {
        if 0 <= k {
          assert a[k] == a[..9][k];
          NoSeparatorAt(a, k);
        }
      }
    }
    if HasPrefix(a, "https://*.") {
      assert a[..10] == "https://*.";
      assert OccursAt(a, "://*.", 5) by { assert a[5..10] == a[..10][5..10]; }
      forall k | k < 5 ensures !OccursAt(a, "://*.", k) {
        if 0 <= k {
          assert a[k] == a[..10][k];
          NoSeparatorAt(a, k);
        }
      }
    }
  }

  /** The scheme separator cannot start at a character other than `:`. */
  lemma NoSeparatorAt(a: string, k: int)
    requires 0 <= k < |a| && a[k] != ':'
    ensures !OccursAt(a, "://*.", k)
  {
    if k + 5 <= |a| {
      assert a[k..k + 5][0] == a[k];
    }
  }

  /** Case-insensitive equality with a wildcard entry whose scheme is
      lower-case already implies the wildcard condition. */
  lemma FoldMatchIsWildcardMatch(a: string, origin: string, i: int)
    requires 0 < i && OccursAt(a, "://*.", i)
    requires ToLower(a[..i]) == a[..i]
    requires EqualFold(a, origin)
    ensures HasPrefix(ToLower(origin), a[..i] + "://")
    ensures HasSuffix(ToLower(origin), "." + ToLower(a[i + 5..]))
  {
    var lo := ToLower(origin);
    assert lo == ToLower(a);
    var pre := a[..i] + "://";
    forall k | 0 <= k < i + 3 ensures lo[k] == pre[k] {
      if k < i {
        assert ToLower(a[..i])[k] == LowerChar(a[k]);
      } else {
        assert a[k] == a[i..i + 5][k - i];
      }
    }
    assert lo[..i + 3] == pre;
    var suf := "." + ToLower(a[i + 5..]);
    forall k | 0 <= k < |suf| ensures lo[i + 4 + k] == suf[k] {
      if k == 0 {
        assert a[i + 4] == a[i..i + 5][4];
      } else {
        assert ToLower(a[i + 5..])[k - 1] == LowerChar(a[i + 4 + k]);
      }
    }
    assert lo[|lo| - |suf|..] == suf;
  }

  /** A wildcard entry whose separator sits right after a lower-case
      scheme admits an origin exactly when the wildcard test does; the
      whole-string case-insensitive match adds nothing. */
  lemma WildcardEntryAt(a: string, origin: string, i: int)
    requires HasPrefix(a, "http://*.") || HasPrefix(a, "https://*.")
    requires 0 < i && Index(a, "://*.") == i
    requires ToLower(a[..i]) == a[..i]
    ensures EntryAdmits(a, origin) <==>
              HasPrefix(ToLower(origin), a[..i] + "://") && HasSuffix(ToLower(origin), "." + ToLower(a[i + 5..]))
  {
    assert a != "*" by { assert |a| >= 9; }
    if EqualFold(a, origin) {
      FoldMatchIsWildcardMatch(a, origin, i);
    }
  }

  /** An https wildcard-subdomain entry admits an origin exactly when the
      origin, lower-cased, starts with `https://` and ends with a dot and
      the lower-cased domain. */
  lemma HttpsWildcardEntry(a: string, origin: string)
    requires HasPrefix(a, "https://*.")
    ensures EntryAdmits(a, origin) <==>
              HasPrefix(ToLower(origin), "https://") && HasSuffix(ToLower(origin), "." + ToLower(a[10..]))
  {
    WildcardIndex(a);
    var scheme := a[..5];
    assert scheme == "https" by { assert a[..5] == a[..10][..5]; }
    assert ToLower(scheme) == scheme;
    assert scheme + "://" == "https://";
    assert a[5 + 5..] == a[10..];
    WildcardEntryAt(a, origin, 5);
  }

  /** The same for an http wildcard-subdomain entry. */
  lemma HttpWildcardEntry(a: string, origin: string)
    requires HasPrefix(a, "http://*.")
    ensures EntryAdmits(a, origin) <==>
              HasPrefix(ToLower(origin), "http://") && HasSuffix(ToLower(origin), "." + ToLower(a[9..]))
  {
    WildcardIndex(a);
    var scheme := a[..4];
    assert scheme == "http" by { assert a[..4] == a[..9][..4]; }
    assert ToLower(scheme) == scheme;
    assert scheme + "://" == "http://";
    assert a[4 + 5..] == a[9..];
    WildcardEntryAt(a, origin, 4);
  }

  /** A string without upper-case letters is its own lower-case form. */
  lemma ToLowerOfLower(s: string)
    requires forall k :: 0 <= k < |s| ==> !IsUpper(s[k])
    ensures ToLower(s) == s
  {
  }

  /** With a one-entry list, the list admits exactly what the entry admits. */
  lemma SoleEntry(a: string, origin: string)
    ensures OriginAllowed(origin, [a]) <==> origin != "" && EntryAdmits(a, origin)
  {
    assert forall x :: x in [a] <==> x == a;
  }

  /** `allowValue`: `*` when the list holds `*`, else the origin echoed. */
  function AllowValue(origin: string, allowed: seq<string>): (r: string)
    ensures "*" in allowed ==> r == "*"
    ensures "*" !in allowed ==> r == origin
  {
    if |allowed| == 0 then origin
    else if allowed[0] == "*" then "*"
    else
      assert forall a :: a in allowed <==> a == allowed[0] || a in allowed[1..];
      AllowValue(origin, allowed[1..])
  }

  // ---------------------------------------------------------------------
  // The middleware

  /** The header values `CORSMiddleware` computes once from its config. */
  datatype Policy = Policy(
    origins: seq<string>,
    methods: string,
    headers: string,
    exposed: string,
    allowCredentials: bool,
    maxAge: string)

  /** The max-age header value: whole seconds, or empty when not positive.
      The seconds are rendered with the corrected `Decimal.Format`, which
      `fmtInt` matches on every positive value. */
  function MaxAgeValue(maxAge: Int64): (r: string)
    ensures r == "" <==> maxAge <= 0
    ensures maxAge > 0 ==> Decimal.AllDigits(r) && Decimal.ValueOf(r) == maxAge / Second
  {
    if maxAge > 0 then
      var secs := maxAge / Second;
      Decimal.DigitsRoundTrip(secs);
      Decimal.Format(secs)
    else ""
  }

  /** The source renders the seconds with its own `fmtInt`; on the
      positive values that reach it, that is exactly `MaxAgeValue`. */
  lemma MaxAgeViaFmtInt(maxAge: Int64)
    requires maxAge > 0
    ensures MaxAgeValue(maxAge) == Decimal.FmtInt(maxAge / Second)
  {
    Decimal.FmtIntMatchesFormat(maxAge / Second);
  }

  /** The header values computed once from the config. */
  function Compile(cfg: CorsConfig): (p: Policy)
    ensures p.origins == Normalize(cfg.allowedOrigins)
    ensures p.methods == Join(Unique(UpperAll(DefaultIfEmpty(cfg.allowedMethods, DefaultMethods))), ", ")
    ensures p.headers == Join(Unique(HeaderCaseAll(DefaultIfEmpty(cfg.allowedHeaders, DefaultHeaders))), ", ")
    ensures p.exposed == Join(Unique(HeaderCaseAll(cfg.exposedHeaders)), ", ")
    ensures p.allowCredentials == cfg.allowCredentials
    ensures p.maxAge == MaxAgeValue(cfg.maxAge)
  {
    Policy(
      Normalize(cfg.allowedOrigins),
      Join(Unique(UpperAll(DefaultIfEmpty(cfg.allowedMethods, DefaultMethods))), ", "),
      Join(Unique(HeaderCaseAll(DefaultIfEmpty(cfg.allowedHeaders, DefaultHeaders))), ", "),
      Join(Unique(HeaderCaseAll(cfg.exposedHeaders)), ", "),
      cfg.allowCredentials,
      MaxAgeValue(cfg.maxAge))
  }

  /** Words of upper-case letters are left alone by `upperAll`. */
  lemma UpperAllOfUpperWords(d: seq<string>)
    requires forall i :: 0 <= i < |d| ==> forall k :: 0 <= k < |d[i]| ==> IsUpper(d[i][k])
    ensures UpperAll(d) == d
  {
    forall i | 0 <= i < |d| ensures ToUpper(TrimSpace(d[i])) == d[i] {
      UpperWordIsFixed(d[i]);
    }
  }

  /** With no methods configured, preflights advertise the standard set
      GET, POST, PUT, PATCH, DELETE, OPTIONS, in that order, comma-separated. */
  lemma DefaultMethodsAdvertised(cfg: CorsConfig)
    requires cfg.allowedMethods == []
    ensures Compile(cfg).methods == Join(DefaultMethods, ", ")
  {
    var d := DefaultMethods;
    assert forall i :: 0 <= i < |d| ==> forall k :: 0 <= k < |d[i]| ==> IsUpper(d[i][k]);
    UpperAllOfUpperWords(d);
    UniqueOfDistinct(d);
  }

  /** A word of upper-case letters survives trimming and upper-casing. */
  lemma UpperWordIsFixed(w: string)
    requires forall k :: 0 <= k < |w| ==> IsUpper(w[k])
    ensures ToUpper(TrimSpace(w)) == w
  {
    if w != [] {
      assert !IsSpace(w[0]) && !IsSpace(w[|w| - 1]);
    }
    TrimSpaceOfTrimmed(w);
  }

  /** What the middleware does to one request: the response headers it sets
      and its effect on the chain. */
  datatype CorsResult = CorsResult(headers: map<string, string>, effect: Effect)

  /** The six headers the middleware may set. */
  const CorsHeaders: set<string> := {AllowOrigin, AllowCredentials, ExposeHeaders, AllowMethods, AllowHeaders, MaxAgeHeader}

  /** The headers set for an allowed origin, on every method. */
  function OriginHeaders(p: Policy, origin: string): (h: map<string, string>)
    ensures AllowOrigin in h <==> OriginAllowed(origin, p.origins)
    ensures AllowOrigin in h ==> h[AllowOrigin] == AllowValue(origin, p.origins)
    ensures AllowCredentials in h <==> OriginAllowed(origin, p.origins) && p.allowCredentials
    ensures AllowCredentials in h ==> h[AllowCredentials] == "true"
    ensures ExposeHeaders in h <==> OriginAllowed(origin, p.origins) && p.exposed != ""
    ensures ExposeHeaders in h ==> h[ExposeHeaders] == p.exposed
    ensures h.Keys <= {AllowOrigin, AllowCredentials, ExposeHeaders}
  {
    var allowed := OriginAllowed(origin, p.origins);
    var h0: map<string, string> := map[];
    var h1 := if allowed then h0[AllowOrigin := AllowValue(origin, p.origins)] else h0;
    var h2 := if allowed && p.allowCredentials then h1[AllowCredentials := "true"] else h1;
    if allowed && p.exposed != "" then h2[ExposeHeaders := p.exposed] else h2
  }

  /** The headers a preflight adds on top of `h`: each non-empty value. */
  function PreflightHeaders(p: Policy, h: map<string, string>): (r: map<string, string>)
    requires h.Keys <= {AllowOrigin, AllowCredentials, ExposeHeaders}
    ensures forall k :: k in h ==> k in r && r[k] == h[k]
    ensures AllowMethods in r <==> p.methods != ""
    ensures AllowMethods in r ==> r[AllowMethods] == p.methods
    ensures AllowHeaders in r <==> p.headers != ""
    ensures AllowHeaders in r ==> r[AllowHeaders] == p.headers
    ensures MaxAgeHeader in r <==> p.maxAge != ""
    ensures MaxAgeHeader in r ==> r[MaxAgeHeader] == p.maxAge
    ensures r.Keys <= h.Keys + {AllowMethods, AllowHeaders, MaxAgeHeader}
  {
    var h4 := if p.methods != "" then h[AllowMethods := p.methods] else h;
    var h5 := if p.headers != "" then h4[AllowHeaders := p.headers] else h4;
    if p.maxAge != "" then h5[MaxAgeHeader := p.maxAge] else h5
  }

  /** The middleware's decision on one request: the origin headers for an
      allowed origin; on OPTIONS the preflight headers too, and the chain
      ends with 204; every other method goes on to the next handler. */
  function Evaluate(p: Policy, verb: string, origin: string): (r: CorsResult)
    ensures AllowOrigin in r.headers <==> OriginAllowed(origin, p.origins)
    ensures AllowOrigin in r.headers ==>
              (r.headers[AllowOrigin] == "*" <==> ("*" in p.origins || origin == "*"))
    ensures AllowOrigin in r.headers && "*" !in p.origins ==> r.headers[AllowOrigin] == origin
    ensures AllowCredentials in r.headers <==> OriginAllowed(origin, p.origins) && p.allowCredentials
    ensures AllowCredentials in r.headers ==> r.headers[AllowCredentials] == "true"
    ensures ExposeHeaders in r.headers <==> OriginAllowed(origin, p.origins) && p.exposed != ""
    ensures ExposeHeaders in r.headers ==> r.headers[ExposeHeaders] == p.exposed
    ensures AllowMethods in r.headers <==> verb == "OPTIONS" && p.methods != ""
    ensures AllowMethods in r.headers ==> r.headers[AllowMethods] == p.methods
    ensures AllowHeaders in r.headers <==> verb == "OPTIONS" && p.headers != ""
    ensures AllowHeaders in r.headers ==> r.headers[AllowHeaders] == p.headers
    ensures MaxAgeHeader in r.headers <==> verb == "OPTIONS" && p.maxAge != ""
    ensures MaxAgeHeader in r.headers ==> r.headers[MaxAgeHeader] == p.maxAge
    ensures r.headers.Keys <= CorsHeaders
    ensures verb == "OPTIONS" ==> r.effect == Effect(StatusOnly(StatusNoContent), true, 0)
    ensures verb != "OPTIONS" ==> r.effect == Pass
  {
    var h := OriginHeaders(p, origin);
    if verb == "OPTIONS" then
      CorsResult(PreflightHeaders(p, h), Effect(StatusOnly(StatusNoContent), true, 0))
    else
      CorsResult(h, Pass)
  }

  /** `CORSMiddleware` applied to one request. */
  function CORSMiddleware(cfg: CorsConfig, verb: string, origin: string): (r: CorsResult)
    ensures AllowOrigin in r.headers <==> OriginAllowed(origin, Normalize(cfg.allowedOrigins))
    ensures AllowOrigin in r.headers ==> r.headers[AllowOrigin] == AllowValue(origin, Normalize(cfg.allowedOrigins))
    ensures AllowCredentials in r.headers <==> AllowOrigin in r.headers && cfg.allowCredentials
    ensures MaxAgeHeader in r.headers <==> verb == "OPTIONS" && cfg.maxAge > 0
    ensures MaxAgeHeader in r.headers ==> r.headers[MaxAgeHeader] == MaxAgeValue(cfg.maxAge)
    ensures AllowMethods in r.headers <==> verb == "OPTIONS" && Compile(cfg).methods != ""
    ensures AllowMethods in r.headers ==> r.headers[AllowMethods] == Compile(cfg).methods
    ensures AllowHeaders in r.headers <==> verb == "OPTIONS" && Compile(cfg).headers != ""
    ensures AllowHeaders in r.headers ==> r.headers[AllowHeaders] == Compile(cfg).headers
    ensures ExposeHeaders in r.headers <==> AllowOrigin in r.headers && Compile(cfg).exposed != ""
    ensures ExposeHeaders in r.headers ==> r.headers[ExposeHeaders] == Compile(cfg).exposed
    ensures r.headers.Keys <= CorsHeaders
    ensures verb == "OPTIONS" ==> r.effect.aborted && r.effect.nextCalls == 0
                                    && r.effect.Status() == Some(StatusNoContent)
    ensures verb != "OPTIONS" ==> !r.effect.aborted && r.effect.nextCalls == 1
                                    && r.effect.Status() == None
  {
    Evaluate(Compile(cfg), verb, origin)
  }

  /** With no methods configured, every preflight carries the standard
      method list. */
  lemma PreflightAdvertisesDefaults(cfg: CorsConfig, origin: string)
    requires cfg.allowedMethods == []
    ensures var r := CORSMiddleware(cfg, "OPTIONS", origin);
      AllowMethods in r.headers && r.headers[AllowMethods] == Join(DefaultMethods, ", ")
  {
    DefaultMethodsAdvertised(cfg);
    assert Join(DefaultMethods, ", ") == DefaultMethods[0] + ", " + Join(DefaultMethods[1..], ", ");
  }
}
