/** The log sinks: standard output, a plain append-only file, and the
    size-rotating writer. The file system is an abstract map from file name
    to contents; the rotation timestamp and whether opening a file succeeds
    are parameters. */
module Logger {
  import opened Common
  import opened Text
  import opened Decimal

  /** Files by name. */
  type Fs = map<string, seq<byte>>

  /** The contents of a file, or `None` when there is no such file. */
  function Lookup(fs: Fs, name: string): Option<seq<byte>> {
    if name in fs then Some(fs[name]) else None
  }

  /** `os.Rename`, with the error discarded: a missing source is a no-op and
      an existing destination is replaced. */
  function Rename(fs: Fs, src: string, dst: string): (r: Fs)
    ensures src !in fs ==> r == fs
    ensures src in fs ==> Lookup(r, dst) == Some(fs[src])
    ensures src in fs && src != dst ==> src !in r
    ensures forall n :: n != src && n != dst ==> Lookup(r, n) == Lookup(fs, n)
  {
    if src in fs then (fs - {src})[dst := fs[src]] else fs
  }

  /** `os.Remove`, with the error discarded. */
  function Remove(fs: Fs, name: string): (r: Fs)
    ensures name !in r
    ensures forall n :: n != name ==> Lookup(r, n) == Lookup(fs, n)
  {
    fs - {name}
  }

  /** Append to a file, creating it when missing (`O_CREATE|O_APPEND`). */
  function Append(fs: Fs, name: string, p: seq<byte>): (r: Fs)
    ensures name in r && r[name] == (if name in fs then fs[name] else []) + p
    ensures forall n :: n != name ==> Lookup(r, n) == Lookup(fs, n)
  {
    fs[name := (if name in fs then fs[name] else []) + p]
  }

  // ---------------------------------------------------------------------
  // Backup names

  /** `"%s.%d"`: the numbered backup `path.i`. */
  function Numbered(path: string, i: int): string {
    path + "." + Format(i)
  }

  /** `"%s.%s.1"`: the name the active file is archived under at time `ts`. */
  function Stamped(path: string, ts: string): string {
    path + "." + ts + ".1"
  }

  /** Distinct numbers give distinct backup names. */
  lemma NumberedInjective(path: string, i: int, j: int)
    ensures Numbered(path, i) == Numbered(path, j) ==> i == j
  {
    var p := path + ".";
    assert Numbered(path, i)[|p|..] == Format(i);
    assert Numbered(path, j)[|p|..] == Format(j);
    FormatInjective(i, j);
  }

  /** A backup name is never the active file's own name. */
  lemma NumberedIsNotPath(path: string, i: int)
    ensures Numbered(path, i) != path
  {
    assert |Numbered(path, i)| > |path|;
  }

  /** A timestamped archive is never a numbered backup: a number has no dot. */
  lemma StampedIsNotNumbered(path: string, ts: string, i: int)
    ensures Stamped(path, ts) != Numbered(path, i)
    ensures Stamped(path, ts) != path
  {
    var p := path + ".";
    if Stamped(path, ts) == Numbered(path, i) {
      var s := Stamped(path, ts);
      assert s[|p|..] == ts + ".1";
      assert s[|p|..] == Format(i);
      assert (ts + ".1")[|ts|] == '.';
      FormatHasNoDot(i);
      assert false;
    }
    assert |Stamped(path, ts)| > |path|;
  }

  /** Archives stamped at different times have different names. */
  lemma StampedInjective(path: string, t: string, u: string)
    ensures Stamped(path, t) == Stamped(path, u) ==> t == u
  {
    var p := path + ".";
    if Stamped(path, t) == Stamped(path, u) {
      var s, v := Stamped(path, t), Stamped(path, u);
      assert s[|p|..|s| - 2] == t;
      assert v[|p|..|v| - 2] == u;
    }
  }

  /** `n` is one of the backups `path.lo` .. `path.hi`. */
  predicate IsNumbered(path: string, n: string, lo: int, hi: int) {
    exists j :: lo <= j <= hi && n == Numbered(path, j)
  }

  // ---------------------------------------------------------------------
  // The backup shift

  /** The loop `for i := top; i >= 1; i--` renaming `path.i` to `path.(i+1)`.
      Only the backups `path.1` .. `path.(top+1)` can change. */
  function Shift(fs: Fs, path: string, top: int): (r: Fs)
    ensures forall n :: !IsNumbered(path, n, 1, top + 1) ==> Lookup(r, n) == Lookup(fs, n)
    decreases top
  {
    if top < 1 then fs
    else
      var g := Rename(fs, Numbered(path, top), Numbered(path, top + 1));
      var r := Shift(g, path, top - 1);
      assert forall n :: !IsNumbered(path, n, 1, top + 1) ==> Lookup(r, n) == Lookup(fs, n) by {
        forall n | !IsNumbered(path, n, 1, top + 1)
          ensures Lookup(r, n) == Lookup(fs, n)
        {
          assert n != Numbered(path, top) && n != Numbered(path, top + 1);
          assert !IsNumbered(path, n, 1, top);
        }
      }
      r
  }

  /** After the shift every backup has moved up by one: `path.1` is gone,
      `path.j` holds what `path.(j-1)` held, and the top slot `path.(top+1)`
      holds the old `path.top` when there was one, and otherwise keeps its
      own old contents. */
  lemma {:induction false} ShiftMoves(fs: Fs, path: string, top: int)
    requires top >= 1
    ensures Numbered(path, 1) !in Shift(fs, path, top)
    ensures forall j :: 2 <= j <= top ==>
      Lookup(Shift(fs, path, top), Numbered(path, j)) == Lookup(fs, Numbered(path, j - 1))
    ensures Lookup(Shift(fs, path, top), Numbered(path, top + 1)) ==
      (if Numbered(path, top) in fs then Some(fs[Numbered(path, top)]) else Lookup(fs, Numbered(path, top + 1)))
    decreases top
  {
    var src, dst := Numbered(path, top), Numbered(path, top + 1);
    var g := Rename(fs, src, dst);
    var r := Shift(fs, path, top);
    assert r == Shift(g, path, top - 1);
    NumberedInjective(path, top, top + 1);
    assert src !in g;
    // the top slot is outside what the inner shift touches
    forall j | 1 <= j <= top ensures Numbered(path, j) != dst {
      NumberedInjective(path, j, top + 1);
    }
    assert !IsNumbered(path, dst, 1, top);
    assert Lookup(r, dst) == Lookup(g, dst);
    if top == 1 {
      assert r == g;
    } else {
      ShiftMoves(g, path, top - 1);
      forall j | 2 <= j <= top
        ensures Lookup(r, Numbered(path, j)) == Lookup(fs, Numbered(path, j - 1))
      {
        NumberedInjective(path, j - 1, top);
        NumberedInjective(path, j - 1, top + 1);
        if j < top {
          assert Lookup(r, Numbered(path, j)) == Lookup(g, Numbered(path, j - 1));
        } else {
          assert Lookup(g, src) == None;
        }
      }
    }
  }

  /** When there are no backups to move, the shift changes nothing. */
  lemma {:induction false} ShiftWithoutBackups(fs: Fs, path: string, top: int)
    requires forall j :: 1 <= j <= top ==> Numbered(path, j) !in fs
    ensures Shift(fs, path, top) == fs
    decreases top
  {
    if top >= 1 {
      assert Rename(fs, Numbered(path, top), Numbered(path, top + 1)) == fs;
      ShiftWithoutBackups(fs, path, top - 1);
    }
  }

  // ---------------------------------------------------------------------
  // The rotating writer

  /** The writer's `cur`: no file, an open file, or a file that `Close`
      has closed but not forgotten. */
  datatype Handle = NoFile | OpenFile | ClosedFile

  /** `rotatingWriter`. */
  datatype Writer = Writer(path: string, maxSize: Int64, backups: int, cur: Handle, written: int)

  /** The writer together with the file system after a step, and whether
      the step reported success. */
  datatype Step = Step(w: Writer, fs: Fs, ok: bool)

  /** The writer's counter agrees with its file whenever it holds one. */
  predicate Inv(w: Writer, fs: Fs) {
    w.cur != NoFile ==> w.path in fs && w.written == |fs[w.path]|
  }

  /** `open`: create the file if needed and take its size as the count of
      bytes written. `openOk` says whether the OS grants the open. */
  function Open(w: Writer, fs: Fs, openOk: bool): (s: Step)
    ensures s.ok == openOk
    ensures !s.ok ==> s.w == w && s.fs == fs
    ensures s.ok ==> w.path in s.fs && s.w == w.(cur := OpenFile, written := |s.fs[w.path]|)
    ensures s.ok ==> s.fs == (if w.path in fs then fs else fs[w.path := []])
    ensures s.ok ==> Inv(s.w, s.fs)
  {
    if !openOk then Step(w, fs, false)
    else
      var fs' := if w.path in fs then fs else fs[w.path := []];
      Step(w.(cur := OpenFile, written := |fs'[w.path]|), fs', true)
  }

  /** `rotate` as written: close, shift the numbered backups up, archive the
      active file under a timestamped name, drop `path.(backups+1)`, reset
      the counter and open a fresh file. */
  function Rotate(w: Writer, fs: Fs, ts: string, openOk: bool): (s: Step)
    ensures s.ok == openOk
    ensures Lookup(s.fs, Stamped(w.path, ts)) ==
      (if w.path in fs then Some(fs[w.path]) else Lookup(fs, Stamped(w.path, ts)))
    ensures w.backups > 0 ==> Numbered(w.path, w.backups + 1) !in s.fs
    ensures s.ok ==> s.w.cur == OpenFile && s.w.written == 0 && w.path in s.fs && s.fs[w.path] == []
    ensures !s.ok ==> s.w.cur == NoFile && w.path !in s.fs
    ensures s.w.path == w.path && s.w.maxSize == w.maxSize && s.w.backups == w.backups
  {
    var fs1 := Shift(fs, w.path, w.backups - 1);
    var archive := Stamped(w.path, ts);
    var fs2 := Rename(fs1, w.path, archive);
    var fs3 := if w.backups > 0 then Remove(fs2, Numbered(w.path, w.backups + 1)) else fs2;
    StampedIsNotNumbered(w.path, ts, w.backups + 1);
    NumberedIsNotPath(w.path, w.backups + 1);
    assert !IsNumbered(w.path, w.path, 1, w.backups) by {
      forall j | 1 <= j <= w.backups ensures Numbered(w.path, j) != w.path {
        NumberedIsNotPath(w.path, j);
      }
    }
    assert !IsNumbered(w.path, archive, 1, w.backups) by {
      forall j | 1 <= j <= w.backups ensures Numbered(w.path, j) != archive {
        StampedIsNotNumbered(w.path, ts, j);
      }
    }
    assert w.path !in fs2;
    assert Lookup(fs1, w.path) == Lookup(fs, w.path);
    assert Lookup(fs1, archive) == Lookup(fs, archive);
    assert Lookup(fs3, archive) == Lookup(fs2, archive);
    Open(w.(cur := NoFile, written := 0), fs3, openOk)
  }

  /** `rotate` as written touches only the log, its timestamped archive
      and the backups `path.1` .. `path.(backups+1)`. */
  lemma RotateKeepsOthers(w: Writer, fs: Fs, ts: string, openOk: bool)
    ensures var r := Rotate(w, fs, ts, openOk).fs;
      forall n :: n != w.path && n != Stamped(w.path, ts) && !IsNumbered(w.path, n, 1, w.backups + 1) ==>
        Lookup(r, n) == Lookup(fs, n)
  {
    var path, b := w.path, w.backups;
    var fs1 := Shift(fs, path, b - 1);
    forall n | n != path && n != Stamped(path, ts) && !IsNumbered(path, n, 1, b + 1)
      ensures Lookup(Rotate(w, fs, ts, openOk).fs, n) == Lookup(fs, n)
    {
      assert !IsNumbered(path, n, 1, b);
      assert Lookup(fs1, n) == Lookup(fs, n);
    }
  }

  /** `rotate` as written moves the numbered backups up one slot: `path.1`
      is vacated, `path.j` takes `path.(j-1)`, and the top slot
      `path.backups` takes `path.(backups-1)` when there is one. */
  lemma RotateMovesBackups(w: Writer, fs: Fs, ts: string, openOk: bool)
    requires w.backups >= 2
    ensures var r := Rotate(w, fs, ts, openOk).fs;
      && Numbered(w.path, 1) !in r
      && (forall j :: 2 <= j < w.backups ==> Lookup(r, Numbered(w.path, j)) == Lookup(fs, Numbered(w.path, j - 1)))
      && Lookup(r, Numbered(w.path, w.backups)) ==
           (if Numbered(w.path, w.backups - 1) in fs then Some(fs[Numbered(w.path, w.backups - 1)])
            else Lookup(fs, Numbered(w.path, w.backups)))
  {
    var path, b := w.path, w.backups;
    var fs1 := Shift(fs, path, b - 1);
    var r := Rotate(w, fs, ts, openOk).fs;
    ShiftMoves(fs, path, b - 1);
    forall j | 1 <= j <= b ensures Lookup(r, Numbered(path, j)) == Lookup(fs1, Numbered(path, j)) {
      NumberedIsNotPath(path, j);
      StampedIsNotNumbered(path, ts, j);
      NumberedInjective(path, j, b + 1);
    }
  }

  /** The size a write would bring the file to exceeds the limit. */
  predicate MustRotate(w: Writer, n: int) {
    w.maxSize > 0 && w.written + n > w.maxSize
  }

  /** A file is open, opening one first when the writer holds none. */
  function Ready(w: Writer, fs: Fs, openOk: bool): (s: Step)
    ensures w.cur != NoFile ==> s == Step(w, fs, true)
    ensures w.cur == NoFile ==> s == Open(w, fs, openOk)
  {
    if w.cur == NoFile then Open(w, fs, openOk) else Step(w, fs, true)
  }

  /** The outcome of `Write`: the step and the byte count it reports. */
  datatype Written = Written(step: Step, n: nat)

  /** The end of `Write`, once a file is ready and any rotation is done: an
      open file takes the bytes; a closed one accepts nothing. */
  function Finish(w: Writer, fs: Fs, s: Step, p: seq<byte>): Written {
    if !s.ok then Written(s, 0)
    else if s.w.cur == OpenFile then
      Written(Step(s.w.(written := s.w.written + |p|), Append(s.fs, w.path, p), true), |p|)
    else Written(Step(w, fs, false), 0)
  }

  /** `Write` as written: open if needed, rotate first when the bytes would
      not fit, then append them. A closed file accepts nothing unless a
      rotation reopens it. `ts` is the time a rotation would stamp. */
  function Write(w: Writer, fs: Fs, p: seq<byte>, ts: string, openOk: bool): (r: Written)
    ensures !r.step.ok ==> r.n == 0
    ensures r.step.ok ==> r.n == |p|
    ensures r.step.w.path == w.path && r.step.w.maxSize == w.maxSize && r.step.w.backups == w.backups
    ensures
      var pre := Ready(w, fs, openOk);
      && (!pre.ok ==> r.step == Step(w, fs, false))
      && (pre.ok && MustRotate(pre.w, |p|) && openOk ==>
            && r.step.ok && w.path in r.step.fs && r.step.fs[w.path] == p && r.step.w.written == |p|
            && r.step.w.cur == OpenFile
            && (w.path in pre.fs ==> Lookup(r.step.fs, Stamped(w.path, ts)) == Some(pre.fs[w.path])))
      && (pre.ok && MustRotate(pre.w, |p|) && !openOk ==>
            !r.step.ok && r.step.w.cur == NoFile && w.path !in r.step.fs)
      && (pre.ok && !MustRotate(pre.w, |p|) && pre.w.cur == OpenFile ==>
            && r.step.ok
            && r.step.fs == Append(pre.fs, w.path, p)
            && r.step.w == pre.w.(written := pre.w.written + |p|))
      && (pre.ok && !MustRotate(pre.w, |p|) && pre.w.cur == ClosedFile ==>
            r.step == Step(w, fs, false))
  {
    var pre := Ready(w, fs, openOk);
    if !pre.ok then Written(Step(w, fs, false), 0)
    else
      StampedIsNotNumbered(w.path, ts, 0);
      Finish(w, fs, if MustRotate(pre.w, |p|) then Rotate(pre.w, pre.fs, ts, openOk) else pre, p)
  }

  /** `Write` with the corrected rotation `RotateRetaining` below: on a
      rotation the old contents go to `path.1` when backups are kept. */
  function WriteRetaining(w: Writer, fs: Fs, p: seq<byte>, openOk: bool): (r: Written)
    ensures !r.step.ok ==> r.n == 0
    ensures r.step.ok ==> r.n == |p|
    ensures r.step.w.path == w.path && r.step.w.maxSize == w.maxSize && r.step.w.backups == w.backups
    ensures
      var pre := Ready(w, fs, openOk);
      && (!pre.ok ==> r.step == Step(w, fs, false))
      && (pre.ok && MustRotate(pre.w, |p|) && openOk ==>
            && r.step.ok && w.path in r.step.fs && r.step.fs[w.path] == p && r.step.w.written == |p|
            && (w.backups > 0 && w.path in pre.fs ==> Lookup(r.step.fs, Numbered(w.path, 1)) == Some(pre.fs[w.path])))
      && (pre.ok && MustRotate(pre.w, |p|) && !openOk ==> !r.step.ok)
      && (pre.ok && !MustRotate(pre.w, |p|) ==> r == Write(w, fs, p, "", openOk))
  {
    var pre := Ready(w, fs, openOk);
    if !pre.ok then Written(Step(w, fs, false), 0)
    else
      NumberedIsNotPath(w.path, 1);
      Finish(w, fs, if MustRotate(pre.w, |p|) then RotateRetaining(pre.w, pre.fs, openOk) else pre, p)
  }

  /** A write as written that has to rotate, with no numbered backups
      around, only adds the new timestamped archive and still leaves no
      numbered backup behind. */
  lemma WriteRotationOnlyAdds(w: Writer, fs: Fs, p: seq<byte>, ts: string)
    requires w.cur != NoFile && w.path in fs && MustRotate(w, |p|)
    requires forall j :: 1 <= j <= w.backups + 1 ==> Numbered(w.path, j) !in fs
    ensures var r := Write(w, fs, p, ts, true).step.fs;
      && Archives(r, w.path) == Archives(fs, w.path) + {Stamped(w.path, ts)}
      && forall j :: 1 <= j <= w.backups + 1 ==> Numbered(w.path, j) !in r
  {
    var path := w.path;
    RotateOnlyAdds(w, fs, ts, true);
    var s := Rotate(w, fs, ts, true);
    var r := Write(w, fs, p, ts, true).step.fs;
    assert r == Append(s.fs, path, p);
    assert !HasPrefix(path, path + ".");
    forall n ensures n in Archives(r, path) <==> n in Archives(s.fs, path) {
      if n != path {
        assert Lookup(r, n) == Lookup(s.fs, n);
      }
    }
    forall j | 1 <= j <= w.backups + 1 ensures Numbered(path, j) !in r {
      NumberedIsNotPath(path, j);
      assert Lookup(r, Numbered(path, j)) == Lookup(s.fs, Numbered(path, j));
    }
  }

  /** The retention finding on the write path: with one backup configured,
      two writes that each overflow the limit, at different times, leave two
      archives behind. */
  lemma WritesPileUpArchives(w: Writer, fs: Fs, p1: seq<byte>, p2: seq<byte>, ts1: string, ts2: string)
    requires w.backups == 1 && w.cur == OpenFile && w.path in fs && Archives(fs, w.path) == {}
    requires MustRotate(w, |p1|) && |p1| + |p2| > w.maxSize && ts1 != ts2
    ensures
      var r1 := Write(w, fs, p1, ts1, true).step;
      var r2 := Write(r1.w, r1.fs, p2, ts2, true).step;
      |Archives(r2.fs, w.path)| == 2 > w.backups
  {
    forall j | 1 <= j <= 2 ensures Numbered(w.path, j) !in fs {
      assert HasPrefix(Numbered(w.path, j), w.path + ".");
      assert Numbered(w.path, j) !in Archives(fs, w.path);
    }
    var r1 := Write(w, fs, p1, ts1, true).step;
    WriteRotationOnlyAdds(w, fs, p1, ts1);
    assert r1.w.cur == OpenFile && r1.w.written == |p1| && w.path in r1.fs;
    WriteRotationOnlyAdds(r1.w, r1.fs, p2, ts2);
    StampedInjective(w.path, ts1, ts2);
    var a1, a2 := Stamped(w.path, ts1), Stamped(w.path, ts2);
    assert Archives(Write(r1.w, r1.fs, p2, ts2, true).step.fs, w.path) == {a1, a2};
  }

  /** `Close`: close the file if the writer holds one. The handle is not
      forgotten, so closing twice reports the error of the second close. */
  function Close(w: Writer): (s: Writer)
    ensures w.cur == NoFile ==> s == w
    ensures w.cur != NoFile ==> s == w.(cur := ClosedFile)
  {
    if w.cur == NoFile then w else w.(cur := ClosedFile)
  }

  /** Whether `Close` reports success. */
  function CloseOk(w: Writer): (ok: bool)
    ensures ok <==> w.cur != ClosedFile
  {
    w.cur != ClosedFile
  }

  /** A write that fits the limit keeps the counter within the limit. */
  lemma WriteKeepsWithinLimit(w: Writer, fs: Fs, p: seq<byte>, ts: string, openOk: bool)
    requires w.maxSize > 0 && |p| <= w.maxSize
    ensures Write(w, fs, p, ts, openOk).step.ok ==> Write(w, fs, p, ts, openOk).step.w.written <= w.maxSize
  {
  }

  /** Every step keeps the counter equal to the size of the open file. */
  lemma WritePreservesInv(w: Writer, fs: Fs, p: seq<byte>, ts: string, openOk: bool)
    requires Inv(w, fs)
    ensures Inv(Write(w, fs, p, ts, openOk).step.w, Write(w, fs, p, ts, openOk).step.fs)
  {
  }

  lemma CloseKeepsInv(w: Writer, fs: Fs)
    requires Inv(w, fs)
    ensures Inv(Close(w), fs)
  {
  }

  // ---------------------------------------------------------------------
  // Sinks

  /** What `newRotatingWriter` hands back: standard output, a plain
      append-only file, or a rotating writer. */
  datatype Sink = Console(stream: Stream) | Appender(path: string) | Rotating(w: Writer)

  /** The process's standard streams. */
  datatype Stream = Stdout | Stderr

  /** The result of making a sink: the sink with the file system after
      opening, the error `open` returned, or the panic of `mustOpen`. */
  datatype Made = Made(sink: Sink, fs: Fs) | OpenFailed | Panicked

  /** `newRotatingWriter`: without a path or a positive size limit the sink
      is the plain writer `mustOpen` gives (standard output for an empty
      path, panicking when the file cannot be opened); otherwise a rotating
      writer with its file open. */
  function NewSink(path: string, maxSize: Int64, backups: int, fs: Fs, openOk: bool): (m: Made)
    ensures path == "" ==> m == Made(Console(Stdout), fs)
    ensures path != "" && maxSize <= 0 ==>
      m == (if openOk then Made(Appender(path), Append(fs, path, [])) else Panicked)
    ensures (path == "" || maxSize <= 0) ==> !(m.Made? && m.sink.Rotating?)
    ensures m.Made? ==> forall n :: n != path ==> Lookup(m.fs, n) == Lookup(fs, n)
    ensures m.Made? && path != "" ==> path in m.fs
    ensures path != "" && maxSize > 0 ==>
      && (openOk <==> m.Made?)
      && (!openOk ==> m == OpenFailed)
      && (openOk ==>
            && m.sink.Rotating? && m.sink.w.cur == OpenFile && Inv(m.sink.w, m.fs)
            && m.sink.w.written == (if path in fs then |fs[path]| else 0)
            && m.sink.w.path == path && m.sink.w.maxSize == maxSize && m.sink.w.backups == backups)
  {
    if path == "" then Made(Console(Stdout), fs)
    else if maxSize <= 0 then
      if openOk then Made(Appender(path), Append(fs, path, [])) else Panicked
    else
      var s := Open(Writer(path, maxSize, backups, NoFile, 0), fs, openOk);
      if s.ok then Made(Rotating(s.w), s.fs) else OpenFailed
  }

  /** The outcome of writing to a sink. */
  datatype SinkWritten = SinkWritten(sink: Sink, fs: Fs, n: nat, ok: bool)

  /** Writing to a sink. Standard output lies outside the file system. */
  function SinkWrite(s: Sink, fs: Fs, p: seq<byte>, ts: string, openOk: bool): (r: SinkWritten)
    ensures r.sink.Rotating? <==> s.Rotating?
    ensures !s.Rotating? ==> r.ok && r.n == |p| && r.sink == s
    ensures s.Console? ==> r.fs == fs
    ensures s.Appender? ==>
      && s.path in r.fs && r.fs[s.path] == (if s.path in fs then fs[s.path] else []) + p
      && forall n :: n != s.path ==> Lookup(r.fs, n) == Lookup(fs, n)
  {
    match s
    case Console(_) => SinkWritten(s, fs, |p|, true)
    case Appender(path) => SinkWritten(s, Append(fs, path, p), |p|, true)
    case Rotating(w) =>
      var r := Write(w, fs, p, ts, openOk);
      SinkWritten(Rotating(r.step.w), r.step.fs, r.n, r.step.ok)
  }

  /** Closing a sink: the plain writers close as a no-op. */
  function SinkClose(s: Sink): (r: (Sink, bool))
    ensures !s.Rotating? ==> r == (s, true)
    ensures s.Rotating? ==> r.0.Rotating? && r.0.w.cur != OpenFile && (r.1 <==> s.w.cur != ClosedFile)
    ensures s.Rotating? && s.w.cur == NoFile ==> r == (s, true)
  {
    match s
    case Rotating(w) => (Rotating(Close(w)), CloseOk(w))
    case _ => (s, true)
  }

  /** However many writes it takes, a plain file sink never renames or
      removes anything: every other file is untouched and its own file only
      grows. */
  lemma {:induction false} PlainSinkNeverRotates(s: Sink, fs: Fs, ps: seq<seq<byte>>, ts: seq<string>, openOk: bool)
    requires s.Appender? && s.path in fs && |ts| == |ps|
    ensures
      var r := WriteAll(s, fs, ps, ts, openOk);
      && (forall n :: n != s.path ==> Lookup(r, n) == Lookup(fs, n))
      && s.path in r
      && |fs[s.path]| <= |r[s.path]| && r[s.path][..|fs[s.path]|] == fs[s.path]
    decreases |ps|
  {
    if |ps| > 0 {
      var fs1 := SinkWrite(s, fs, ps[0], ts[0], openOk).fs;
      PlainSinkNeverRotates(s, fs1, ps[1..], ts[1..], openOk);
      var r := WriteAll(s, fs, ps, ts, openOk);
      assert r == WriteAll(s, fs1, ps[1..], ts[1..], openOk);
      assert fs1[s.path][..|fs[s.path]|] == fs[s.path];
      assert r[s.path][..|fs1[s.path]|] == fs1[s.path];
      assert r[s.path][..|fs[s.path]|] == fs1[s.path][..|fs[s.path]|];
    }
  }

  /** The file system after writing each of `ps` in turn to a sink, the
      `k`-th write at time `ts[k]`. */
  function WriteAll(s: Sink, fs: Fs, ps: seq<seq<byte>>, ts: seq<string>, openOk: bool): (r: Fs)
    requires |ts| == |ps|
    decreases |ps|
  {
    if |ps| == 0 then fs
    else
      var w := SinkWrite(s, fs, ps[0], ts[0], openOk);
      WriteAll(w.sink, w.fs, ps[1..], ts[1..], openOk)
  }

  // ---------------------------------------------------------------------
  // Retention

  /** The files that sit beside the log as its archives: `path.` followed
      by anything. */
  function Archives(fs: Fs, path: string): set<string> {
    set n | n in fs && HasPrefix(n, path + ".")
  }

  /** The backups `path.1` .. `path.b`. */
  function NumberedSet(path: string, b: int): set<string> {
    set j | 1 <= j <= b :: Numbered(path, j)
  }

  /** With no numbered backups around (and the writer never makes any), a
      rotation as written only adds the new timestamped archive: nothing is
      ever pruned, whatever the backup count. */
  lemma RotateOnlyAdds(w: Writer, fs: Fs, ts: string, openOk: bool)
    requires w.path in fs
    requires forall j :: 1 <= j <= w.backups + 1 ==> Numbered(w.path, j) !in fs
    ensures Archives(Rotate(w, fs, ts, openOk).fs, w.path) == Archives(fs, w.path) + {Stamped(w.path, ts)}
    ensures forall j :: 1 <= j <= w.backups + 1 ==> Numbered(w.path, j) !in Rotate(w, fs, ts, openOk).fs
  {
    var path, archive := w.path, Stamped(w.path, ts);
    ShiftWithoutBackups(fs, path, w.backups - 1);
    var fs2 := Rename(fs, path, archive);
    StampedIsNotNumbered(path, ts, 0);
    assert HasPrefix(archive, path + ".") by {
      assert archive == (path + ".") + (ts + ".1");
    }
    assert !HasPrefix(path, path + ".");
    var fs3 := if w.backups > 0 then Remove(fs2, Numbered(path, w.backups + 1)) else fs2;
    if w.backups > 0 {
      StampedIsNotNumbered(path, ts, w.backups + 1);
      NumberedIsNotPath(path, w.backups + 1);
      assert fs3 == fs2;
    }
    var r := Rotate(w, fs, ts, openOk).fs;
    assert r == Open(w.(cur := NoFile, written := 0), fs3, openOk).fs;
    forall j | 1 <= j <= w.backups + 1 ensures Numbered(path, j) !in r {
      StampedIsNotNumbered(path, ts, j);
      NumberedIsNotPath(path, j);
      assert Lookup(fs, Numbered(path, j)) == None;
    }
    forall n ensures n in Archives(r, path) <==> n in Archives(fs, path) || n == archive {
      if n != path && n != archive {
        assert Lookup(r, n) == Lookup(fs, n);
      }
    }
  }

  /** Two rotations at different times with one backup configured leave two
      archives behind. */
  lemma RetentionIgnored(w: Writer, fs: Fs, ts1: string, ts2: string)
    requires w.backups == 1 && w.path in fs && ts1 != ts2
    requires Archives(fs, w.path) == {}
    ensures
      var s1 := Rotate(w, fs, ts1, true);
      var s2 := Rotate(s1.w, s1.fs, ts2, true);
      |Archives(s2.fs, w.path)| == 2 > w.backups
  {
    forall j | 1 <= j <= 2 ensures Numbered(w.path, j) !in fs {
      assert HasPrefix(Numbered(w.path, j), w.path + ".");
      assert Numbered(w.path, j) !in Archives(fs, w.path);
    }
    var s1 := Rotate(w, fs, ts1, true);
    RotateOnlyAdds(w, fs, ts1, true);
    RotateOnlyAdds(s1.w, s1.fs, ts2, true);
    StampedInjective(w.path, ts1, ts2);
    var a1, a2 := Stamped(w.path, ts1), Stamped(w.path, ts2);
    assert Archives(Rotate(s1.w, s1.fs, ts2, true).fs, w.path) == {a1, a2};
  }

  /** The evidently intended rotation: the active file becomes `path.1` so
      that the shift and the removal of `path.(backups+1)` bound what is
      kept; with no backups configured the old file is dropped. */
  function RotateRetaining(w: Writer, fs: Fs, openOk: bool): (s: Step)
    ensures s.ok == openOk
    ensures w.backups > 0 && w.path in fs ==> Lookup(s.fs, Numbered(w.path, 1)) == Some(fs[w.path])
    ensures s.ok ==> s.w.cur == OpenFile && s.w.written == 0 && w.path in s.fs && s.fs[w.path] == []
    ensures s.w.path == w.path && s.w.maxSize == w.maxSize && s.w.backups == w.backups
  {
    var path := w.path;
    var fs1 := Shift(fs, path, w.backups - 1);
    var fs2 := if w.backups > 0 then Rename(fs1, path, Numbered(path, 1)) else Remove(fs1, path);
    var fs3 := if w.backups > 0 then Remove(fs2, Numbered(path, w.backups + 1)) else fs2;
    NumberedIsNotPath(path, 1);
    NumberedIsNotPath(path, w.backups + 1);
    NumberedInjective(path, 1, w.backups + 1);
    assert !IsNumbered(path, path, 1, w.backups) by {
      forall j | 1 <= j <= w.backups ensures Numbered(path, j) != path {
        NumberedIsNotPath(path, j);
      }
    }
    assert path !in fs2;
    assert Lookup(fs1, path) == Lookup(fs, path);
    Open(w.(cur := NoFile, written := 0), fs3, openOk)
  }

  /** There are at most `b` backups `path.1` .. `path.b`. */
  lemma {:induction false} NumberedSetSize(path: string, b: int)
    ensures |NumberedSet(path, b)| <= (if b < 0 then 0 else b)
    decreases b
  {
    if b >= 1 {
      NumberedSetSize(path, b - 1);
      assert NumberedSet(path, b) == NumberedSet(path, b - 1) + {Numbered(path, b)};
    } else {
      assert NumberedSet(path, b) == {};
    }
  }

  lemma {:induction false} SubsetSize<T>(a: set<T>, b: set<T>)
    requires a <= b
    ensures |a| <= |b|
    decreases b
  {
    if a != {} {
      var x :| x in a;
      SubsetSize(a - {x}, b - {x});
    }
  }

  /** With the corrected rotation the archives are always among
      `path.1` .. `path.backups`, so at most `backups` of them are kept. */
  lemma RetainingKeepsAtMostBackups(w: Writer, fs: Fs, openOk: bool)
    requires w.backups >= 0
    requires Archives(fs, w.path) <= NumberedSet(w.path, w.backups)
    ensures Archives(RotateRetaining(w, fs, openOk).fs, w.path) <= NumberedSet(w.path, w.backups)
    ensures |Archives(RotateRetaining(w, fs, openOk).fs, w.path)| <= w.backups
  {
    var path, b := w.path, w.backups;
    var fs1 := Shift(fs, path, b - 1);
    assert forall n :: IsNumbered(path, n, 1, b) ==> n in NumberedSet(path, b);
    assert Archives(fs1, path) <= NumberedSet(path, b) by {
      forall n | n in Archives(fs1, path) ensures n in NumberedSet(path, b) {
        if !IsNumbered(path, n, 1, b) {
          assert Lookup(fs1, n) == Lookup(fs, n);
        }
      }
    }
    var r := RotateRetaining(w, fs, openOk).fs;
    assert !HasPrefix(path, path + ".");
    forall n | n in Archives(r, path) ensures n in NumberedSet(path, b) {
      NumberedIsNotPath(path, 1);
      if b > 0 && n == Numbered(path, 1) {
      } else {
        assert n in fs1;
      }
    }
    NumberedSetSize(path, b);
    SubsetSize(Archives(r, path), NumberedSet(path, b));
  }

  /** With the corrected rotation, writing never lets the archives grow
      past `path.1` .. `path.backups`: opening and appending touch only the
      active file, and a rotation keeps the bound. */
  lemma WriteKeepsAtMostBackups(w: Writer, fs: Fs, p: seq<byte>, openOk: bool)
    requires w.backups >= 0
    requires Archives(fs, w.path) <= NumberedSet(w.path, w.backups)
    ensures Archives(WriteRetaining(w, fs, p, openOk).step.fs, w.path) <= NumberedSet(w.path, w.backups)
  {
    var path := w.path;
    assert !HasPrefix(path, path + ".");
    var pre := Ready(w, fs, openOk);
    assert Archives(pre.fs, path) == Archives(fs, path) by {
      forall n ensures n in Archives(pre.fs, path) <==> n in Archives(fs, path) {
        if n != path { assert Lookup(pre.fs, n) == Lookup(fs, n); }
      }
    }
    if pre.ok {
      var s := if MustRotate(pre.w, |p|) then RotateRetaining(pre.w, pre.fs, openOk) else pre;
      if MustRotate(pre.w, |p|) {
        RetainingKeepsAtMostBackups(pre.w, pre.fs, openOk);
      }
      if s.ok && s.w.cur == OpenFile {
        var fs' := Append(s.fs, path, p);
        forall n | n in Archives(fs', path) ensures n in NumberedSet(path, w.backups) {
          assert n != path;
          assert Lookup(fs', n) == Lookup(s.fs, n);
        }
      }
    }
  }
}
