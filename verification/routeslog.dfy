/** The route table printed at start-up: cell cropping, handler and group
    names, the method colours, and the order in which groups and rows are
    listed. Strings are rune sequences, and Go's byte-wise string order is
    the order of code points. */
module RoutesLog {
  import opened Text

  // ---------------------------------------------------------------------
  // Cell helpers

  const Ellipsis: char := '\U{2026}'

  /** `crop`: a string longer than `w` runes is cut to `w` runes, the last
      of them an ellipsis when there is room for one. Go panics on a
      negative width. */
  function Crop(s: string, w: int): (r: string)
    requires w >= 0
    ensures |r| == (if |s| <= w then |s| else w)
    ensures forall i :: 0 <= i < |r| && (|s| <= w || w <= 1 || i < w - 1) ==> r[i] == s[i]
    ensures |s| > w >= 2 ==> r[w - 1] == Ellipsis
  {
    if |s| <= w then s
    else if w <= 1 then s[..w]
    else s[..w - 1] + [Ellipsis]
  }

  /** Cropping twice to the same width is cropping once. */
  lemma CropIdempotent(s: string, w: int)
    requires w >= 0
    ensures Crop(Crop(s, w), w) == Crop(s, w)
  {
  }

  /** `short`: what follows the last dot of a qualified handler name, or the
      whole name when it has no dot. */
  function Short(fq: string): (r: string)
    ensures '.' !in r
    ensures '.' !in fq ==> r == fq
    ensures '.' in fq ==> |r| < |fq| && fq[|fq| - |r| - 1] == '.' && fq[|fq| - |r|..] == r
  {
    var i := LastIndexOf(fq, '.');
    if i != -1 then
      var t := fq[i + 1..];
      assert forall k :: 0 <= k < |t| ==> t[k] == fq[i + 1 + k];
      t
    else
      assert forall k :: 0 <= k < |fq| ==> fq[k] != '.';
      fq
  }

  /** `first`: the group a path belongs to. "/" is its own group; otherwise
      it is the first segment once one leading slash is dropped. */
  function First(p: string): (r: string)
    ensures p == "/" ==> r == "/"
    ensures p != "/" ==> '/' !in r
    ensures p != "/" ==>
      var t := if HasPrefix(p, "/") then p[1..] else p;
      HasPrefix(t, r) && (|r| == |t| || t[|r|] == '/')
  {
    if p == "/" then "/"
    else
      var t := if HasPrefix(p, "/") then p[1..] else p;
      SplitHead(t, '/');
      Split(t, '/')[0]
  }

  /** A path with no slash after its leading one is its own group name. */
  lemma FirstOfSingleSegment(seg: string)
    requires seg != "" && '/' !in seg
    ensures First("/" + seg) == seg
  {
    var p := "/" + seg;
    assert p != "/" by { assert |p| == |seg| + 1; }
    assert HasPrefix(p, "/");
    assert p[1..] == seg;
  }

  // ---------------------------------------------------------------------
  // Colours and ranks

  const Green: string := "\U{1B}[32m"
  const Cyan: string := "\U{1B}[36m"
  const Yellow: string := "\U{1B}[33m"
  const Red: string := "\U{1B}[31m"
  const Blue: string := "\U{1B}[34m"
  const Magenta: string := "\U{1B}[35m"
  const Reset: string := "\U{1B}[0m"

  /** The methods the table colours. */
  const ColouredMethods: set<string> := {"GET", "POST", "PUT", "DELETE", "PATCH", "HEAD"}

  /** `color`: the ANSI colour of a method, "" for the others. */
  function Color(m: string): (c: string)
    ensures c != "" <==> m in ColouredMethods
    ensures c != "" ==> |c| == 5 && c[0] == '\U{1B}' && c[..3] == "\U{1B}[3"
  {
    if m == "GET" then Green
    else if m == "POST" then Cyan
    else if m == "PUT" then Yellow
    else if m == "DELETE" then Red
    else if m == "PATCH" then Blue
    else if m == "HEAD" then Magenta
    else ""
  }

  /** Every coloured method gets a colour of its own. */
  lemma ColorsDistinct(m1: string, m2: string)
    requires m1 in ColouredMethods && m2 in ColouredMethods && m1 != m2
    ensures Color(m1) != Color(m2)
  {
  }

  /** The methods the table orders, in the order it lists them. */
  const RankedMethods: seq<string> := ["GET", "POST", "PUT", "PATCH", "DELETE"]

  /** The order of methods within one path: GET, POST, PUT, PATCH, DELETE,
      and every other method before them all. */
  function Rank(m: string): (k: int)
    ensures 0 <= k <= |RankedMethods|
    ensures k == 0 <==> m !in RankedMethods
    ensures k > 0 ==> RankedMethods[k - 1] == m
  {
    if m == "GET" then 1
    else if m == "POST" then 2
    else if m == "PUT" then 3
    else if m == "PATCH" then 4
    else if m == "DELETE" then 5
    else 0
  }

  // ---------------------------------------------------------------------
  // String order

  /** Go's `<` on strings. */
  predicate StrLess(a: string, b: string)
    decreases |a|
  {
    if |a| == 0 then |b| > 0
    else if |b| == 0 then false
    else if a[0] != b[0] then a[0] < b[0]
    else StrLess(a[1..], b[1..])
  }

  lemma {:induction false} StrLessIrreflexive(a: string)
    ensures !StrLess(a, a)
    decreases |a|
  {
    if |a| > 0 {
      StrLessIrreflexive(a[1..]);
    }
  }

  lemma {:induction false} StrLessTransitive(a: string, b: string, c: string)
    requires StrLess(a, b) && StrLess(b, c)
    ensures StrLess(a, c)
    decreases |a|
  {
    if |a| > 0 && |b| > 0 && |c| > 0 && a[0] == b[0] && b[0] == c[0] {
      StrLessTransitive(a[1..], b[1..], c[1..]);
    }
  }

  /** Any two different strings are ordered one way or the other. */
  lemma {:induction false} StrLessTotal(a: string, b: string)
    ensures a == b || StrLess(a, b) || StrLess(b, a)
    decreases |a|
  {
    if |a| > 0 && |b| > 0 && a[0] == b[0] {
      StrLessTotal(a[1..], b[1..]);
      if a[1..] == b[1..] {
        assert a == [a[0]] + a[1..] && b == [b[0]] + b[1..];
      }
    }
  }

  lemma StrLessAsymmetric(a: string, b: string)
    requires StrLess(a, b)
    ensures !StrLess(b, a)
  {
    if StrLess(b, a) {
      StrLessTransitive(a, b, a);
      StrLessIrreflexive(a);
    }
  }

  // ---------------------------------------------------------------------
  // Rows and their order

  /** A registered route: method, path and fully qualified handler name. */
  datatype Route = Route(verb: string, path: string, handler: string)

  /** One printed row. */
  datatype Row = Row(verb: string, path: string, handler: string)

  function RowOf(rt: Route): Row {
    Row(rt.verb, rt.path, Short(rt.handler))
  }

  /** The comparator handed to `sort.Slice`: by path, then by method rank. */
  predicate RowLess(a: Row, b: Row) {
    if a.path == b.path then Rank(a.verb) < Rank(b.verb) else StrLess(a.path, b.path)
  }

  lemma RowLessTransitive(a: Row, b: Row, c: Row)
    requires RowLess(a, b) && RowLess(b, c)
    ensures RowLess(a, c)
  {
    if a.path != b.path && b.path != c.path {
      StrLessTransitive(a.path, b.path, c.path);
      if a.path == c.path {
        StrLessAsymmetric(a.path, b.path);
      }
    }
  }

  /** No row sorts before a later one. */
  predicate RowsSorted(xs: seq<Row>) {
    forall i, j :: 0 <= i < j < |xs| ==> !RowLess(xs[j], xs[i])
  }

  /** A row that no later row sorts before can lead a sorted listing. */
  lemma SortedCons(y: Row, rest: seq<Row>)
    requires RowsSorted(rest)
    requires forall k :: 0 <= k < |rest| ==> !RowLess(rest[k], y)
    ensures RowsSorted([y] + rest)
  {
    var r := [y] + rest;
    forall i, j | 0 <= i < j < |r| ensures !RowLess(r[j], r[i]) {
      if i > 0 {
        assert r[i] == rest[i - 1] && r[j] == rest[j - 1];
      } else {
        assert r[j] == rest[j - 1];
      }
    }
  }

  /** Every element of a rearrangement of `xs` plus `x` that is not `x`
      comes from `xs`. */
  lemma FromTail(x: Row, tail: seq<Row>, rest: seq<Row>, k: int)
    requires multiset(rest) == multiset(tail) + multiset{x}
    requires 0 <= k < |rest| && rest[k] != x
    ensures exists m :: 0 <= m < |tail| && tail[m] == rest[k]
  {
    assert rest[k] in multiset(rest);
    assert rest[k] in multiset(tail);
  }

  /** After a row that `x` does not sort before, the insertion of `x` into
      the rows behind it still has nothing that sorts before that row. */
  lemma HeadStillLeads(x: Row, xs: seq<Row>, rest: seq<Row>)
    requires |xs| > 0 && RowsSorted(xs)
    requires multiset(rest) == multiset(xs[1..]) + multiset{x}
    requires !RowLess(x, xs[0])
    ensures forall k :: 0 <= k < |rest| ==> !RowLess(rest[k], xs[0])
  {
    var tail := xs[1..];
    forall k | 0 <= k < |rest| ensures !RowLess(rest[k], xs[0]) {
      if rest[k] != x {
        FromTail(x, tail, rest, k);
        var m :| 0 <= m < |tail| && tail[m] == rest[k];
        assert xs[m + 1] == rest[k];
      }
    }
  }

  /** A row that sorts before the first of a sorted listing has no row of
      it sorting before itself. */
  lemma SmallerLeads(x: Row, xs: seq<Row>)
    requires |xs| > 0 && RowsSorted(xs)
    requires RowLess(x, xs[0])
    ensures forall j :: 0 <= j < |xs| ==> !RowLess(xs[j], x)
  {
    forall j | 0 <= j < |xs| ensures !RowLess(xs[j], x) {
      if RowLess(xs[j], x) {
        RowLessTransitive(xs[j], x, xs[0]);
      }
    }
  }

  /** Insert a row after every row that does not sort after it. */
  function InsertRow(x: Row, xs: seq<Row>): (r: seq<Row>)
    requires RowsSorted(xs)
    ensures RowsSorted(r)
    ensures multiset(r) == multiset(xs) + multiset{x}
    decreases |xs|
  {
    if |xs| == 0 then [x]
    else if !RowLess(x, xs[0]) then
      var rest := InsertRow(x, xs[1..]);
      assert xs == [xs[0]] + xs[1..];
      HeadStillLeads(x, xs, rest);
      SortedCons(xs[0], rest);
      [xs[0]] + rest
    else
      SmallerLeads(x, xs);
      SortedCons(x, xs);
      [x] + xs
  }

  /** `sort.Slice` with the row comparator: a sorted rearrangement. */
  function SortRows(xs: seq<Row>): (r: seq<Row>)
    ensures RowsSorted(r)
    ensures multiset(r) == multiset(xs)
    decreases |xs|
  {
    if |xs| == 0 then []
    else
      assert xs == xs[..|xs| - 1] + [xs[|xs| - 1]];
      InsertRow(xs[|xs| - 1], SortRows(xs[..|xs| - 1]))
  }

  /** A sorted listing of the same rows is unique up to the order of rows
      that tie: within one path the methods appear in rank order. */
  lemma SortedByPathThenRank(xs: seq<Row>, i: int, j: int)
    requires RowsSorted(xs) && 0 <= i < j < |xs|
    ensures xs[i].path == xs[j].path ==> Rank(xs[i].verb) <= Rank(xs[j].verb)
    ensures xs[i].path != xs[j].path ==> StrLess(xs[i].path, xs[j].path)
  {
    if xs[i].path != xs[j].path {
      StrLessTotal(xs[i].path, xs[j].path);
    }
  }

  /** Within one path, a sorted listing puts the methods in the order of
      `RankedMethods`: a row whose method comes earlier there is listed
      first. */
  lemma SamePathListedByRank(xs: seq<Row>, i: int, j: int, a: int, b: int)
    requires RowsSorted(xs) && 0 <= i < |xs| && 0 <= j < |xs|
    requires 0 <= a < b < |RankedMethods|
    requires xs[i].path == xs[j].path && xs[i].verb == RankedMethods[a] && xs[j].verb == RankedMethods[b]
    ensures i < j
  {
    assert Rank(xs[i].verb) == a + 1 && Rank(xs[j].verb) == b + 1;
    if j < i {
      assert RowLess(xs[i], xs[j]);
    }
  }

  // ---------------------------------------------------------------------
  // Groups

  /** Strictly ascending, hence without repeats. */
  predicate KeysSorted(ks: seq<string>) {
    forall i, j :: 0 <= i < j < |ks| ==> StrLess(ks[i], ks[j])
  }

  /** Add a key to an ascending key list unless it is already there. */
  function InsertKey(k: string, ks: seq<string>): (r: seq<string>)
    requires KeysSorted(ks)
    ensures KeysSorted(r)
    ensures forall y :: y in r <==> y == k || y in ks
    decreases |ks|
  {
    if |ks| == 0 then [k]
    else if k == ks[0] then ks
    else if StrLess(k, ks[0]) then
      assert forall j :: 0 <= j < |ks| ==> StrLess(k, ks[j]) by {
        forall j | 0 < j < |ks| ensures StrLess(k, ks[j]) {
          StrLessTransitive(k, ks[0], ks[j]);
        }
      }
      [k] + ks
    else
      StrLessTotal(k, ks[0]);
      var rest := InsertKey(k, ks[1..]);
      assert forall y :: y in ks[1..] ==> y in ks;
      assert forall j :: 0 <= j < |rest| ==> StrLess(ks[0], rest[j]) by {
        forall j | 0 <= j < |rest| ensures StrLess(ks[0], rest[j]) {
          if rest[j] != k {
            assert rest[j] in ks[1..];
            var m :| 0 <= m < |ks[1..]| && ks[1..][m] == rest[j];
            assert ks[m + 1] == rest[j];
          }
        }
      }
      [ks[0]] + rest
  }

  /** The group names of the routes, ascending and without repeats
      (the map keys after `sort.Strings`). */
  function GroupKeys(routes: seq<Route>): (ks: seq<string>)
    ensures KeysSorted(ks)
    ensures forall k :: k in ks <==> exists i :: 0 <= i < |routes| && First(routes[i].path) == k
    decreases |routes|
  {
    if |routes| == 0 then []
    else
      var init := routes[..|routes| - 1];
      var ks := InsertKey(First(routes[|routes| - 1].path), GroupKeys(init));
      assert forall k :: k in ks <==> exists i :: 0 <= i < |routes| && First(routes[i].path) == k by {
        forall k ensures k in ks <==> exists i :: 0 <= i < |routes| && First(routes[i].path) == k {
          GroupOfSnoc(routes, init, k);
        }
      }
      ks
  }

  /** Some route is in group `k` exactly when the last one is, or one
      before it. */
  lemma GroupOfSnoc(routes: seq<Route>, init: seq<Route>, k: string)
    requires |routes| > 0 && init == routes[..|routes| - 1]
    ensures (exists i :: 0 <= i < |routes| && First(routes[i].path) == k) <==>
      (First(routes[|routes| - 1].path) == k || exists i :: 0 <= i < |init| && First(init[i].path) == k)
  {
    assert forall i :: 0 <= i < |init| ==> init[i] == routes[i];
  }

  /** The rows of one group in registration order. */
  function RowsOf(routes: seq<Route>, key: string): (rows: seq<Row>)
    ensures |rows| <= |routes|
    ensures forall k :: 0 <= k < |rows| ==> First(rows[k].path) == key
    decreases |routes|
  {
    if |routes| == 0 then []
    else
      var last := routes[|routes| - 1];
      RowsOf(routes[..|routes| - 1], key) + (if First(last.path) == key then [RowOf(last)] else [])
  }

  /** A group holds a row exactly when some route of that group gives it. */
  lemma {:induction false} RowsOfMembers(routes: seq<Route>, key: string, x: Row)
    ensures x in RowsOf(routes, key) <==>
      exists i :: 0 <= i < |routes| && First(routes[i].path) == key && RowOf(routes[i]) == x
    decreases |routes|
  {
    if |routes| > 0 {
      var init := routes[..|routes| - 1];
      var last := routes[|routes| - 1];
      RowsOfMembers(init, key, x);
      assert forall i :: 0 <= i < |init| ==> init[i] == routes[i];
      var tail := if First(last.path) == key then [RowOf(last)] else [];
      assert RowsOf(routes, key) == RowsOf(init, key) + tail;
      if x in RowsOf(routes, key) && x !in RowsOf(init, key) {
        assert x in tail;
        assert First(routes[|routes| - 1].path) == key && RowOf(routes[|routes| - 1]) == x;
      }
      if exists i :: 0 <= i < |routes| && First(routes[i].path) == key && RowOf(routes[i]) == x {
        var i :| 0 <= i < |routes| && First(routes[i].path) == key && RowOf(routes[i]) == x;
        if i == |routes| - 1 {
          assert x in tail;
        } else {
          assert init[i] == routes[i];
        }
      }
    }
  }

  /** One printed group. */
  datatype Group = Group(key: string, rows: seq<Row>)

  /** The group names in the order the groups are printed. */
  function KeysOf(gs: seq<Group>): (ks: seq<string>)
    ensures |ks| == |gs| && forall i :: 0 <= i < |gs| ==> ks[i] == gs[i].key
  {
    seq(|gs|, i requires 0 <= i < |gs| => gs[i].key)
  }

  /** The body of the table `LogRoutes` prints: one group per group name,
      in ascending order, each holding exactly the rows of its routes,
      sorted. */
  function LogRoutes(routes: seq<Route>): (gs: seq<Group>)
    ensures KeysSorted(KeysOf(gs))
    ensures forall k :: k in KeysOf(gs) <==> exists j :: 0 <= j < |routes| && First(routes[j].path) == k
    ensures forall i :: 0 <= i < |gs| ==>
      RowsSorted(gs[i].rows) && multiset(gs[i].rows) == multiset(RowsOf(routes, gs[i].key))
  {
    var ks := GroupKeys(routes);
    var gs := seq(|ks|, i requires 0 <= i < |ks| => Group(ks[i], SortRows(RowsOf(routes, ks[i]))));
    assert KeysOf(gs) == ks;
    gs
  }

  /** Where a group name stands in a listing. */
  lemma KeyPosition(gs: seq<Group>, k: string) returns (i: int)
    requires k in KeysOf(gs)
    ensures 0 <= i < |gs| && gs[i].key == k
  {
    i :| 0 <= i < |KeysOf(gs)| && KeysOf(gs)[i] == k;
  }

  /** A group whose rows rearrange `rows` holds every one of them. */
  lemma HeldByGroup(g: Group, rows: seq<Row>, x: Row)
    requires multiset(g.rows) == multiset(rows) && x in rows
    ensures x in g.rows
  {
    assert x in multiset(rows);
  }

  /** Every registered route is listed, in the group named after its path,
      and no group is empty. */
  lemma EveryRouteListed(routes: seq<Route>, j: int)
    requires 0 <= j < |routes|
    ensures exists i :: (0 <= i < |LogRoutes(routes)| && LogRoutes(routes)[i].key == First(routes[j].path)
      && RowOf(routes[j]) in LogRoutes(routes)[i].rows)
  {
    var gs := LogRoutes(routes);
    var k := First(routes[j].path);
    var x := RowOf(routes[j]);
    assert 0 <= j < |routes| && First(routes[j].path) == k;
    var i := KeyPosition(gs, k);
    RowsOfMembers(routes, k, x);
    HeldByGroup(gs[i], RowsOf(routes, k), x);
  }

  /** Every printed group has at least one row. */
  lemma GroupsNonEmpty(routes: seq<Route>, i: int)
    requires 0 <= i < |LogRoutes(routes)|
    ensures LogRoutes(routes)[i].rows != []
  {
    var gs := LogRoutes(routes);
    var k := gs[i].key;
    assert k in KeysOf(gs);
    var j :| 0 <= j < |routes| && First(routes[j].path) == k;
    RowsOfMembers(routes, k, RowOf(routes[j]));
    assert RowOf(routes[j]) in multiset(gs[i].rows);
  }
}
