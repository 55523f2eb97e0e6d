/** Intrusive circular lists: every node carries its own links, a list is a ring through its head, and a node in
    no list is a ring by itself. */
module Rings {
  import opened Sequences

  class Node {
    var next: Node?
    var prev: Node?

    /** INIT_LIST_HEAD. */
    constructor ()
      ensures next == this && prev == this
    {
      next, prev := this, this;
    }
  }

  // ---- the abstract view ----

  /** Which entries hang, in which order, behind which head. An initialised node in no list is a head of nothing. */
  type Lists = map<Node, seq<Node>>

  function Cycle(st: Lists, h: Node): (r: seq<Node>)
    requires h in st
    ensures |r| == 1 + |st[h]| && r[0] == h
  {
    [h] + st[h]
  }

  ghost function Members(st: Lists): set<Node> {
    set h, n | h in st && n in Cycle(st, h) :: n
  }

  lemma DistinctConcat(a: seq<Node>, b: seq<Node>)
    ensures Distinct(a + b) <==> Distinct(a) && Distinct(b) && forall n :: n in a ==> n !in b
  {
    if Distinct(a + b) {
      DistinctParts(a, b);
    } else if Distinct(a) && Distinct(b) && forall n :: n in a ==> n !in b {
      DistinctJoin(a, b);
    }
  }

  lemma DistinctParts(a: seq<Node>, b: seq<Node>)
    requires Distinct(a + b)
    ensures Distinct(a) && Distinct(b) && forall n :: n in a ==> n !in b
  {
    var c := a + b;
    forall i, j | 0 <= i < j < |a|
      ensures a[i] != a[j]
    {
      assert c[i] != c[j];
    }
    forall i, j | 0 <= i < j < |b|
      ensures b[i] != b[j]
    {
      assert c[|a| + i] != c[|a| + j];
    }
    forall i, j | 0 <= i < |a| && 0 <= j < |b|
      ensures a[i] != b[j]
    {
      assert c[i] != c[|a| + j];
    }
  }

  lemma DistinctJoin(a: seq<Node>, b: seq<Node>)
    requires Distinct(a) && Distinct(b) && forall n :: n in a ==> n !in b
    ensures Distinct(a + b)
  {
    var c := a + b;
    forall i, j | 0 <= i < j < |c|
      ensures c[i] != c[j]
    {
      if i < |a| <= j {
        assert c[i] in a && c[j] in b;
      }
    }
  }

  /** The links of a set of nodes, one direction at a time. */
  type Links = map<Node, Node?>

  ghost function Nexts(s: set<Node>): Links
    reads s
  {
    map n | n in s :: n.next
  }

  ghost function Prevs(s: set<Node>): Links
    reads s
  {
    map n | n in s :: n.prev
  }

  /** `x` points forward to `y`, and `y` back to `x`. */
  predicate Link(x: Node, y: Node, nx: Links, pv: Links) {
    x in nx && nx[x] == y && y in pv && pv[y] == x
  }

  predicate Path(s: seq<Node>, nx: Links, pv: Links) {
    |s| < 2 || (Link(s[0], s[1], nx, pv) && Path(s[1..], nx, pv))
  }

  /** Following the links from the first node of `r` visits `r` in order and comes back. */
  predicate Ring(r: seq<Node>, nx: Links, pv: Links) {
    r != [] && Distinct(r) && Path(r + [r[0]], nx, pv)
  }

  lemma {:induction false} PathConcat(a: seq<Node>, b: seq<Node>, nx: Links, pv: Links)
    requires a != [] && b != []
    ensures Path(a + b, nx, pv) <==> Path(a, nx, pv) && Path(b, nx, pv) && Link(a[|a| - 1], b[0], nx, pv)
  {
    assert (a + b)[1..] == a[1..] + b;
    if |a| > 1 {
      PathConcat(a[1..], b, nx, pv);
    } else {
      assert a[1..] + b == b;
    }
  }

  lemma {:induction false} PathFrame(s: seq<Node>, nx: Links, pv: Links, nx': Links, pv': Links)
    requires Path(s, nx, pv)
    requires forall i :: 0 <= i < |s| - 1 ==> s[i] in nx && s[i] in nx' && nx[s[i]] == nx'[s[i]]
    requires forall i :: 1 <= i < |s| ==> s[i] in pv && s[i] in pv' && pv[s[i]] == pv'[s[i]]
    ensures Path(s, nx', pv')
  {
    if |s| >= 2 {
      PathFrame(s[1..], nx, pv, nx', pv');
    }
  }

  lemma {:induction false} PathAt(s: seq<Node>, i: nat, nx: Links, pv: Links)
    requires Path(s, nx, pv) && i + 1 < |s|
    ensures Link(s[i], s[i + 1], nx, pv)
  {
    if i > 0 {
      PathAt(s[1..], i - 1, nx, pv);
    }
  }

  /** Two different heads have no node in common. */
  ghost predicate Apart(st: Lists, h: Node, k: Node)
    requires h in st && k in st
  {
    h != k ==> forall n :: n in Cycle(st, h) ==> n !in Cycle(st, k)
  }

  /** No node is in two rings. */
  ghost predicate Separate(st: Lists) {
    forall h, k {:trigger Apart(st, h, k)} :: h in st && k in st ==> Apart(st, h, k)
  }

  ghost predicate RingAt(st: Lists, h: Node, nx: Links, pv: Links)
    requires h in st
  {
    Ring(Cycle(st, h), nx, pv)
  }

  ghost predicate Linked(st: Lists, nx: Links, pv: Links) {
    && Separate(st)
    && (forall h {:trigger RingAt(st, h, nx, pv)} :: h in st ==> RingAt(st, h, nx, pv))
  }

  /** The heap holds exactly the lists of `st`. */
  ghost predicate Live(st: Lists)
    reads Members(st)
  {
    Linked(st, Nexts(Members(st)), Prevs(Members(st)))
  }

  /** Every linked node is its neighbours' neighbour. */
  lemma NeighboursAgree(st: Lists, nx: Links, pv: Links, n: Node)
    requires Linked(st, nx, pv) && n in Members(st)
    ensures n in nx && n in pv && nx[n] in Members(st) && pv[n] in Members(st)
    ensures nx[n] in pv && pv[nx[n]] == n && pv[n] in nx && nx[pv[n]] == n
  {
    var h :| h in st && n in Cycle(st, h);
    var r := Cycle(st, h);
    assert RingAt(st, h, nx, pv);
    var i :| 0 <= i < |r| && r[i] == n;
    var c := r + [h];
    PathAt(c, i, nx, pv);
    PathAt(c, if i == 0 then |r| - 1 else i - 1, nx, pv);
    assert c[i + 1] in r && c[if i == 0 then |r| - 1 else i - 1] in r;
  }

  function Without(s: seq<Node>, e: Node): (r: seq<Node>) {
    if s == [] then [] else (if s[0] == e then [] else [s[0]]) + Without(s[1..], e)
  }

  lemma {:induction false} WithoutAbsent(s: seq<Node>, e: Node)
    requires e !in s
    ensures Without(s, e) == s
  {
    if s != [] {
      WithoutAbsent(s[1..], e);
    }
  }

  lemma {:induction false} WithoutAt(a: seq<Node>, e: Node, b: seq<Node>)
    requires Distinct(a + [e] + b)
    ensures Without(a + [e] + b, e) == a + b
  {
    if a == [] {
      assert a + [e] + b == [e] + b && a + b == b;
      HeadApart(e, b);
      WithoutAbsent(b, e);
    } else {
      var s := a + [e] + b;
      DistinctConcat([s[0]], s[1..]);
      assert s == [s[0]] + s[1..];
      assert s[1..] == a[1..] + [e] + b;
      assert s[1..][|a| - 1] == e;
      WithoutAt(a[1..], e, b);
      assert [a[0]] + (a[1..] + b) == a + b;
    }
  }

  lemma {:induction false} WithoutMember(s: seq<Node>, e: Node, n: Node)
    ensures n in Without(s, e) <==> n in s && n != e
  {
    if s != [] {
      WithoutMember(s[1..], e, n);
      assert n in s <==> n == s[0] || n in s[1..];
    }
  }

  lemma WithoutMembers(s: seq<Node>, e: Node)
    ensures forall n: Node :: n in Without(s, e) <==> n in s && n != e
  {
    forall n: Node
      ensures n in Without(s, e) <==> n in s && n != e
    {
      WithoutMember(s, e, n);
    }
  }

  // ---- what the operations mean ----

  /** `e` may be taken out: it is an entry of some list, or a node in no list. */
  ghost predicate Removable(st: Lists, e: Node) {
    e in Members(st) && (e in st ==> st[e] == [])
  }

  function Drop(st: Lists, e: Node): Lists {
    map h | h in st && h != e :: Without(st[h], e)
  }

  function Prepend(st: Lists, p: Node, head: Node): Lists
    requires head in st
  {
    st[head := [p] + st[head]]
  }

  function Append(st: Lists, p: Node, head: Node): Lists
    requires head in st
  {
    st[head := st[head] + [p]]
  }

  function Isolate(st: Lists, e: Node): Lists {
    Drop(st, e)[e := []]
  }

  function SpliceInit(st: Lists, list: Node, head: Node): Lists
    requires list in st && head in st
  {
    st[head := st[list] + st[head]][list := []]
  }

  /** Without the reinitialisation the emptied head keeps stale links and is no longer a list. */
  function Splice(st: Lists, list: Node, head: Node): Lists
    requires list in st && head in st
  {
    if st[list] == [] then st else st[head := st[list] + st[head]] - {list}
  }

  lemma CycleOfDrop(st: Lists, e: Node, h: Node)
    requires h in st && h != e
    ensures h in Drop(st, e)
    ensures forall n :: n in Cycle(Drop(st, e), h) <==> n in Cycle(st, h) && n != e
  {
    WithoutMembers(st[h], e);
  }

  lemma DropSeparate(st: Lists, e: Node)
    requires Separate(st)
    ensures Separate(Drop(st, e)) && Members(Drop(st, e)) <= Members(st) && e !in Members(Drop(st, e))
    ensures Removable(st, e) ==> Members(Drop(st, e)) == Members(st) - {e}
  {
    var st' := Drop(st, e);
    forall h, k | h in st' && k in st'
      ensures Apart(st', h, k)
    {
      forall n | n in Cycle(st', h) && n in Cycle(st', k)
        ensures h == k
      {
        CycleOfDrop(st, e, h);
        CycleOfDrop(st, e, k);
        assert Apart(st, h, k);
      }
    }
    forall n | n in Members(st')
      ensures n in Members(st) && n != e
    {
      var h :| h in st' && n in Cycle(st', h);
      CycleOfDrop(st, e, h);
    }
    if Removable(st, e) {
      forall n | n in Members(st) && n != e
        ensures n in Members(st')
      {
        var h :| h in st && n in Cycle(st, h);
        CycleOfDrop(st, e, h);
        assert n in Cycle(st', h);
      }
    }
  }

  // ---- pointer writes on one ring ----

  /** A ring closes over `e` once its neighbours point at each other. */
  lemma RingCut(a: seq<Node>, e: Node, b: seq<Node>, nx: Links, pv: Links)
    requires a != [] && Ring(a + [e] + b, nx, pv)
    ensures var p, n := a[|a| - 1], (b + [a[0]])[0];
            Ring(a + b, nx[p := n], pv[n := p])
  {
    var z := b + [a[0]];
    var p, n := a[|a| - 1], z[0];
    var nx', pv' := nx[p := n], pv[n := p];
    Around(a, e, b);
    RingOpenedAt(a, e, b, nx, pv);
    assert Path(a, nx', pv') by {
      PathParts(a, nx, pv);
      PathFrame(a, nx, pv, nx', pv');
    }
    assert Path(z, nx', pv') by {
      PathParts(z, nx, pv);
      PathFrame(z, nx, pv, nx', pv');
    }
    assert a + b + [a[0]] == a + z;
    PathConcat(a, z, nx', pv');
  }

  lemma RingOpenedAt(a: seq<Node>, e: Node, b: seq<Node>, nx: Links, pv: Links)
    requires a != [] && Ring(a + [e] + b, nx, pv)
    ensures Path(a, nx, pv) && Path(b + [a[0]], nx, pv)
    ensures Link(a[|a| - 1], e, nx, pv) && Link(e, (b + [a[0]])[0], nx, pv)
  {
    var z := b + [a[0]];
    Unroll(a, e, b, nx, pv);
    PathConcat(a, [e] + z, nx, pv);
    PathConcat([e], z, nx, pv);
  }

  lemma Unroll(a: seq<Node>, e: Node, b: seq<Node>, nx: Links, pv: Links)
    requires a != [] && Ring(a + [e] + b, nx, pv)
    ensures Path(a + ([e] + (b + [a[0]])), nx, pv)
  {
    assert a + [e] + b + [a[0]] == a + ([e] + (b + [a[0]]));
  }

  /** Where the nodes next to the gap can and cannot occur. */
  lemma Around(a: seq<Node>, e: Node, b: seq<Node>)
    requires a != [] && Distinct(a + [e] + b)
    ensures Distinct(a + b)
    ensures var z := b + [a[0]]; var p, n := a[|a| - 1], z[0];
            && (forall i :: 0 <= i < |a| - 1 ==> a[i] != p) && (forall i :: 1 <= i < |a| ==> a[i] != n)
            && (forall i :: 0 <= i < |z| - 1 ==> z[i] != p) && (forall i :: 1 <= i < |z| ==> z[i] != n)
  {
    DistinctConcat(a + [e], b);
    DistinctConcat(a, [e]);
    DistinctConcat(a, b);
    DistinctConcat(b, [a[0]]);
    var z := b + [a[0]];
    assert forall i :: 0 <= i < |z| - 1 ==> z[i] in b;
    assert forall i :: 0 <= i < |a| ==> a[i] in a;
    assert b != [] ==> z[0] in b;
  }

  lemma {:induction false} PathParts(s: seq<Node>, nx: Links, pv: Links)
    requires Path(s, nx, pv)
    ensures forall i :: 0 <= i < |s| - 1 ==> s[i] in nx
    ensures forall i :: 1 <= i < |s| ==> s[i] in pv
  {
    if |s| >= 2 {
      PathParts(s[1..], nx, pv);
    }
  }

  lemma DistinctInsert(a: seq<Node>, p: Node, b: seq<Node>)
    requires Distinct(a + b) && p !in a + b
    ensures Distinct(a + [p] + b)
  {
    DistinctConcat(a, b);
    DistinctConcat(a, [p]);
    DistinctConcat(a + [p], b);
  }

  /** ... and opens for a node from outside. */
  lemma RingInsert(a: seq<Node>, p: Node, b: seq<Node>, nx: Links, pv: Links)
    requires a != [] && Ring(a + b, nx, pv) && p !in a + b
    ensures var x, y := a[|a| - 1], (b + [a[0]])[0];
            Ring(a + [p] + b, nx[p := y][x := p], pv[y := p][p := x])
  {
    var z := b + [a[0]];
    DistinctInsert(a, p, b);
    Around(a, p, b);
    assert a + b + [a[0]] == a + z;
    assert a + [p] + b + [a[0]] == a + ([p] + z);
    assert forall i :: 0 <= i < |a| ==> a[i] in a + b;
    assert forall i :: 0 <= i < |z| ==> z[i] in a + b;
    PathInsert(a, p, z, nx, pv);
  }

  lemma PathInsert(a: seq<Node>, p: Node, z: seq<Node>, nx: Links, pv: Links)
    requires a != [] && z != [] && Path(a + z, nx, pv)
    requires var x, y := a[|a| - 1], z[0];
             && (forall i :: 0 <= i < |a| - 1 ==> a[i] != p && a[i] != x)
             && (forall i :: 1 <= i < |a| ==> a[i] != p && a[i] != y)
             && (forall i :: 0 <= i < |z| - 1 ==> z[i] != p && z[i] != x)
             && (forall i :: 1 <= i < |z| ==> z[i] != p && z[i] != y)
             && p != x && p != y
    ensures var x, y := a[|a| - 1], z[0];
            Path(a + ([p] + z), nx[p := y][x := p], pv[y := p][p := x])
  {
    var x, y := a[|a| - 1], z[0];
    var nx', pv' := nx[p := y][x := p], pv[y := p][p := x];
    PathConcat(a, z, nx, pv);
    PathParts(a, nx, pv);
    PathParts(z, nx, pv);
    PathFrame(a, nx, pv, nx', pv');
    PathFrame(z, nx, pv, nx', pv');
    PathConcat([p], z, nx', pv');
    PathConcat(a, [p] + z, nx', pv');
  }

  /** The entries `a` of the ring behind `l`, taken over to the front of the ring behind `h`. */
  lemma RingSplice(l: Node, a: seq<Node>, h: Node, b: seq<Node>, nx: Links, pv: Links)
    requires a != [] && Ring([l] + a, nx, pv) && Ring([h] + b, nx, pv)
    requires forall n :: n in [l] + a ==> n !in [h] + b
    ensures var first, last, at := a[0], a[|a| - 1], (b + [h])[0];
            Ring([h] + a + b, nx[h := first][last := at], pv[first := h][at := last])
  {
    var z := b + [h];
    var first, last, at := a[0], a[|a| - 1], z[0];
    var nx', pv' := nx[h := first][last := at], pv[first := h][at := last];
    RingOpened(l, a, nx, pv);
    RingOpened(h, b, nx, pv);
    PathConcat(a, [l], nx, pv);
    SpliceDistinct(l, a, h, b);
    PathParts(a, nx, pv);
    PathParts(z, nx, pv);
    assert Path(a, nx', pv') by {
      PathFrame(a, nx, pv, nx', pv');
    }
    assert Path(z, nx', pv') by {
      PathFrame(z, nx, pv, nx', pv');
    }
    SpliceKeys(l, a, h, b);
    assert [h] + a + b + [h] == [h] + (a + z);
    PathConcat(a, z, nx', pv');
    PathConcat([h], a + z, nx', pv');
  }

  lemma HeadApart(h: Node, b: seq<Node>)
    requires Distinct([h] + b)
    ensures h !in b
  {
    DistinctConcat([h], b);
    assert h in [h];
  }

  lemma RingOpened(h: Node, b: seq<Node>, nx: Links, pv: Links)
    requires Ring([h] + b, nx, pv)
    ensures Distinct([h] + b) && h !in b && Path(b + [h], nx, pv)
  {
    HeadApart(h, b);
    assert [h] + b + [h] == [h] + (b + [h]);
    PathConcat([h], b + [h], nx, pv);
  }

  lemma SpliceKeys(l: Node, a: seq<Node>, h: Node, b: seq<Node>)
    requires a != [] && forall n :: n in [l] + a ==> n !in [h] + b
    ensures a[0] != (b + [h])[0] && a[|a| - 1] != h
  {
    assert a[0] in [l] + a && a[|a| - 1] in [l] + a && (b + [h])[0] in [h] + b;
  }

  lemma SpliceDistinct(l: Node, a: seq<Node>, h: Node, b: seq<Node>)
    requires a != [] && Distinct([l] + a) && Distinct([h] + b)
    requires forall n :: n in [l] + a ==> n !in [h] + b
    ensures Distinct([h] + a + b) && Distinct(a) && Distinct(b + [h])
    ensures var z := b + [h];
            && (forall i :: 0 <= i < |a| - 1 ==> a[i] != a[|a| - 1] && a[i] != h)
            && (forall i :: 1 <= i < |a| ==> a[i] != a[0] && a[i] != z[0])
            && (forall i :: 0 <= i < |z| - 1 ==> z[i] != h && z[i] != a[|a| - 1])
            && (forall i :: 1 <= i < |z| ==> z[i] != z[0] && z[i] != a[0])
  {
    DistinctConcat([l], a);
    DistinctConcat([h], b);
    DistinctConcat(b, [h]);
    assert forall n :: n in a ==> n in [l] + a;
    assert forall n :: n in b + [h] ==> n in [h] + b;
    SpliceJoined(a, h, b);
    var z := b + [h];
    assert forall i :: 0 <= i < |a| ==> a[i] in a;
    assert forall i :: 0 <= i < |z| ==> z[i] in z;
  }

  lemma SpliceJoined(a: seq<Node>, h: Node, b: seq<Node>)
    requires Distinct(a) && Distinct([h] + b) && forall n :: n in a ==> n !in b + [h]
    ensures Distinct([h] + a + b)
  {
    DistinctConcat([h], b);
    DistinctConcat(a, b);
    DistinctConcat([h], a + b);
    assert [h] + a + b == [h] + (a + b);
  }

  lemma RingFrame(r: seq<Node>, nx: Links, pv: Links, nx': Links, pv': Links)
    requires Ring(r, nx, pv)
    requires forall n :: n in r ==>
               n in nx' && n in pv' && (n in nx ==> nx'[n] == nx[n]) && (n in pv ==> pv'[n] == pv[n])
    ensures Ring(r, nx', pv')
  {
    PathParts(r + [r[0]], nx, pv);
    PathFrame(r + [r[0]], nx, pv, nx', pv');
  }

  // ---- pointer writes on the whole heap ----

  predicate Same(s: set<Node>, nx: Links, nx': Links) {
    forall n :: n in s ==> n in nx && n in nx' && nx'[n] == nx[n]
  }

  lemma LinkedFrame(st: Lists, nx: Links, pv: Links, nx': Links, pv': Links)
    requires Linked(st, nx, pv) && Same(Members(st), nx, nx') && Same(Members(st), pv, pv')
    ensures Linked(st, nx', pv')
  {
    forall h | h in st
      ensures RingAt(st, h, nx', pv')
    {
      assert RingAt(st, h, nx, pv);
      RingFrame(Cycle(st, h), nx, pv, nx', pv');
    }
  }

  lemma NeighboursInCycle(r: seq<Node>, e: Node, nx: Links, pv: Links)
    requires Ring(r, nx, pv) && e in r
    ensures e in nx && e in pv && nx[e] in r && pv[e] in r
    ensures nx[e] in pv && pv[nx[e]] == e && pv[e] in nx && nx[pv[e]] == e
  {
    var i :| 0 <= i < |r| && r[i] == e;
    var c, j := r + [r[0]], if i == 0 then |r| - 1 else i - 1;
    PathAt(c, i, nx, pv);
    PathAt(c, j, nx, pv);
    assert c[i + 1] in r && c[j] in r;
  }

  lemma RingKeys(r: seq<Node>, nx: Links, pv: Links)
    requires Ring(r, nx, pv)
    ensures forall n :: n in r ==> n in nx && n in pv
  {
    forall n | n in r
      ensures n in nx && n in pv
    {
      NeighboursInCycle(r, n, nx, pv);
    }
  }

  /** An entry somewhere behind `h`, with the nodes before and after it. */
  lemma Split(r: seq<Node>, e: Node) returns (a: seq<Node>, b: seq<Node>)
    requires e in r && e != r[0]
    ensures a != [] && a[0] == r[0] && r == a + [e] + b
  {
    var k :| 0 <= k < |r| && r[k] == e;
    a, b := r[..k], r[k + 1..];
  }

  lemma CutOut(st: Lists, h: Node, e: Node, nx: Links, pv: Links)
    requires h in st && Ring(Cycle(st, h), nx, pv) && e in st[h] && e != h
    ensures e in nx && e in pv && nx[e] != null && pv[e] != null
    ensures Ring(Cycle(Drop(st, e), h), nx[pv[e] := nx[e]], pv[nx[e] := pv[e]])
  {
    var a, b := Split(Cycle(st, h), e);
    RingCut(a, e, b, nx, pv);
    RingOpenedAt(a, e, b, nx, pv);
    DropCycle(st, h, a, e, b);
  }

  lemma DropCycle(st: Lists, h: Node, a: seq<Node>, e: Node, b: seq<Node>)
    requires h in st && a != [] && Cycle(st, h) == a + [e] + b && Distinct(Cycle(st, h)) && e != h
    ensures Cycle(Drop(st, e), h) == a + b
  {
    assert (a + [e] + b)[1..] == a[1..] + [e] + b;
    assert Cycle(st, h)[1..] == st[h];
    WithoutAt(a[1..], e, b);
    assert [h] + (a[1..] + b) == a + b;
  }

  lemma LinkedDrop(st: Lists, e: Node, nx: Links, pv: Links)
    requires Linked(st, nx, pv) && Removable(st, e)
    ensures e in nx && e in pv && nx[e] in Members(st) && pv[e] in Members(st)
    ensures Linked(Drop(st, e), nx[pv[e] := nx[e]], pv[nx[e] := pv[e]])
  {
    NeighboursAgree(st, nx, pv, e);
    DropSeparate(st, e);
    var h :| h in st && e in Cycle(st, h);
    assert RingAt(st, h, nx, pv);
    NeighboursInCycle(Cycle(st, h), e, nx, pv);
    var nx', pv', st' := nx[pv[e] := nx[e]], pv[nx[e] := pv[e]], Drop(st, e);
    forall x | x in st'
      ensures RingAt(st', x, nx', pv')
    {
      if x == h {
        CutOut(st, h, e, nx, pv);
      } else {
        assert Apart(st, h, x) && RingAt(st, x, nx, pv);
        WithoutAbsent(st[x], e);
        RingKeys(Cycle(st, x), nx, pv);
        RingFrame(Cycle(st, x), nx, pv, nx', pv');
      }
    }
  }

  lemma LinkedPrepend(st: Lists, p: Node, head: Node, nx: Links, pv: Links)
    requires Linked(st, nx, pv) && head in st && p !in Members(st)
    ensures head in nx && nx[head] in Members(st)
    ensures Linked(Prepend(st, p, head), nx[p := nx[head]][head := p], pv[nx[head] := p][p := head])
  {
    assert RingAt(st, head, nx, pv);
    NeighboursInCycle(Cycle(st, head), head, nx, pv);
    RingInsert([head], p, st[head], nx, pv);
    RingOpened(head, st[head], nx, pv);
    PathAt(Cycle(st, head) + [head], 0, nx, pv);
    assert Cycle(Prepend(st, p, head), head) == [head] + [p] + st[head];
    assert (Cycle(st, head) + [head])[1] == (st[head] + [head])[0];
    LinkedInserted(st, p, head, [p] + st[head], nx, pv,
                   nx[p := nx[head]][head := p], pv[nx[head] := p][p := head]);
  }

  lemma LinkedAppend(st: Lists, p: Node, head: Node, nx: Links, pv: Links)
    requires Linked(st, nx, pv) && head in st && p !in Members(st)
    ensures head in pv && pv[head] in Members(st)
    ensures Linked(Append(st, p, head), nx[p := head][pv[head] := p], pv[head := p][p := pv[head]])
  {
    var r := Cycle(st, head);
    assert RingAt(st, head, nx, pv);
    NeighboursInCycle(r, head, nx, pv);
    assert r + [] == r;
    RingInsert(r, p, [], nx, pv);
    PathAt(r + [head], |r| - 1, nx, pv);
    assert Cycle(Append(st, p, head), head) == r + [p] + [];
    LinkedInserted(st, p, head, st[head] + [p], nx, pv,
                   nx[p := head][pv[head] := p], pv[head := p][p := pv[head]]);
  }

  /** Only the ring behind `head` has changed, and only by the outside node `p`. */
  lemma LinkedInserted(st: Lists, p: Node, head: Node, s: seq<Node>, nx: Links, pv: Links, nx': Links, pv': Links)
    requires Linked(st, nx, pv) && head in st && p !in Members(st)
    requires forall n :: n in s <==> n == p || n in st[head]
    requires Ring([head] + s, nx', pv')
    requires forall n :: n in nx && n !in Cycle(st, head) && n != p ==> n in nx' && nx'[n] == nx[n]
    requires forall n :: n in pv && n !in Cycle(st, head) && n != p ==> n in pv' && pv'[n] == pv[n]
    ensures Linked(st[head := s], nx', pv')
  {
    var st' := st[head := s];
    forall h | h in st'
      ensures RingAt(st', h, nx', pv')
    {
      if h != head {
        assert Apart(st, h, head) && RingAt(st, h, nx, pv);
        RingKeys(Cycle(st, h), nx, pv);
        RingFrame(Cycle(st, h), nx, pv, nx', pv');
      }
    }
    forall h, k | h in st' && k in st'
      ensures Apart(st', h, k)
    {
      forall n | n in Cycle(st', h) && n in Cycle(st', k)
        ensures h == k
      {
        assert Apart(st, h, k);
        assert n == p || (n in Cycle(st, h) && n in Cycle(st, k));
        assert n == p ==> n !in Cycle(st, h) && n !in Cycle(st, k);
      }
    }
  }

  lemma LinkedIsolate(st: Lists, p: Node, nx: Links, pv: Links)
    requires Linked(st, nx, pv) && p !in Members(st)
    ensures Linked(st[p := []], nx[p := p], pv[p := p])
  {
    var st' := st[p := []];
    assert p in st ==> p in Cycle(st, p);
    forall h | h in st'
      ensures RingAt(st', h, nx[p := p], pv[p := p])
    {
      if h == p {
        assert Cycle(st', h) == [p];
        assert [p] + [p] == [p, p];
      } else {
        assert RingAt(st, h, nx, pv);
        RingKeys(Cycle(st, h), nx, pv);
        RingFrame(Cycle(st, h), nx, pv, nx[p := p], pv[p := p]);
      }
    }
    forall h, k | h in st' && k in st'
      ensures Apart(st', h, k)
    {
      forall n | n in Cycle(st', h) && n in Cycle(st', k)
        ensures h == k
      {
        assert Cycle(st', p) == [p];
        assert h != p ==> n in Cycle(st, h) && n in Members(st);
        assert k != p ==> n in Cycle(st, k) && n in Members(st);
        if h != p && k != p {
          assert Apart(st, h, k);
        }
      }
    }
  }

  lemma LinkedSplice(st: Lists, list: Node, head: Node, nx: Links, pv: Links)
    requires Linked(st, nx, pv) && list in st && head in st && list != head && st[list] != []
    ensures list in nx && list in pv && head in nx
    ensures nx[list] in Members(st) && pv[list] in Members(st) && nx[head] in Members(st)
    ensures Linked(Splice(st, list, head),
                   nx[head := nx[list]][pv[list] := nx[head]], pv[nx[list] := head][nx[head] := pv[list]])
  {
    var a, b := st[list], st[head];
    var r, q := Cycle(st, list), Cycle(st, head);
    assert Apart(st, list, head) && RingAt(st, list, nx, pv) && RingAt(st, head, nx, pv);
    NeighboursInCycle(r, list, nx, pv);
    NeighboursInCycle(q, head, nx, pv);
    PathAt(r + [list], 0, nx, pv);
    PathAt(r + [list], |r| - 1, nx, pv);
    PathAt(q + [head], 0, nx, pv);
    assert (q + [head])[1] == (b + [head])[0] && (r + [list])[|r| - 1] == a[|a| - 1];
    RingSplice(list, a, head, b, nx, pv);
    var nx', pv' := nx[head := nx[list]][pv[list] := nx[head]], pv[nx[list] := head][nx[head] := pv[list]];
    var st' := Splice(st, list, head);
    assert Cycle(st', head) == [head] + a + b;
    forall h | h in st'
      ensures RingAt(st', h, nx', pv')
    {
      if h != head {
        assert Apart(st, h, head) && Apart(st, h, list) && RingAt(st, h, nx, pv);
        RingKeys(Cycle(st, h), nx, pv);
        RingFrame(Cycle(st, h), nx, pv, nx', pv');
      }
    }
    RingOpened(list, a, nx, pv);
    SpliceSeparate(st, list, head);
  }

  lemma SpliceSeparate(st: Lists, list: Node, head: Node)
    requires Separate(st) && list in st && head in st && list != head && st[list] != []
    requires list !in st[list]
    ensures Separate(Splice(st, list, head)) && Members(Splice(st, list, head)) == Members(st) - {list}
  {
    var st' := Splice(st, list, head);
    forall h, n | h in st' && n in Cycle(st', h)
      ensures n in Members(st) - {list}
    {
      assert n in Cycle(st, h) || (h == head && n in Cycle(st, list));
      assert Apart(st, list, h);
    }
    forall h, k | h in st' && k in st'
      ensures Apart(st', h, k)
    {
      forall n | n in Cycle(st', h) && n in Cycle(st', k)
        ensures h == k
      {
        assert n in Cycle(st, h) || (h == head && n in Cycle(st, list));
        assert n in Cycle(st, k) || (k == head && n in Cycle(st, list));
        assert Apart(st, h, k) && Apart(st, list, k) && Apart(st, h, list);
      }
    }
    forall n | n in Members(st) - {list}
      ensures n in Members(st')
    {
      var h :| h in st && n in Cycle(st, h);
      assert n in Cycle(st', if h == list then head else h);
    }
  }

  // ---- any node of a ring may be its head ----

  /** The same rings, with the i-th entry behind `h` taken for the head of its ring. */
  function Rekey(st: Lists, h: Node, i: nat): Lists
    requires h in st && i < |st[h]|
  {
    (st - {h})[st[h][i] := st[h][i + 1..] + [h] + st[h][..i]]
  }

  lemma RingRotate(x: seq<Node>, y: seq<Node>, nx: Links, pv: Links)
    requires x != [] && y != [] && Ring(x + y, nx, pv)
    ensures Ring(y + x, nx, pv)
  {
    assert x + y + [x[0]] == x + (y + [x[0]]) && y + x + [y[0]] == y + (x + [y[0]]);
    PathConcat(x, y + [x[0]], nx, pv);
    PathConcat(y, [x[0]], nx, pv);
    PathConcat(x, [y[0]], nx, pv);
    PathConcat(y, x + [y[0]], nx, pv);
    DistinctConcat(x, y);
    DistinctConcat(y, x);
  }

  lemma RekeyCycle(st: Lists, h: Node, i: nat)
    requires h in st && i < |st[h]|
    ensures var x, y := [h] + st[h][..i], st[h][i..]; Cycle(st, h) == x + y && Cycle(Rekey(st, h, i), st[h][i]) == y + x
    ensures forall n :: n in Cycle(Rekey(st, h, i), st[h][i]) <==> n in Cycle(st, h)
  {
    var x, y := [h] + st[h][..i], st[h][i..];
    assert Cycle(st, h) == x + y;
    assert Cycle(Rekey(st, h, i), st[h][i]) == y + x;
    assert forall n :: n in x + y <==> n in x || n in y;
  }

  lemma RekeySeparate(st: Lists, h: Node, i: nat)
    requires Separate(st) && h in st && i < |st[h]| && st[h][i] != h
    ensures st[h][i] !in st && Separate(Rekey(st, h, i)) && Members(Rekey(st, h, i)) == Members(st)
  {
    var e, st' := st[h][i], Rekey(st, h, i);
    RekeyCycle(st, h, i);
    assert e in Cycle(st, h) && (e in st ==> Apart(st, e, h));
    forall j, k | j in st' && k in st'
      ensures Apart(st', j, k)
    {
      var j0, k0 := if j == e then h else j, if k == e then h else k;
      assert Apart(st, j0, k0) && (j0 == k0 ==> j == k);
      assert j != e ==> Cycle(st', j) == Cycle(st, j);
      assert k != e ==> Cycle(st', k) == Cycle(st, k);
    }
    forall n | n in Members(st)
      ensures n in Members(st')
    {
      var k :| k in st && n in Cycle(st, k);
      assert n in Cycle(st', if k == h then e else k);
    }
    forall n | n in Members(st')
      ensures n in Members(st)
    {
      var k :| k in st' && n in Cycle(st', k);
      assert n in Cycle(st, if k == e then h else k);
    }
  }

  /** Which node is called the head is a matter of view: a heap that holds the lists of `st` also holds those lists
      with another node of one ring as its head. What is stated for heads and entries so holds for any two nodes. */
  lemma AnyNodeIsHead(st: Lists, h: Node, i: nat)
    requires Live(st) && h in st && i < |st[h]|
    ensures Live(Rekey(st, h, i)) && Members(Rekey(st, h, i)) == Members(st)
  {
    var e, st', s := st[h][i], Rekey(st, h, i), Members(st);
    var nx, pv := Nexts(s), Prevs(s);
    assert RingAt(st, h, nx, pv);
    RingOpened(h, st[h], nx, pv);
    DistinctConcat([h], st[h]);
    RekeySeparate(st, h, i);
    forall k | k in st'
      ensures RingAt(st', k, nx, pv)
    {
      if k == e {
        RekeyCycle(st, h, i);
        RingRotate([h] + st[h][..i], st[h][i..], nx, pv);
      } else {
        assert RingAt(st, k, nx, pv) && Cycle(st', k) == Cycle(st, k);
      }
    }
  }
}
