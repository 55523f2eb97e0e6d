/** The list operations on the heap. `st` says which lists the heap holds beforehand; every operation leaves the
    heap holding the lists its abstract counterpart gives. */
module ListOps {
  import opened Rings

  /** A pointer write, seen from the links of a set of nodes. */
  function Put(nx: Links, a: Node, x: Node?): Links {
    nx[a := x]
  }

  /** Makes `x` and `y` neighbours. The writes of every operation come in such pairs. */
  method Join(x: Node, y: Node, ghost s: set<Node>)
    requires x in s && y in s
    modifies x, y
    ensures Nexts(s) == Put(old(Nexts(s)), x, y) && Prevs(s) == Put(old(Prevs(s)), y, x)
  {
    y.prev := x;
    x.next := y;
  }

  /** __list_add */
  method LinkBetween(p: Node, prev: Node, next: Node, ghost s: set<Node>)
    requires p in s && prev in s && next in s
    modifies p, prev, next
    ensures Nexts(s) == Put(Put(old(Nexts(s)), p, next), prev, p)
    ensures Prevs(s) == Put(Put(old(Prevs(s)), next, p), p, prev)
  {
    Join(p, next, s);
    Join(prev, p, s);
  }

  /** __list_del */
  method UnlinkBetween(prev: Node?, next: Node?, ghost s: set<Node>)
    requires (prev != null ==> prev in s) && (next != null ==> next in s)
    modifies prev, next
    ensures Nexts(s) == if prev == null then old(Nexts(s)) else Put(old(Nexts(s)), prev, next)
    ensures Prevs(s) == if next == null then old(Prevs(s)) else Put(old(Prevs(s)), next, prev)
  {
    if next != null {
      next.prev := prev;
    }
    if prev != null {
      prev.next := next;
    }
  }

  /** INIT_LIST_HEAD */
  method SelfLink(e: Node, ghost s: set<Node>)
    requires e in s
    modifies e
    ensures Nexts(s) == Put(old(Nexts(s)), e, e) && Prevs(s) == Put(old(Prevs(s)), e, e)
  {
    e.next := e;
    e.prev := e;
  }

  /** The four writes of __list_splice. */
  method SpliceLinks(list: Node, head: Node, ghost s: set<Node>)
    requires list in s && head in s && list.next in s && list.prev in s && head.next in s
    modifies s
    ensures Nexts(s) == Put(Put(old(Nexts(s)), head, old(list.next)), old(list.prev), old(head.next))
    ensures Prevs(s) == Put(Put(old(Prevs(s)), old(list.next), head), old(head.next), old(list.prev))
  {
    var first, last, at := list.next, list.prev, head.next;
    Join(head, first, s);
    Join(last, at, s);
  }

  /** Widening and narrowing the set of nodes looked at. */
  lemma Widen(st: Lists, s: set<Node>)
    requires Live(st) && Members(st) <= s
    ensures Linked(st, Nexts(s), Prevs(s))
  {
    LinkedFrame(st, Nexts(Members(st)), Prevs(Members(st)), Nexts(s), Prevs(s));
  }

  lemma Narrow(st: Lists, s: set<Node>)
    requires Linked(st, Nexts(s), Prevs(s)) && Members(st) <= s
    ensures Live(st)
  {
    LinkedFrame(st, Nexts(s), Prevs(s), Nexts(Members(st)), Prevs(Members(st)));
  }

  /** list_addd */
  method ListAdd(p: Node, head: Node, ghost st: Lists)
    requires Live(st) && head in st && p !in Members(st)
    modifies Members(st), p
    ensures Live(Prepend(st, p, head))
  {
    ghost var s := Members(st) + {p};
    Widen(st, s);
    LinkedPrepend(st, p, head, Nexts(s), Prevs(s));
    LinkBetween(p, head, head.next, s);
    PrependMembers(st, p, head);
    Narrow(Prepend(st, p, head), s);
  }

  /** list_add_tail */
  method ListAddTail(p: Node, head: Node, ghost st: Lists)
    requires Live(st) && head in st && p !in Members(st)
    modifies Members(st), p
    ensures Live(Append(st, p, head))
  {
    ghost var s := Members(st) + {p};
    Widen(st, s);
    LinkedAppend(st, p, head, Nexts(s), Prevs(s));
    LinkBetween(p, head.prev, head, s);
    PrependMembers(st, p, head);
    Narrow(Append(st, p, head), s);
  }

  lemma PrependMembers(st: Lists, p: Node, head: Node)
    requires head in st
    ensures Members(Prepend(st, p, head)) == Members(st) + {p}
    ensures Members(Append(st, p, head)) == Members(st) + {p}
  {
    var f, b := Prepend(st, p, head), Append(st, p, head);
    assert p in Cycle(f, head) && p in Cycle(b, head);
    forall n | n in Members(st)
      ensures n in Members(f) && n in Members(b)
    {
      var h :| h in st && n in Cycle(st, h);
      assert n in Cycle(f, h) && n in Cycle(b, h);
    }
    forall n | n in Members(f)
      ensures n in Members(st) + {p}
    {
      var h :| h in f && n in Cycle(f, h);
      assert n == p || n in Cycle(st, h);
    }
    forall n | n in Members(b)
      ensures n in Members(st) + {p}
    {
      var h :| h in b && n in Cycle(b, h);
      assert n == p || n in Cycle(st, h);
    }
  }

  /** What list_del leaves behind. The null tests of __list_del let such an entry be unlinked again. */
  ghost predicate Loose(e: Node)
    reads e
  {
    e.next == null && e.prev == null
  }

  lemma DropAbsent(st: Lists, e: Node)
    requires e !in Members(st)
    ensures Drop(st, e) == st
  {
    forall h | h in st
      ensures h != e && Without(st[h], e) == st[h]
    {
      assert e !in Cycle(st, h);
      assert Cycle(st, h)[0] == h && forall n :: n in st[h] ==> n in Cycle(st, h);
      WithoutAbsent(st[h], e);
    }
  }

  /** The first half of list_del, list_del_init, list_move and list_move_tail: __list_del on the neighbours of `e`,
      whose own links are left as they are. */
  method Unhook(e: Node, ghost st: Lists)
    requires Live(st) && (Removable(st, e) || (e !in Members(st) && Loose(e)))
    modifies Members(st)
    ensures Live(Drop(st, e)) && Members(Drop(st, e)) == Members(st) - {e}
  {
    ghost var s := Members(st);
    if e !in s {
      DropAbsent(st, e);
    } else {
      LinkedDrop(st, e, Nexts(s), Prevs(s));
      DropSeparate(st, e);
    }
    UnlinkBetween(e.prev, e.next, s);
    Narrow(Drop(st, e), s);
  }

  /** list_del: the entry is left without links. */
  method ListDel(e: Node, ghost st: Lists)
    requires Live(st) && (Removable(st, e) || (e !in Members(st) && Loose(e)))
    modifies Members(st), e
    ensures Live(Drop(st, e)) && Members(Drop(st, e)) == Members(st) - {e}
    ensures Loose(e)
  {
    Unhook(e, st);
    ClearLinks(e, Drop(st, e));
  }

  method ClearLinks(e: Node, ghost st: Lists)
    requires Live(st) && e !in Members(st)
    modifies e
    ensures Live(st) && Loose(e)
  {
    e.next := null;
    e.prev := null;
  }

  /** list_del_init: the entry is left as a node in no list. */
  method ListDelInit(e: Node, ghost st: Lists)
    requires Live(st) && (Removable(st, e) || (e !in Members(st) && Loose(e)))
    modifies Members(st), e
    ensures Live(Isolate(st, e))
  {
    Unhook(e, st);
    Reinitialise(e, Drop(st, e));
  }

  /** INIT_LIST_HEAD on a node outside all lists. */
  method Reinitialise(e: Node, ghost st: Lists)
    requires Live(st) && e !in Members(st)
    modifies e
    ensures Live(st[e := []])
  {
    ghost var s := Members(st) + {e};
    Widen(st, s);
    LinkedIsolate(st, e, Nexts(s), Prevs(s));
    SelfLink(e, s);
    IsolatedMembers(st, e);
    Narrow(st[e := []], s);
  }

  lemma IsolatedMembers(st: Lists, e: Node)
    requires e !in Members(st)
    ensures Members(st[e := []]) == Members(st) + {e}
  {
    var i := st[e := []];
    assert e in Cycle(i, e) && (e in st ==> e in Cycle(st, e));
    forall n | n in Members(st)
      ensures n in Members(i)
    {
      var h :| h in st && n in Cycle(st, h);
      assert n in Cycle(i, h);
    }
    forall n | n in Members(i)
      ensures n == e || n in Members(st)
    {
      var h :| h in i && n in Cycle(i, h);
      assert h != e ==> n in Cycle(st, h);
    }
  }

  /** list_move */
  method ListMove(e: Node, head: Node, ghost st: Lists)
    requires Live(st) && (Removable(st, e) || (e !in Members(st) && Loose(e))) && head in st && head != e
    modifies Members(st), e
    ensures Live(Prepend(Drop(st, e), e, head))
  {
    Unhook(e, st);
    ListAdd(e, head, Drop(st, e));
  }

  /** list_move_tail */
  method ListMoveTail(e: Node, head: Node, ghost st: Lists)
    requires Live(st) && (Removable(st, e) || (e !in Members(st) && Loose(e))) && head in st && head != e
    modifies Members(st), e
    ensures Live(Append(Drop(st, e), e, head))
  {
    Unhook(e, st);
    ListAddTail(e, head, Drop(st, e));
  }

  /** list_empty, and what it tells. */
  method ListEmpty(head: Node, ghost st: Lists) returns (empty: bool)
    requires Live(st) && head in st
    ensures empty <==> st[head] == []
    ensures !empty ==> head.next == st[head][0]
  {
    FirstEntry(st, head, Nexts(Members(st)), Prevs(Members(st)));
    empty := head.next == head;
  }

  lemma FirstEntry(st: Lists, head: Node, nx: Links, pv: Links)
    requires Linked(st, nx, pv) && head in st
    ensures head in nx && nx[head] == (st[head] + [head])[0]
    ensures head in Members(st) && head !in st[head]
  {
    assert RingAt(st, head, nx, pv);
    RingKeys(Cycle(st, head), nx, pv);
    RingOpened(head, st[head], nx, pv);
    PathAt(Cycle(st, head) + [head], 0, nx, pv);
    assert (Cycle(st, head) + [head])[1] == (st[head] + [head])[0];
    assert head in Cycle(st, head);
  }

  /** list_splice */
  method ListSplice(list: Node, head: Node, ghost st: Lists)
    requires Live(st) && list in st && head in st && list != head
    modifies Members(st)
    ensures Live(Splice(st, list, head))
  {
    var empty := ListEmpty(list, st);
    if !empty {
      SpliceFull(list, head, st);
    }
  }

  /** __list_splice */
  method SpliceFull(list: Node, head: Node, ghost st: Lists)
    requires Live(st) && list in st && head in st && list != head && st[list] != []
    modifies Members(st)
    ensures Live(Splice(st, list, head))
    ensures list in Members(st) && Members(Splice(st, list, head)) == Members(st) - {list}
  {
    ghost var s := Members(st);
    SpliceReady(st, list, head, Nexts(s), Prevs(s));
    LinkedSplice(st, list, head, Nexts(s), Prevs(s));
    SpliceLinks(list, head, s);
    Narrow(Splice(st, list, head), s);
  }

  lemma SpliceReady(st: Lists, list: Node, head: Node, nx: Links, pv: Links)
    requires Linked(st, nx, pv) && list in st && head in st && list != head && st[list] != []
    ensures list in Members(st) && head in Members(st)
    ensures Members(Splice(st, list, head)) == Members(st) - {list}
  {
    FirstEntry(st, list, nx, pv);
    FirstEntry(st, head, nx, pv);
    SpliceSeparate(st, list, head);
  }

  /** list_splice_init */
  method ListSpliceInit(list: Node, head: Node, ghost st: Lists)
    requires Live(st) && list in st && head in st && list != head
    modifies Members(st)
    ensures Live(SpliceInit(st, list, head))
  {
    var empty := ListEmpty(list, st);
    if !empty {
      SpliceFull(list, head, st);
      Reinitialise(list, Splice(st, list, head));
      assert Splice(st, list, head)[list := []] == SpliceInit(st, list, head);
    } else {
      assert [] + st[head] == st[head];
      assert SpliceInit(st, list, head) == st;
    }
  }

  /** CListHead::FreeList: unhooks the first entry until none is left. */
  method FreeList(head: Node, ghost st: Lists)
    requires Live(st) && head in st
    modifies Members(st)
    ensures Live(Freed(st, head))
  {
    ghost var now: Lists := st;
    ghost var nodes, goal := Members(st), Freed(st, head);
    var empty := ListEmpty(head, now);
    while !empty
      invariant Live(now) && head in now && Members(now) == nodes
      invariant Freed(now, head) == goal
      invariant empty <==> now[head] == []
      decreases |now[head]|
    {
      now, empty := FreeFirst(head, now);
    }
    FreedEmpty(now, head);
  }

  /** `ListNext()->ResetList()`, one turn of the loop, and the test that follows it. */
  method FreeFirst(head: Node, ghost st: Lists) returns (ghost st': Lists, empty: bool)
    requires Live(st) && head in st && st[head] != []
    modifies Members(st)
    ensures Live(st') && head in st' && |st'[head]| < |st[head]|
    ensures Members(st') == Members(st) && Freed(st', head) == Freed(st, head)
    ensures empty <==> st'[head] == []
  {
    FreeStep(st, head, Nexts(Members(st)), Prevs(Members(st)));
    FirstEntry(st, head, Nexts(Members(st)), Prevs(Members(st)));
    ListDelInit(head.next, st);
    st' := Isolate(st, st[head][0]);
    empty := ListEmpty(head, st');
  }

  lemma FreedEmpty(st: Lists, head: Node)
    requires head in st && st[head] == []
    ensures Freed(st, head) == st
  {
  }

  /** Every entry of the list becomes a node in no list; the head's list is empty; nothing else changes. */
  function Freed(st: Lists, head: Node): Lists
    requires head in st
  {
    map h | h in st.Keys + (set e | e in st[head]) :: if h == head || h in st[head] then [] else st[h]
  }

  lemma FreeStep(st: Lists, head: Node, nx: Links, pv: Links)
    requires Linked(st, nx, pv) && head in st && st[head] != []
    ensures Removable(st, st[head][0])
    ensures var st' := Isolate(st, st[head][0]);
            && head in st' && |st'[head]| < |st[head]|
            && Members(st') == Members(st) && Freed(st', head) == Freed(st, head)
  {
    var e := st[head][0];
    FirstEntry(st, head, nx, pv);
    FirstRemovable(st, head, nx, pv);
    IsolateMembers(st, e);
    IsolateFirst(st, head, nx, pv);
    FreedTail(st, Isolate(st, e), head);
  }

  lemma FirstRemovable(st: Lists, head: Node, nx: Links, pv: Links)
    requires Linked(st, nx, pv) && head in st && st[head] != [] && head !in st[head]
    ensures Removable(st, st[head][0]) && st[head][0] !in st
    ensures st[head][0] !in st[head][1..]
  {
    var e := st[head][0];
    assert e in Cycle(st, head);
    assert e in st ==> Apart(st, e, head);
    assert RingAt(st, head, nx, pv);
    RingOpened(head, st[head], nx, pv);
    DistinctConcat([head], st[head]);
  }

  /** Isolating the first entry shortens that list and leaves the others alone. */
  lemma IsolateFirst(st: Lists, head: Node, nx: Links, pv: Links)
    requires Linked(st, nx, pv) && head in st && st[head] != [] && head !in st[head]
    ensures Isolate(st, st[head][0]) == st[head := st[head][1..]][st[head][0] := []]
  {
    var e := st[head][0];
    FirstRemovable(st, head, nx, pv);
    WithoutAbsent(st[head][1..], e);
    forall h | h in st && h != head
      ensures Without(st[h], e) == st[h]
    {
      assert Apart(st, head, h) && e in Cycle(st, head);
      WithoutAbsent(st[h], e);
    }
    assert Without(st[head], e) == st[head][1..];
    var i, j := Isolate(st, e), st[head := st[head][1..]][e := []];
    assert i.Keys == j.Keys;
    assert forall h :: h in i ==> i[h] == j[h];
  }

  lemma FreedTail(st: Lists, st': Lists, head: Node)
    requires head in st && st[head] != [] && head !in st[head] && st[head][0] !in st
    requires st' == st[head := st[head][1..]][st[head][0] := []]
    ensures Freed(st', head) == Freed(st, head)
  {
    var e := st[head][0];
    assert forall n :: n in st[head] <==> n == e || n in st[head][1..];
  }

  lemma IsolateMembers(st: Lists, e: Node)
    requires Separate(st) && Removable(st, e)
    ensures Members(Isolate(st, e)) == Members(st)
  {
    DropSeparate(st, e);
    IsolatedMembers(Drop(st, e), e);
  }
}
