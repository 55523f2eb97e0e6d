/** Sequences of list operations, and the pending list of the timers. */
module ListRuns {
  import opened Rings
  import opened ListOps

  datatype Op =
    | Add(p: Node, head: Node)
    | AddTail(p: Node, head: Node)
    | Del(e: Node)
    | DelInit(e: Node)
    | Move(e: Node, head: Node)
    | MoveTail(e: Node, head: Node)
    | SpliceOnto(list: Node, head: Node)
    | SpliceInitOnto(list: Node, head: Node)
    | Free(head: Node)

  /** The lists, the entries that list_del has left without links, and the heads that a plain splice has left with
      stale ones. */
  datatype World = World(lists: Lists, loose: set<Node>, stale: set<Node>)

  ghost function All(w: World): set<Node> {
    Members(w.lists) + w.loose + w.stale
  }

  predicate Disjoint(a: set<Node>, b: set<Node>, c: set<Node>) {
    a !! b && a !! c && b !! c
  }

  /** The heap is in the state `w` describes. */
  ghost predicate Holds(w: World)
    reads All(w)
  {
    && Live(w.lists) && Disjoint(Members(w.lists), w.loose, w.stale)
    && forall n :: n in w.loose ==> Loose(n)
  }

  ghost predicate InNoList(w: World, p: Node) {
    p in w.loose || p in w.stale || (p in w.lists && w.lists[p] == [])
  }

  ghost predicate Unlinkable(w: World, e: Node) {
    e in w.loose || Removable(w.lists, e)
  }

  /** What the operations ask of their caller: a node in no list to add, an entry or a node without links to unlink,
      and two different heads. */
  ghost predicate Allowed(w: World, op: Op) {
    match op
    case Add(p, h) => h in w.lists && p != h && InNoList(w, p)
    case AddTail(p, h) => h in w.lists && p != h && InNoList(w, p)
    case Del(e) => Unlinkable(w, e)
    case DelInit(e) => Unlinkable(w, e)
    case Move(e, h) => h in w.lists && e != h && Unlinkable(w, e)
    case MoveTail(e, h) => h in w.lists && e != h && Unlinkable(w, e)
    case SpliceOnto(l, h) => l in w.lists && h in w.lists && l != h
    case SpliceInitOnto(l, h) => l in w.lists && h in w.lists && l != h
    case Free(h) => h in w.lists
  }

  ghost function Apply(w: World, op: Op): World
    requires Allowed(w, op)
  {
    var st := w.lists;
    match op
    case Add(p, h) => World(Prepend(Drop(st, p), p, h), w.loose - {p}, w.stale - {p})
    case AddTail(p, h) => World(Append(Drop(st, p), p, h), w.loose - {p}, w.stale - {p})
    case Del(e) => World(Drop(st, e), w.loose + {e}, w.stale)
    case DelInit(e) => World(Isolate(st, e), w.loose - {e}, w.stale)
    case Move(e, h) => World(Prepend(Drop(st, e), e, h), w.loose - {e}, w.stale)
    case MoveTail(e, h) => World(Append(Drop(st, e), e, h), w.loose - {e}, w.stale)
    case SpliceOnto(l, h) => World(Splice(st, l, h), w.loose, w.stale + if st[l] == [] then {} else {l})
    case SpliceInitOnto(l, h) => World(SpliceInit(st, l, h), w.loose, w.stale)
    case Free(h) => World(Freed(st, h), w.loose, w.stale)
  }

  ghost predicate AllAllowed(w: World, ops: seq<Op>)
    decreases |ops|
  {
    ops == [] || (Allowed(w, ops[0]) && AllAllowed(Apply(w, ops[0]), ops[1..]))
  }

  ghost function ApplyAll(w: World, ops: seq<Op>): World
    requires AllAllowed(w, ops)
    decreases |ops|
  {
    if ops == [] then w else ApplyAll(Apply(w, ops[0]), ops[1..])
  }

  /** A node in no list is a ring of its own and can be taken out of the picture without touching a pointer. */
  lemma ForgetIdle(st: Lists, p: Node, nx: Links, pv: Links)
    requires Linked(st, nx, pv) && p in st && st[p] == []
    ensures Linked(Drop(st, p), nx, pv)
    ensures Members(Drop(st, p)) == Members(st) - {p}
  {
    assert p in Cycle(st, p);
    LinkedDrop(st, p, nx, pv);
    DropSeparate(st, p);
    assert RingAt(st, p, nx, pv);
    FirstEntry(st, p, nx, pv);
    PathAt([p] + [p], 0, nx, pv);
    assert nx[pv[p] := nx[p]] == nx && pv[nx[p] := pv[p]] == pv;
  }

  lemma HeadIsMember(st: Lists, h: Node)
    requires h in st
    ensures h in Members(st)
  {
    assert h in Cycle(st, h);
  }

  /** What is left of the lists, as the addition of `p` sees them. */
  lemma ReadyToAdd(w: World, p: Node)
    requires Holds(w) && InNoList(w, p)
    ensures Live(Drop(w.lists, p)) && Members(Drop(w.lists, p)) == Members(w.lists) - {p}
    ensures p in All(w)
  {
    var st := w.lists;
    if p in st {
      HeadIsMember(st, p);
      ForgetIdle(st, p, Nexts(Members(st)), Prevs(Members(st)));
      Narrow(Drop(st, p), Members(st));
    } else {
      DropAbsent(st, p);
    }
  }

  method Perform(op: Op, ghost w: World)
    requires Holds(w) && Allowed(w, op)
    modifies All(w)
    ensures Holds(Apply(w, op)) && All(Apply(w, op)) == All(w)
  {
    NodesConserved(w, op, Nexts(Members(w.lists)), Prevs(Members(w.lists)));
    match op {
      case Add(p, h) =>
        ReadyToAdd(w, p);
        ListAdd(p, h, Drop(w.lists, p));
      case AddTail(p, h) =>
        ReadyToAdd(w, p);
        ListAddTail(p, h, Drop(w.lists, p));
      case Del(e) => ListDel(e, w.lists);
      case DelInit(e) => ListDelInit(e, w.lists);
      case Move(e, h) => ListMove(e, h, w.lists);
      case MoveTail(e, h) => ListMoveTail(e, h, w.lists);
      case SpliceOnto(l, h) => ListSplice(l, h, w.lists);
      case SpliceInitOnto(l, h) => ListSpliceInit(l, h, w.lists);
      case Free(h) => FreeList(h, w.lists);
    }
  }

  ghost predicate Conserved(w: World, w': World) {
    All(w') == All(w) && Disjoint(Members(w'.lists), w'.loose, w'.stale)
  }

  /** No operation loses a node: it is in some ring, or one of those that list_del or a plain splice has let go. */
  lemma NodesConserved(w: World, op: Op, nx: Links, pv: Links)
    requires Linked(w.lists, nx, pv) && Disjoint(Members(w.lists), w.loose, w.stale) && Allowed(w, op)
    ensures Conserved(w, Apply(w, op))
  {
    match op {
      case Add(p, h) => AddConserved(w, p, h, nx, pv);
      case AddTail(p, h) => AddConserved(w, p, h, nx, pv);
      case Del(e) => DropMembers(w, e);
      case DelInit(e) => DelInitConserved(w, e);
      case Move(e, h) => MoveConserved(w, e, h);
      case MoveTail(e, h) => MoveConserved(w, e, h);
      case SpliceOnto(l, h) => SpliceConserved(w, l, h, nx, pv);
      case SpliceInitOnto(l, h) => SpliceInitMembers(w.lists, l, h, nx, pv);
      case Free(h) => FreedMembers(w.lists, h, nx, pv);
    }
  }

  lemma AddConserved(w: World, p: Node, head: Node, nx: Links, pv: Links)
    requires Linked(w.lists, nx, pv) && Disjoint(Members(w.lists), w.loose, w.stale) && Allowed(w, Add(p, head))
    ensures Conserved(w, Apply(w, Add(p, head))) && Conserved(w, Apply(w, AddTail(p, head)))
  {
    AddMembers(w, p, head, nx, pv);
  }

  lemma DelInitConserved(w: World, e: Node)
    requires Separate(w.lists) && Disjoint(Members(w.lists), w.loose, w.stale) && Unlinkable(w, e)
    ensures Conserved(w, Apply(w, DelInit(e)))
  {
    DropMembers(w, e);
    IsolatedMembers(Drop(w.lists, e), e);
  }

  lemma MoveConserved(w: World, e: Node, head: Node)
    requires Separate(w.lists) && Disjoint(Members(w.lists), w.loose, w.stale) && Allowed(w, Move(e, head))
    ensures Conserved(w, Apply(w, Move(e, head))) && Conserved(w, Apply(w, MoveTail(e, head)))
  {
    DropMembers(w, e);
    PrependMembers(Drop(w.lists, e), e, head);
  }

  lemma SpliceConserved(w: World, list: Node, head: Node, nx: Links, pv: Links)
    requires Linked(w.lists, nx, pv) && Disjoint(Members(w.lists), w.loose, w.stale)
    requires list in w.lists && head in w.lists && list != head
    ensures Conserved(w, Apply(w, SpliceOnto(list, head)))
  {
    if w.lists[list] != [] {
      SpliceReady(w.lists, list, head, nx, pv);
    }
  }

  lemma AddMembers(w: World, p: Node, head: Node, nx: Links, pv: Links)
    requires Linked(w.lists, nx, pv) && Disjoint(Members(w.lists), w.loose, w.stale)
    requires head in w.lists && p != head && InNoList(w, p)
    ensures p in All(w) && head in Drop(w.lists, p)
    ensures Members(Prepend(Drop(w.lists, p), p, head)) == Members(w.lists) + {p}
    ensures Members(Append(Drop(w.lists, p), p, head)) == Members(w.lists) + {p}
  {
    if p in w.lists {
      HeadIsMember(w.lists, p);
      ForgetIdle(w.lists, p, nx, pv);
      FirstEntry(w.lists, p, nx, pv);
    } else {
      DropAbsent(w.lists, p);
    }
    PrependMembers(Drop(w.lists, p), p, head);
  }

  lemma DropMembers(w: World, e: Node)
    requires Separate(w.lists) && Disjoint(Members(w.lists), w.loose, w.stale) && Unlinkable(w, e)
    ensures e in All(w) && Members(Drop(w.lists, e)) == Members(w.lists) - {e}
  {
    if e in w.loose {
      DropAbsent(w.lists, e);
    } else {
      DropSeparate(w.lists, e);
    }
  }

  lemma SpliceInitMembers(st: Lists, list: Node, head: Node, nx: Links, pv: Links)
    requires Linked(st, nx, pv) && list in st && head in st && list != head
    ensures Members(SpliceInit(st, list, head)) == Members(st)
  {
    if st[list] == [] {
      assert [] + st[head] == st[head];
      assert SpliceInit(st, list, head) == st;
    } else {
      SpliceReady(st, list, head, nx, pv);
      IsolatedMembers(Splice(st, list, head), list);
      assert Splice(st, list, head)[list := []] == SpliceInit(st, list, head);
    }
  }

  lemma FreedMembers(st: Lists, head: Node, nx: Links, pv: Links)
    requires Linked(st, nx, pv) && head in st
    ensures Members(Freed(st, head)) == Members(st)
  {
    var f := Freed(st, head);
    FirstEntry(st, head, nx, pv);
    forall n | n in Members(st)
      ensures n in Members(f)
    {
      var h :| h in st && n in Cycle(st, h);
      assert Apart(st, h, head) && h in Cycle(st, h);
      assert h != head ==> h !in Cycle(st, head);
      assert h != head ==> f[h] == st[h];
      assert n in Cycle(f, if h == head then n else h);
    }
    forall n | n in Members(f)
      ensures n in Members(st)
    {
      var h :| h in f && n in Cycle(f, h);
      assert n in Cycle(st, if h in st then h else head);
    }
  }

  /** Over every run of allowed operations the heap stays a set of well-formed, separate rings, and holds the lists
      the abstract run gives; every node is accounted for. */
  method PerformAll(ops: seq<Op>, ghost w: World)
    requires Holds(w) && AllAllowed(w, ops)
    modifies All(w)
    ensures Holds(ApplyAll(w, ops)) && All(ApplyAll(w, ops)) == All(w)
    decreases |ops|
  {
    if ops != [] {
      Perform(ops[0], w);
      PerformAll(ops[1..], Apply(w, ops[0]));
    }
  }

  // ---- timers ----

  /** AttachZeroTimer moves the timer to the tail of the pending list, DisableTimer takes it out of any list. */
  datatype TimerOp = Attach(t: Node) | Disable(t: Node)

  ghost predicate TimersOf(st: Lists, pending: Node, ops: seq<TimerOp>) {
    pending in st && forall op <- ops :: op.t != pending && Removable(st, op.t)
  }

  ghost function TimerStep(st: Lists, pending: Node, op: TimerOp): Lists
    requires pending in st && op.t != pending
  {
    match op
    case Attach(t) => Append(Drop(st, t), t, pending)
    case Disable(t) => Isolate(st, t)
  }

  ghost function TimerRun(st: Lists, pending: Node, ops: seq<TimerOp>): (r: Lists)
    requires pending in st && forall op <- ops :: op.t != pending
    ensures pending in r
  {
    if ops == [] then st
    else TimerStep(TimerRun(st, pending, ops[..|ops| - 1]), pending, ops[|ops| - 1])
  }

  /** The index of the last operation on `t`, or -1. */
  function LastOn(ops: seq<TimerOp>, t: Node): (i: int)
    ensures -1 <= i < |ops|
    ensures i >= 0 ==> ops[i].t == t
    ensures forall j :: i < j < |ops| ==> ops[j].t != t
  {
    if ops == [] then -1
    else if ops[|ops| - 1].t == t then |ops| - 1
    else LastOn(ops[..|ops| - 1], t)
  }

  /** Each timer of `s` was last touched before all that follow it. */
  ghost predicate InOrder(s: seq<Node>, ops: seq<TimerOp>) {
    s == [] || ((forall n: Node :: n in s[1..] ==> LastOn(ops, s[0]) < LastOn(ops, n)) && InOrder(s[1..], ops))
  }

  lemma {:induction false} WithoutInOrder(s: seq<Node>, e: Node, ops: seq<TimerOp>)
    requires InOrder(s, ops)
    ensures InOrder(Without(s, e), ops)
  {
    if s != [] {
      WithoutInOrder(s[1..], e, ops);
      var r := Without(s[1..], e);
      assert ([s[0]] + r)[1..] == r == [] + r;
      forall n: Node | n in r
        ensures LastOn(ops, s[0]) < LastOn(ops, n)
      {
        WithoutMember(s[1..], e, n);
      }
    }
  }

  lemma {:induction false} LaterOperation(s: seq<Node>, ops: seq<TimerOp>, op: TimerOp)
    requires InOrder(s, ops) && op.t !in s
    ensures InOrder(s, ops + [op]) && InOrder(s + [op.t], ops + [op])
  {
    assert (ops + [op])[..|ops|] == ops;
    if s != [] {
      LaterOperation(s[1..], ops, op);
      assert (s + [op.t])[1..] == s[1..] + [op.t];
      forall n: Node | n in s[1..]
        ensures LastOn(ops + [op], s[0]) < LastOn(ops + [op], n)
      {
        assert n != op.t && s[0] != op.t;
      }
    }
  }

  lemma {:induction false} PendingMember(st: Lists, pending: Node, ops: seq<TimerOp>, t: Node)
    requires pending in st && st[pending] == [] && forall op <- ops :: op.t != pending
    ensures t in TimerRun(st, pending, ops)[pending] <==> LastOn(ops, t) >= 0 && ops[LastOn(ops, t)].Attach?
  {
    if ops != [] {
      var before, op := ops[..|ops| - 1], ops[|ops| - 1];
      PendingMember(st, pending, before, t);
      WithoutMember(TimerRun(st, pending, before)[pending], op.t, t);
    }
  }

  /** After any sequence of attachments and disablings the pending list holds exactly the timers whose last operation
      was an attachment, in the order of those attachments. */
  lemma {:induction false} PendingOrder(st: Lists, pending: Node, ops: seq<TimerOp>)
    requires pending in st && st[pending] == [] && forall op <- ops :: op.t != pending
    ensures var p := TimerRun(st, pending, ops)[pending];
            && (forall t: Node :: t in p <==> LastOn(ops, t) >= 0 && ops[LastOn(ops, t)].Attach?)
            && InOrder(p, ops)
  {
    forall t: Node
      ensures t in TimerRun(st, pending, ops)[pending] <==> LastOn(ops, t) >= 0 && ops[LastOn(ops, t)].Attach?
    {
      PendingMember(st, pending, ops, t);
    }
    PendingInOrder(st, pending, ops);
  }

  lemma {:induction false} PendingInOrder(st: Lists, pending: Node, ops: seq<TimerOp>)
    requires pending in st && st[pending] == [] && forall op <- ops :: op.t != pending
    ensures InOrder(TimerRun(st, pending, ops)[pending], ops)
  {
    if ops != [] {
      var before, op := ops[..|ops| - 1], ops[|ops| - 1];
      PendingInOrder(st, pending, before);
      var q := TimerRun(st, pending, before)[pending];
      WithoutMember(q, op.t, op.t);
      WithoutInOrder(q, op.t, before);
      LaterOperation(Without(q, op.t), before, op);
      assert before + [op] == ops;
    }
  }

  /** On the heap: the timers do what the abstract run says, whatever other lists there are. */
  method RunTimers(ops: seq<TimerOp>, pending: Node, ghost st: Lists)
    requires Live(st) && TimersOf(st, pending, ops)
    modifies Members(st)
    ensures Live(TimerRun(st, pending, ops))
  {
    var i := 0;
    ghost var now: Lists, nodes := st, Members(st);
    while i < |ops|
      invariant 0 <= i <= |ops|
      invariant now == TimerRun(st, pending, ops[..i]) && Live(now) && Members(now) == nodes
      invariant TimersOf(now, pending, ops)
    {
      assert ops[..i + 1][..i] == ops[..i];
      TimerNext(now, pending, ops, ops[i], Nexts(nodes), Prevs(nodes));
      now := TimerPerform(ops[i], pending, now);
      i := i + 1;
    }
    assert ops[..i] == ops;
  }

  method TimerPerform(op: TimerOp, pending: Node, ghost st: Lists) returns (ghost st': Lists)
    requires Live(st) && pending in st && op.t != pending && Removable(st, op.t)
    modifies Members(st)
    ensures st' == TimerStep(st, pending, op) && Live(st')
  {
    match op {
      case Attach(t) => ListMoveTail(t, pending, st);
      case Disable(t) => ListDelInit(t, st);
    }
    st' := TimerStep(st, pending, op);
  }

  lemma TimerNext(st: Lists, pending: Node, ops: seq<TimerOp>, op: TimerOp, nx: Links, pv: Links)
    requires Linked(st, nx, pv) && TimersOf(st, pending, ops) && op in ops
    ensures var st' := TimerStep(st, pending, op); Members(st') == Members(st) && TimersOf(st', pending, ops)
  {
    var st' := TimerStep(st, pending, op);
    match op {
      case Attach(t) =>
        NodesConserved(World(st, {}, {}), MoveTail(t, pending), nx, pv);
      case Disable(t) =>
        NodesConserved(World(st, {}, {}), DelInit(t), nx, pv);
    }
    forall o <- ops
      ensures Removable(st', o.t)
    {
      if o.t in st' && o.t != op.t {
        assert Drop(st, op.t)[o.t] == Without(st[o.t], op.t) == [];
      }
    }
  }
}
