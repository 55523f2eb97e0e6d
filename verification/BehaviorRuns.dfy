/** Running a behaviour tree: selection stops at the first child that succeeds, sequence at the first that fails, a
    condition runs its child if it holds. What actions and conditions do to the game table is a parameter. */
module BehaviorRuns {
  import opened Behaviors
  import opened BehaviorTrees

  /** The virtual methods of the leaves: the answer, and the table and seat afterwards. */
  datatype Leaves<!W> = Leaves(act: (Node, W) -> (bool, W), judge: (Node, W) -> (bool, W))

  /** A condition that holds calls its child without looking whether there is one. */
  datatype Result<W> = Ran(ok: bool, world: W) | NullChild

  function EvalNode<W>(x: Leaves<W>, n: Node, kids: Forest, w: W): Result<W>
    decreases kids, 1
  {
    match n.kind
    case Select => EvalAll(x, true, kids, w)
    case Sequence => EvalAll(x, false, kids, w)
    case Condition =>
      var (holds, w1) := x.judge(n, w);
      if !holds then Ran(false, w1)
      else if kids.Empty? then NullChild
      else EvalNode(x, kids.node, kids.kids, w1)
    case Action =>
      var (ok, w1) := x.act(n, w);
      Ran(ok, w1)
  }

  /** The children in order until one answers `stop`. */
  function EvalAll<W>(x: Leaves<W>, stop: bool, f: Forest, w: W): Result<W>
    decreases f, 0
  {
    if f.Empty? then Ran(!stop, w)
    else
      var r := EvalNode(x, f.node, f.kids, w);
      if Decided(r, stop) then r else EvalAll(x, stop, f.rest, r.world)
  }

  predicate Decided<W>(r: Result<W>, stop: bool) {
    r.NullChild? || r.ok == stop
  }

  lemma RootsStep(f: Forest, s: seq<Node>, i: nat)
    requires i < |s| && Roots(f) == s[i..]
    ensures f.More? && f.node == s[i] && Roots(f.rest) == s[i + 1..]
  {
    assert s[i..][0] == s[i] && s[i..][1..] == s[i + 1..];
  }

  method Process<W>(n: Node, x: Leaves<W>, w: W, ghost a: Arena, ghost f: Forest) returns (r: Result<W>)
    requires a == Snap(a.Keys) && IsTree(a, n, f)
    ensures r == EvalNode(x, n, f, w)
    decreases Size(f)
  {
    match n.kind {
      case Select | Sequence =>
        var stop := n.kind == Select;
        r := Ran(!stop, w);
        ghost var g := f;
        var i := 0;
        while i < |n.children|
          invariant i <= |n.children| && Roots(g) == n.children[i..]
          invariant Hangs(a, n, g) && Size(g) <= Size(f)
          invariant r.Ran? && r.ok == !stop && EvalAll(x, stop, g, r.world) == EvalAll(x, stop, f, w)
        {
          RootsStep(g, n.children, i);
          r := Process(n.children[i], x, r.world, a, g.kids);
          if Decided(r, stop) {
            return;
          }
          g, i := g.rest, i + 1;
        }
      case Condition =>
        var (holds, w1) := x.judge(n, w);
        if !holds {
          return Ran(false, w1);
        }
        if n.child == null {
          return NullChild;
        }
        assert Roots(f)[0] == n.child;
        r := Process(n.child, x, w1, a, f.kids);
      case Action =>
        var (ok, w1) := x.act(n, w);
        return Ran(ok, w1);
    }
  }

  // ---- what the answers mean ----

  function Append(f: Forest, g: Forest): Forest {
    if f.Empty? then g else More(f.node, f.kids, Append(f.rest, g))
  }

  /** Later children are run, in the state the earlier ones left, exactly when no earlier one decided. */
  lemma {:induction false} EvalAppend<W>(x: Leaves<W>, stop: bool, f: Forest, g: Forest, w: W)
    ensures var r := EvalAll(x, stop, f, w);
            EvalAll(x, stop, Append(f, g), w) == if Decided(r, stop) then r else EvalAll(x, stop, g, r.world)
  {
    if f.More? {
      var r := EvalNode(x, f.node, f.kids, w);
      if !Decided(r, stop) {
        EvalAppend(x, stop, f.rest, g, r.world);
      }
    }
  }

  predicate Composite(k: Kind) {
    k == Select || k == Sequence
  }

  /** The tree with every selection inside a selection, and every sequence inside a sequence, dissolved into its
      parent. */
  function Flat(k: Kind, f: Forest): Forest
    decreases f
  {
    if f.Empty? then Empty
    else if Composite(k) && f.node.kind == k then Append(Flat(k, f.kids), Flat(k, f.rest))
    else More(f.node, Flat(f.node.kind, f.kids), Flat(k, f.rest))
  }

  predicate Unnested(k: Kind, f: Forest)
    decreases f
  {
    f.More? ==> !(Composite(k) && f.node.kind == k) && Unnested(f.node.kind, f.kids) && Unnested(k, f.rest)
  }

  lemma {:induction false} AppendUnnested(k: Kind, f: Forest, g: Forest)
    requires Unnested(k, f) && Unnested(k, g)
    ensures Unnested(k, Append(f, g))
  {
    if f.More? {
      AppendUnnested(k, f.rest, g);
    }
  }

  lemma {:induction false} FlatIsUnnested(k: Kind, f: Forest)
    ensures Unnested(k, Flat(k, f))
    decreases f
  {
    if f.More? {
      FlatIsUnnested(k, f.rest);
      FlatIsUnnested(f.node.kind, f.kids);
      if Composite(k) && f.node.kind == k {
        AppendUnnested(k, Flat(k, f.kids), Flat(k, f.rest));
      }
    }
  }

  /** Flattening changes neither the answer nor what happens to the table. */
  lemma {:induction false} FlatMeansTheSame<W>(x: Leaves<W>, n: Node, kids: Forest, w: W)
    ensures EvalNode(x, n, Flat(n.kind, kids), w) == EvalNode(x, n, kids, w)
    decreases kids, 1
  {
    match n.kind {
      case Select => FlatAll(x, Select, kids, w);
      case Sequence => FlatAll(x, Sequence, kids, w);
      case Condition =>
        var (holds, w1) := x.judge(n, w);
        if holds && kids.More? {
          FlatMeansTheSame(x, kids.node, kids.kids, w1);
        }
      case Action =>
    }
  }

  lemma {:induction false} FlatAll<W>(x: Leaves<W>, k: Kind, f: Forest, w: W)
    requires Composite(k)
    ensures EvalAll(x, k == Select, Flat(k, f), w) == EvalAll(x, k == Select, f, w)
    decreases f, 0
  {
    if f.More? {
      var r := EvalNode(x, f.node, f.kids, w);
      if !Decided(r, k == Select) {
        FlatAll(x, k, f.rest, r.world);
      }
      if f.node.kind == k {
        FlatAll(x, k, f.kids, w);
        EvalAppend(x, k == Select, Flat(k, f.kids), Flat(k, f.rest), w);
      } else {
        FlatMeansTheSame(x, f.node, f.kids, w);
      }
    }
  }

  /** Every condition has its child. */
  predicate Guarded(n: Node, kids: Forest)
    decreases kids, 1
  {
    (n.kind == Condition ==> kids.More?) && AllGuarded(kids)
  }

  predicate AllGuarded(f: Forest)
    decreases f, 0
  {
    f.More? ==> Guarded(f.node, f.kids) && AllGuarded(f.rest)
  }

  /** Such a tree never runs into a missing child. */
  lemma {:induction false} GuardedRuns<W>(x: Leaves<W>, n: Node, kids: Forest, w: W)
    requires Guarded(n, kids)
    ensures EvalNode(x, n, kids, w).Ran?
    decreases kids, 1
  {
    match n.kind {
      case Select => GuardedAllRun(x, true, kids, w);
      case Sequence => GuardedAllRun(x, false, kids, w);
      case Condition =>
        GuardedRuns(x, kids.node, kids.kids, x.judge(n, w).1);
      case Action =>
    }
  }

  lemma {:induction false} GuardedAllRun<W>(x: Leaves<W>, stop: bool, f: Forest, w: W)
    requires AllGuarded(f)
    ensures EvalAll(x, stop, f, w).Ran?
    decreases f, 0
  {
    if f.More? {
      GuardedRuns(x, f.node, f.kids, w);
      var r := EvalNode(x, f.node, f.kids, w);
      if !Decided(r, stop) {
        GuardedAllRun(x, stop, f.rest, r.world);
      }
    }
  }

  // ---- when a missing child is called ----

  datatype Answer = Yes | No | Crash

  function AnswerOf<W>(r: Result<W>): Answer {
    if r.NullChild? then Crash else if r.ok then Yes else No
  }

  function AnswerFor(b: bool): Answer {
    if b then Yes else No
  }

  /** What a node may answer, read off the tree alone: every leaf may answer either way. */
  predicate Can(n: Node, kids: Forest, a: Answer)
    decreases kids, 1
  {
    match n.kind
    case Select => CanAll(true, kids, a)
    case Sequence => CanAll(false, kids, a)
    case Condition => a == No || (if kids.Empty? then a == Crash else Can(kids.node, kids.kids, a))
    case Action => a != Crash
  }

  predicate CanAll(stop: bool, f: Forest, a: Answer)
    decreases f, 0
  {
    if f.Empty? then a == AnswerFor(!stop)
    else
      || (a != AnswerFor(!stop) && Can(f.node, f.kids, a))
      || (Can(f.node, f.kids, AnswerFor(!stop)) && CanAll(stop, f.rest, a))
  }

  lemma {:induction false} OutcomeCan<W>(x: Leaves<W>, n: Node, kids: Forest, w: W)
    ensures Can(n, kids, AnswerOf(EvalNode(x, n, kids, w)))
    decreases kids, 1
  {
    match n.kind {
      case Select => OutcomeCanAll(x, true, kids, w);
      case Sequence => OutcomeCanAll(x, false, kids, w);
      case Condition =>
        if kids.More? {
          OutcomeCan(x, kids.node, kids.kids, x.judge(n, w).1);
        }
      case Action =>
    }
  }

  lemma {:induction false} OutcomeCanAll<W>(x: Leaves<W>, stop: bool, f: Forest, w: W)
    ensures CanAll(stop, f, AnswerOf(EvalAll(x, stop, f, w)))
    decreases f, 0
  {
    if f.More? {
      OutcomeCan(x, f.node, f.kids, w);
      var r := EvalNode(x, f.node, f.kids, w);
      if !Decided(r, stop) {
        OutcomeCanAll(x, stop, f.rest, r.world);
      }
    }
  }

  /** Leaves that answer by a fixed choice of nodes and leave the table alone. */
  ghost function Fixed<W>(yes: set<Node>): Leaves<W> {
    Leaves((n, w) => (n in yes, w), (n, w) => (n in yes, w))
  }

  function ResultFor<W>(a: Answer, w: W): Result<W> {
    if a == Crash then NullChild else Ran(a == Yes, w)
  }

  /** Only the nodes of the tree matter. */
  lemma {:induction false} SameChoice<W>(y: set<Node>, z: set<Node>, n: Node, kids: Forest, w: W)
    requires forall m :: m in Nodes(kids) + {n} ==> (m in y <==> m in z)
    ensures EvalNode(Fixed(y), n, kids, w) == EvalNode(Fixed(z), n, kids, w)
    decreases kids, 1
  {
    match n.kind {
      case Select => SameChoiceAll(y, z, true, kids, w);
      case Sequence => SameChoiceAll(y, z, false, kids, w);
      case Condition =>
        assert n in Nodes(kids) + {n};
        if kids.More? {
          SameChoice(y, z, kids.node, kids.kids, w);
        }
      case Action =>
        assert n in Nodes(kids) + {n};
    }
  }

  lemma {:induction false} SameChoiceAll<W>(y: set<Node>, z: set<Node>, stop: bool, f: Forest, w: W)
    requires forall m :: m in Nodes(f) ==> (m in y <==> m in z)
    ensures EvalAll(Fixed(y), stop, f, w) == EvalAll(Fixed(z), stop, f, w)
    decreases f, 0
  {
    if f.More? {
      SameChoice(y, z, f.node, f.kids, w);
      var r := EvalNode(Fixed(y), f.node, f.kids, w);
      if !Decided(r, stop) {
        SameChoiceAll(y, z, stop, f.rest, r.world);
      }
    }
  }

  /** Whatever the tree may answer, some choice of the leaves makes it answer. */
  lemma {:induction false} Realise<W>(n: Node, kids: Forest, a: Answer, w: W) returns (yes: set<Node>)
    requires Can(n, kids, a) && n !in Nodes(kids) && Separate(kids)
    ensures yes <= Nodes(kids) + {n} && EvalNode(Fixed(yes), n, kids, w) == ResultFor(a, w)
    decreases kids, 1
  {
    match n.kind {
      case Select =>
        yes := RealiseAll(true, kids, a, w);
      case Sequence =>
        yes := RealiseAll(false, kids, a, w);
      case Condition =>
        if a == No {
          yes := {};
        } else if kids.Empty? {
          yes := {n};
        } else {
          var below := Realise(kids.node, kids.kids, a, w);
          yes := below + {n};
          SameChoice(below, yes, kids.node, kids.kids, w);
        }
      case Action =>
        yes := if a == Yes then {n} else {};
    }
  }

  lemma {:induction false} RealiseAll<W>(stop: bool, f: Forest, a: Answer, w: W) returns (yes: set<Node>)
    requires CanAll(stop, f, a) && Separate(f)
    ensures yes <= Nodes(f) && EvalAll(Fixed(yes), stop, f, w) == ResultFor(a, w)
    decreases f, 0
  {
    if f.Empty? {
      yes := {};
    } else if a != AnswerFor(!stop) && Can(f.node, f.kids, a) {
      yes := Realise(f.node, f.kids, a, w);
    } else {
      var first := Realise(f.node, f.kids, AnswerFor(!stop), w);
      var rest := RealiseAll(stop, f.rest, a, w);
      yes := first + rest;
      SameChoice(first, yes, f.node, f.kids, w);
      SameChoiceAll(rest, yes, stop, f.rest, w);
    }
  }

  /** A tree calls a missing child under some leaves exactly when its shape lets a condition without a child be
      reached. */
  lemma CrashesExactly<W>(n: Node, kids: Forest, w: W)
    requires n !in Nodes(kids) && Separate(kids)
    ensures (exists x: Leaves<W> :: EvalNode(x, n, kids, w).NullChild?) <==> Can(n, kids, Crash)
  {
    if x: Leaves<W> :| EvalNode(x, n, kids, w).NullChild? {
      OutcomeCan(x, n, kids, w);
    }
    if Can(n, kids, Crash) {
      var yes := Realise(n, kids, Crash, w);
      assert EvalNode(Fixed<W>(yes), n, kids, w).NullChild?;
    }
  }
}
