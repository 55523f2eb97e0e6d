/** What a behaviour tree means: when it succeeds, and which conditions and actions it runs, in which order. */
module BehaviorMeaning {
  import opened Sequences
  import opened Behaviors
  import opened BehaviorTrees
  import opened BehaviorRuns

  /** Truth, apart from any run, given the conditions that hold and the actions that succeed: a selection is true if
      some child is, a sequence if every child is, a condition if it holds and its child is true. */
  predicate Truth(yes: set<Node>, n: Node, kids: Forest)
    decreases kids, 1
  {
    match n.kind
    case Select => SomeTrue(yes, kids)
    case Sequence => EveryTrue(yes, kids)
    case Condition => n in yes && kids.More? && Truth(yes, kids.node, kids.kids)
    case Action => n in yes
  }

  predicate SomeTrue(yes: set<Node>, f: Forest)
    decreases f, 0
  {
    f.More? && (Truth(yes, f.node, f.kids) || SomeTrue(yes, f.rest))
  }

  predicate EveryTrue(yes: set<Node>, f: Forest)
    decreases f, 0
  {
    f.More? ==> Truth(yes, f.node, f.kids) && EveryTrue(yes, f.rest)
  }

  /** The conditions judged and the actions run, in order: under a selection the children up to the first true one,
      under a sequence up to the first that is not, under a condition its child only if it holds. */
  function Reached(yes: set<Node>, n: Node, kids: Forest): seq<Node>
    decreases kids, 1
  {
    match n.kind
    case Select => ReachedUntil(yes, true, kids)
    case Sequence => ReachedUntil(yes, false, kids)
    case Condition => [n] + if n in yes && kids.More? then Reached(yes, kids.node, kids.kids) else []
    case Action => [n]
  }

  function ReachedUntil(yes: set<Node>, stop: bool, f: Forest): seq<Node>
    decreases f, 0
  {
    if f.Empty? then []
    else
      Reached(yes, f.node, f.kids) + if Truth(yes, f.node, f.kids) == stop then [] else ReachedUntil(yes, stop, f.rest)
  }

  /** Leaves that answer by a fixed choice and write themselves down. */
  ghost function Recording(yes: set<Node>): Leaves<seq<Node>> {
    Leaves((n, w) => (n in yes, w + [n]), (n, w) => (n in yes, w + [n]))
  }

  /** A run answers the truth of the tree, and has run exactly what is reached, in that order. */
  lemma {:induction false} RunMeans(yes: set<Node>, n: Node, kids: Forest, w: seq<Node>)
    requires Guarded(n, kids)
    ensures EvalNode(Recording(yes), n, kids, w) == Ran(Truth(yes, n, kids), w + Reached(yes, n, kids))
    decreases kids, 1
  {
    match n.kind {
      case Select => RunAllMeans(yes, true, kids, w);
      case Sequence => RunAllMeans(yes, false, kids, w);
      case Condition =>
        assert [n] + [] == [n];
        if n in yes {
          RunMeans(yes, kids.node, kids.kids, w + [n]);
          Regroup(w, [n], Reached(yes, kids.node, kids.kids));
        }
      case Action =>
    }
  }

  lemma {:induction false} RunAllMeans(yes: set<Node>, stop: bool, f: Forest, w: seq<Node>)
    requires AllGuarded(f)
    ensures EvalAll(Recording(yes), stop, f, w) ==
              Ran(if stop then SomeTrue(yes, f) else EveryTrue(yes, f), w + ReachedUntil(yes, stop, f))
    decreases f, 0
  {
    if f.Empty? {
      assert w + [] == w;
    } else {
      var first := Reached(yes, f.node, f.kids);
      RunMeans(yes, f.node, f.kids, w);
      if Truth(yes, f.node, f.kids) == stop {
        assert first + [] == first;
      } else {
        RunAllMeans(yes, stop, f.rest, w + first);
        Regroup(w, first, ReachedUntil(yes, stop, f.rest));
      }
    }
  }

  /** The answer alone, whatever the leaves do to the table. */
  lemma {:induction false} AnswerIsTruth<W>(yes: set<Node>, n: Node, kids: Forest, w: W)
    requires Guarded(n, kids)
    ensures EvalNode(Fixed(yes), n, kids, w) == Ran(Truth(yes, n, kids), w)
    decreases kids, 1
  {
    match n.kind {
      case Select => AllAnswerTruth(yes, true, kids, w);
      case Sequence => AllAnswerTruth(yes, false, kids, w);
      case Condition =>
        if n in yes {
          AnswerIsTruth(yes, kids.node, kids.kids, w);
        }
      case Action =>
    }
  }

  lemma {:induction false} AllAnswerTruth<W>(yes: set<Node>, stop: bool, f: Forest, w: W)
    requires AllGuarded(f)
    ensures EvalAll(Fixed(yes), stop, f, w) == Ran(if stop then SomeTrue(yes, f) else EveryTrue(yes, f), w)
    decreases f, 0
  {
    if f.More? {
      AnswerIsTruth(yes, f.node, f.kids, w);
      if Truth(yes, f.node, f.kids) != stop {
        AllAnswerTruth(yes, stop, f.rest, w);
      }
    }
  }

  // ---- what may be reached ----

  /** Every condition above `m` holds. */
  predicate Held(yes: set<Node>, n: Node, kids: Forest, m: Node)
    decreases kids, 1
  {
    m == n || ((n.kind == Condition ==> n in yes) && HeldBelow(yes, kids, m))
  }

  predicate HeldBelow(yes: set<Node>, f: Forest, m: Node)
    decreases f, 0
  {
    f.More? && if m == f.node || m in Nodes(f.kids) then Held(yes, f.node, f.kids, m) else HeldBelow(yes, f.rest, m)
  }

  /** Only nodes of the tree are reached, conditions and actions among them, and only with every condition above them
      holding. */
  lemma {:induction false} ReachedOnlyIfHeld(yes: set<Node>, n: Node, kids: Forest, m: Node)
    requires n !in Nodes(kids) && Separate(kids) && m in Reached(yes, n, kids)
    ensures m == n || m in Nodes(kids)
    ensures Single(m) && Held(yes, n, kids, m)
    decreases kids, 1
  {
    match n.kind {
      case Select => ReachedBelow(yes, true, kids, m);
      case Sequence => ReachedBelow(yes, false, kids, m);
      case Condition =>
        if m != n {
          ReachedOnlyIfHeld(yes, kids.node, kids.kids, m);
        }
      case Action =>
    }
  }

  lemma {:induction false} ReachedBelow(yes: set<Node>, stop: bool, f: Forest, m: Node)
    requires Separate(f) && m in ReachedUntil(yes, stop, f)
    ensures m in Nodes(f) && Single(m) && HeldBelow(yes, f, m)
    decreases f, 0
  {
    if m in Reached(yes, f.node, f.kids) {
      ReachedOnlyIfHeld(yes, f.node, f.kids, m);
    } else {
      ReachedBelow(yes, stop, f.rest, m);
    }
  }

  // ---- one node, whatever its leaves do ----

  /** A condition on any table: what judging does to the table is kept; if it does not hold, that is all; if it does,
      the child runs on that table, and a missing one is called. */
  lemma ConditionMeans<W>(x: Leaves<W>, n: Node, kids: Forest, w: W)
    requires n.kind == Condition
    ensures !x.judge(n, w).0 ==> EvalNode(x, n, kids, w) == Ran(false, x.judge(n, w).1)
    ensures x.judge(n, w).0 && kids.Empty? ==> EvalNode(x, n, kids, w).NullChild?
    ensures x.judge(n, w).0 && kids.More? ==>
              EvalNode(x, n, kids, w) == EvalNode(x, kids.node, kids.kids, x.judge(n, w).1)
  {
  }
}
