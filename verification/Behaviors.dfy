/** Behaviour trees and the chain notation that builds them: `<` hangs a node below the cursor and moves down,
    `>` moves up. */
module Behaviors {

  datatype Kind = Select | Sequence | Condition | Action

  /** A node as it comes from its default constructor, and the calls that link nodes. Composite nodes use `children`,
      single ones `child`. */
  class Node {
    const kind: Kind
    var children: seq<Node>
    var child: Node?
    var parent: Node?

    constructor (k: Kind)
      ensures kind == k && Kids(this) == [] && parent == null
    {
      kind, children, child, parent := k, [], null, null;
    }

    method AddChild(c: Node) returns (ok: bool)
      modifies this, c
      ensures ok == CanTake(this, old(Kids(this)), c)
      ensures Kids(this) == if ok then Taken(this, old(Kids(this)), c) else old(Kids(this))
      ensures c.parent == if ok then this else old(c.parent)
      ensures c != this ==> Kids(c) == old(Kids(c)) && parent == old(parent)
    {
      if Single(this) {
        if child != null && child != c {
          return false;
        }
        child := c;
      } else {
        children := children + [c];
      }
      c.parent := this;
      return true;
    }

    /** `<`: whether the child was taken is not looked at. */
    method AddChildPtr(c: Node, ghost world: set<Node>) returns (cursor: Node)
      requires this in world && c in world
      modifies this, c
      ensures Builder(Snap(world), cursor) == Down(old(Snap(world)), this, c)
    {
      var _ := AddChild(c);
      return c;
    }

    /** `>`. */
    method Back(ghost world: set<Node>) returns (cursor: Node)
      requires this in world
      ensures cursor == Up(Snap(world), this)
    {
      return if parent != null then parent else this;
    }
  }

  predicate Single(n: Node) {
    n.kind == Condition || n.kind == Action
  }

  function Kids(n: Node): seq<Node>
    reads n
  {
    if !Single(n) then n.children else if n.child == null then [] else [n.child]
  }

  // ---- the same on values ----

  datatype Rec = Rec(kids: seq<Node>, parent: Node?)

  type Arena = map<Node, Rec>

  ghost function Snap(world: set<Node>): (a: Arena)
    reads world
  {
    map n | n in world :: Rec(Kids(n), n.parent)
  }

  datatype Builder = Builder(arena: Arena, cursor: Node)

  datatype Token = Push(node: Node) | Pop

  /** A single node takes a child if it has none or has this very one. */
  predicate CanTake(p: Node, kids: seq<Node>, c: Node) {
    Single(p) ==> kids == [] || kids == [c]
  }

  function Taken(p: Node, kids: seq<Node>, c: Node): seq<Node> {
    if Single(p) then [c] else kids + [c]
  }

  ghost function Down(a: Arena, p: Node, c: Node): Builder
    requires p in a && c in a
  {
    if CanTake(p, a[p].kids, c) then
      var a1 := a[p := a[p].(kids := Taken(p, a[p].kids, c))];
      Builder(a1[c := a1[c].(parent := p)], c)
    else
      Builder(a, c)
  }

  ghost function Up(a: Arena, p: Node): Node
    requires p in a
  {
    if a[p].parent != null then a[p].parent else p
  }

  ghost function Step(b: Builder, t: Token): Builder
    requires b.cursor in b.arena && (t.Push? ==> t.node in b.arena)
  {
    match t
    case Push(c) => Down(b.arena, b.cursor, c)
    case Pop => Builder(b.arena, Up(b.arena, b.cursor))
  }

  /** No link leaves the arena. */
  ghost predicate Closed(a: Arena) {
    forall n :: n in a && a[n].parent != null ==> a[n].parent in a
  }

  ghost predicate Runnable(b: Builder, word: seq<Token>) {
    && Closed(b.arena) && b.cursor in b.arena
    && (forall i :: 0 <= i < |word| && word[i].Push? ==> word[i].node in b.arena)
  }

  lemma StepRunnable(b: Builder, word: seq<Token>)
    requires Runnable(b, word) && word != []
    ensures (word[0].Push? ==> word[0].node in b.arena)
    ensures Runnable(Step(b, word[0]), word[1..]) && Step(b, word[0]).arena.Keys == b.arena.Keys
  {
    assert forall i :: 0 <= i < |word| - 1 ==> word[1..][i] == word[i + 1];
  }

  /** A whole chain, left to right. */
  ghost function Run(b: Builder, word: seq<Token>): (r: Builder)
    requires Runnable(b, word)
    ensures r.cursor in r.arena && Closed(r.arena) && r.arena.Keys == b.arena.Keys
    decreases |word|
  {
    if word == [] then b
    else
      StepRunnable(b, word);
      Run(Step(b, word[0]), word[1..])
  }

  /** The chain on the heap. */
  method Replay(root: Node, word: seq<Token>, ghost world: set<Node>) returns (cursor: Node)
    requires Runnable(Builder(Snap(world), root), word)
    modifies world
    ensures Builder(Snap(world), cursor) == Run(Builder(old(Snap(world)), root), word)
    decreases |word|
  {
    if word == [] {
      return root;
    }
    StepRunnable(Builder(Snap(world), root), word);
    var next: Node;
    match word[0] {
      case Push(c) =>
        next := root.AddChildPtr(c, world);
      case Pop =>
        next := root.Back(world);
    }
    cursor := Replay(next, word[1..], world);
  }
}
