/** What the chain notation promises: the written tree is the tree that is built, and destroying it deletes every
    node once, children first. */
module BehaviorTrees {
  import opened Behaviors
  import opened Sequences

  /** The children below a node, each with the children below it. */
  datatype Forest = Empty | More(node: Node, kids: Forest, rest: Forest)

  /** The chain that spells the forest: `< node ... > 0` for each child. */
  function Word(f: Forest): seq<Token> {
    if f.Empty? then [] else [Push(f.node)] + Word(f.kids) + [Pop] + Word(f.rest)
  }

  function Roots(f: Forest): seq<Node> {
    if f.Empty? then [] else [f.node] + Roots(f.rest)
  }

  function Nodes(f: Forest): set<Node> {
    if f.Empty? then {} else {f.node} + Nodes(f.kids) + Nodes(f.rest)
  }

  /** No node occurs twice. */
  predicate Separate(f: Forest) {
    f.More? ==>
      && f.node !in Nodes(f.kids) && f.node !in Nodes(f.rest) && Nodes(f.kids) !! Nodes(f.rest)
      && Separate(f.kids) && Separate(f.rest)
  }

  predicate Room(n: Node, f: Forest) {
    Single(n) ==> |Roots(f)| <= 1
  }

  /** Every single node has at most one child. */
  predicate Shaped(f: Forest) {
    f.More? ==> Room(f.node, f.kids) && Shaped(f.kids) && Shaped(f.rest)
  }

  /** `f` hangs below `p`, with children in order and every parent link right. */
  ghost predicate Hangs(a: Arena, p: Node, f: Forest) {
    f.More? ==>
      && f.node in a && a[f.node] == Rec(Roots(f.kids), p)
      && Hangs(a, f.node, f.kids) && Hangs(a, p, f.rest)
  }

  ghost predicate IsTree(a: Arena, root: Node, f: Forest) {
    root in a && a[root].kids == Roots(f) && Hangs(a, root, f)
  }

  /** Nodes fresh from their constructors, as far as the chain looks at them. */
  ghost predicate Blank(a: Arena, f: Forest) {
    forall n :: n in Nodes(f) ==> n in a && a[n].kids == []
  }

  ghost predicate SameBut(a: Arena, b: Arena, changed: set<Node>) {
    a.Keys == b.Keys && forall n :: n in a && n !in changed ==> b[n] == a[n]
  }

  // ---- chains ----

  lemma {:induction false} WordRunnable(b: Builder, f: Forest)
    requires Closed(b.arena) && b.cursor in b.arena && Nodes(f) <= b.arena.Keys
    ensures Runnable(b, Word(f))
  {
    if f.More? {
      WordRunnable(b, f.kids);
      WordRunnable(b, f.rest);
    }
  }

  lemma {:induction false} RunJoins(b: Builder, v: seq<Token>, w: seq<Token>)
    requires Runnable(b, v + w)
    ensures Runnable(b, v) && Runnable(Run(b, v), w) && Run(b, v + w) == Run(Run(b, v), w)
    decreases |v|
  {
    assert forall i :: 0 <= i < |v| ==> (v + w)[i] == v[i];
    if v == [] {
      assert v + w == w;
    } else {
      StepRunnable(b, v + w);
      assert (v + w)[1..] == v[1..] + w;
      RunJoins(Step(b, v[0]), v[1..], w);
    }
  }

  /** A chain for one child: down, its own children, up, its siblings. */
  lemma RunChild(b: Builder, f: Forest)
    requires f.More? && Runnable(b, Word(f))
    ensures f.node in b.arena
    ensures var d := Step(b, Push(f.node));
            && Runnable(d, Word(f.kids))
            && var u := Run(d, Word(f.kids));
            && Runnable(Step(u, Pop), Word(f.rest))
            && Run(b, Word(f)) == Run(Step(u, Pop), Word(f.rest))
  {
    RunAround(b, f.node, Word(f.kids), Word(f.rest));
  }

  lemma RunAround(b: Builder, c: Node, v: seq<Token>, z: seq<Token>)
    requires Runnable(b, [Push(c)] + v + [Pop] + z)
    ensures c in b.arena
    ensures var d := Step(b, Push(c));
            && Runnable(d, v)
            && var u := Run(d, v);
            && Runnable(Step(u, Pop), z)
            && Run(b, [Push(c)] + v + [Pop] + z) == Run(Step(u, Pop), z)
  {
    Regroup([Push(c)], v, [Pop] + z);
    assert [Push(c)] + v + [Pop] + z == [Push(c)] + v + ([Pop] + z);
    RunFirst(b, Push(c), v + ([Pop] + z));
    var d := Step(b, Push(c));
    RunJoins(d, v, [Pop] + z);
    RunFirst(Run(d, v), Pop, z);
  }

  lemma RunFirst(b: Builder, t: Token, w: seq<Token>)
    requires Runnable(b, [t] + w)
    ensures t.Push? ==> t.node in b.arena
    ensures Runnable(Step(b, t), w) && Run(b, [t] + w) == Run(Step(b, t), w)
  {
    StepRunnable(b, [t] + w);
    assert ([t] + w)[1..] == w;
  }

  // ---- building ----

  lemma {:induction false} HangsFrame(a: Arena, b: Arena, p: Node, f: Forest)
    requires Hangs(a, p, f) && forall n :: n in Nodes(f) && n in a ==> n in b && b[n] == a[n]
    ensures Hangs(b, p, f)
  {
    if f.More? {
      HangsFrame(a, b, f.node, f.kids);
      HangsFrame(a, b, p, f.rest);
    }
  }

  /** What a chain leaves behind, from any cursor. */
  ghost predicate Built(a: Arena, b: Builder, p: Node, f: Forest)
    requires p in a
  {
    && b.cursor == p && p in b.arena && Closed(b.arena)
    && b.arena[p] == a[p].(kids := a[p].kids + Roots(f))
    && Hangs(b.arena, p, f)
    && SameBut(a, b.arena, Nodes(f) + {p})
  }

  /** Moving down to a blank child, where there is room for it. */
  lemma BuildDown(a: Arena, p: Node, f: Forest)
    requires Closed(a) && p in a && f.More? && p !in Nodes(f) && Separate(f) && Blank(a, f)
    requires Single(p) ==> a[p].kids == []
    ensures var (a1, n) := (Down(a, p, f.node).arena, f.node);
            && Down(a, p, n).cursor == n && Closed(a1) && SameBut(a, a1, {p, n})
            && a1[n] == Rec([], p) && a1[p] == a[p].(kids := a[p].kids + [n])
            && Blank(a1, f.kids)
  {
    assert f.node in Nodes(f);
    assert Nodes(f.kids) <= Nodes(f);
  }

  /** Back above the child, its own children built, its siblings still blank. */
  lemma BuildUp(a: Arena, a1: Arena, b2: Builder, p: Node, f: Forest)
    requires f.More? && p in a && p !in Nodes(f) && Separate(f) && Blank(a, f)
    requires SameBut(a, a1, {p, f.node}) && f.node in a1
    requires a1[f.node] == Rec([], p) && a1[p] == a[p].(kids := a[p].kids + [f.node])
    requires Built(a1, b2, f.node, f.kids)
    ensures Step(b2, Pop) == Builder(b2.arena, p)
    ensures b2.arena[p] == a1[p] && b2.arena[f.node] == Rec(Roots(f.kids), p)
    ensures Blank(b2.arena, f.rest) && SameBut(a, b2.arena, {p, f.node} + Nodes(f.kids))
  {
    assert [] + Roots(f.kids) == Roots(f.kids);
    assert Nodes(f.rest) <= Nodes(f);
    assert forall n :: n in Nodes(f.rest) ==> n !in Nodes(f.kids) && n != f.node;
  }

  lemma BuildJoined(a: Arena, a2: Arena, b3: Builder, p: Node, f: Forest)
    requires f.More? && p in a && p !in Nodes(f) && Separate(f)
    requires f.node in a2 && a2[f.node] == Rec(Roots(f.kids), p) && Hangs(a2, f.node, f.kids)
    requires p in a2 && a2[p] == a[p].(kids := a[p].kids + [f.node])
    requires SameBut(a, a2, {p, f.node} + Nodes(f.kids))
    requires Built(a2, b3, p, f.rest)
    ensures Built(a, b3, p, f)
  {
    HangsFrame(a2, b3.arena, f.node, f.kids);
    assert a[p].kids + [f.node] + Roots(f.rest) == a[p].kids + Roots(f);
  }

  lemma {:induction false} Build(a: Arena, p: Node, f: Forest)
    requires Closed(a) && p in a && p !in Nodes(f) && Separate(f) && Blank(a, f) && Shaped(f)
    requires Single(p) ==> |a[p].kids| + |Roots(f)| <= 1
    ensures Runnable(Builder(a, p), Word(f)) && Built(a, Run(Builder(a, p), Word(f)), p, f)
  {
    WordRunnable(Builder(a, p), f);
    if f.Empty? {
      assert a[p].kids + [] == a[p].kids;
    } else {
      RunChild(Builder(a, p), f);
      BuildDown(a, p, f);
      var a1 := Down(a, p, f.node).arena;
      Build(a1, f.node, f.kids);
      var b2 := Run(Builder(a1, f.node), Word(f.kids));
      BuildUp(a, a1, b2, p, f);
      Build(b2.arena, p, f.rest);
      BuildJoined(a, b2.arena, Run(Builder(b2.arena, p), Word(f.rest)), p, f);
    }
  }

  // ---- what a chain can never build ----

  ghost predicate OneChild(a: Arena) {
    forall n :: n in a && Single(n) ==> |a[n].kids| <= 1
  }

  lemma {:induction false} RunKeepsOneChild(b: Builder, word: seq<Token>)
    requires Runnable(b, word) && OneChild(b.arena)
    ensures OneChild(Run(b, word).arena)
    decreases |word|
  {
    if word != [] {
      StepRunnable(b, word);
      assert OneChild(Step(b, word[0]).arena);
      RunKeepsOneChild(Step(b, word[0]), word[1..]);
    }
  }

  lemma {:induction false} OneChildShapes(a: Arena, p: Node, f: Forest)
    requires OneChild(a) && Hangs(a, p, f)
    ensures Shaped(f)
  {
    if f.More? {
      OneChildShapes(a, f.node, f.kids);
      OneChildShapes(a, p, f.rest);
    }
  }

  /** Round trip of the chain notation on fresh nodes. The chain builds the tree it spells, and nothing else moves,
      exactly when no single node is given a second child; the cursor then is back at the root. */
  lemma BuilderRoundTrip(a: Arena, root: Node, f: Forest)
    requires Closed(a) && OneChild(a) && root in a && root !in Nodes(f) && Separate(f)
    requires a[root].kids == [] && Blank(a, f)
    ensures Runnable(Builder(a, root), Word(f))
    ensures var b := Run(Builder(a, root), Word(f));
            && (IsTree(b.arena, root, f) <==> Room(root, f) && Shaped(f))
            && (Room(root, f) && Shaped(f) ==>
                  b.cursor == root && b.arena[root].parent == a[root].parent && SameBut(a, b.arena, Nodes(f) + {root}))
  {
    WordRunnable(Builder(a, root), f);
    var b := Run(Builder(a, root), Word(f));
    if Room(root, f) && Shaped(f) {
      Build(a, root, f);
      assert [] + Roots(f) == Roots(f);
    } else {
      RunKeepsOneChild(Builder(a, root), Word(f));
      if IsTree(b.arena, root, f) {
        OneChildShapes(b.arena, root, f);
      }
    }
  }

  /** A child a single node refuses keeps the cursor: `>` does not leave it, so what follows hangs below the orphan. */
  lemma RefusedChildKeepsCursor(a: Arena, p: Node, c: Node)
    requires p in a && c in a && !CanTake(p, a[p].kids, c) && a[c].parent == null
    ensures Step(Step(Builder(a, p), Push(c)), Pop) == Builder(a, c)
  {
  }

  /** The child it already has, a single node takes again: only the parent link is written, the cursor moves down. */
  lemma SameChildAgain(a: Arena, p: Node, c: Node)
    requires p in a && c in a && Single(p) && a[p].kids == [c]
    ensures Step(Builder(a, p), Push(c)) == Builder(a[c := a[c].(parent := p)], c)
  {
    assert a[p := a[p].(kids := [c])] == a;
  }

  /** The links say which tree it is. */
  lemma {:induction false} TreeUnique(a: Arena, p: Node, f: Forest, g: Forest)
    requires Hangs(a, p, f) && Hangs(a, p, g) && Roots(f) == Roots(g)
    ensures f == g
  {
    if f.More? && g.More? {
      assert Roots(f)[0] == Roots(g)[0] && Roots(f)[1..] == Roots(f.rest) && Roots(g)[1..] == Roots(g.rest);
      TreeUnique(a, f.node, f.kids, g.kids);
      TreeUnique(a, p, f.rest, g.rest);
    }
  }

  // ---- destroying ----

  function PostOrder(f: Forest): seq<Node> {
    if f.Empty? then [] else PostOrder(f.kids) + [f.node] + PostOrder(f.rest)
  }

  lemma {:induction false} PostOrderNodes(f: Forest, n: Node)
    ensures n in PostOrder(f) <==> n in Nodes(f)
  {
    if f.More? {
      PostOrderNodes(f.kids, n);
      PostOrderNodes(f.rest, n);
    }
  }

  ghost predicate Disjoint(x: seq<Node>, y: seq<Node>) {
    forall i, j :: 0 <= i < |x| && 0 <= j < |y| ==> x[i] != y[j]
  }

  /** The three parts of a post-order share no node. */
  lemma PostOrderParts(f: Forest)
    requires f.More? && Separate(f)
    ensures Disjoint(PostOrder(f.kids), PostOrder(f.rest))
    ensures f.node !in PostOrder(f.kids) && f.node !in PostOrder(f.rest)
  {
    var x, y := PostOrder(f.kids), PostOrder(f.rest);
    forall i, j | 0 <= i < |x| && 0 <= j < |y|
      ensures x[i] != y[j]
    {
      PostOrderNodes(f.kids, x[i]);
      PostOrderNodes(f.rest, y[j]);
    }
    PostOrderNodes(f.kids, f.node);
    PostOrderNodes(f.rest, f.node);
  }

  lemma DistinctJoin(x: seq<Node>, n: Node, y: seq<Node>)
    requires Distinct(x) && Distinct(y) && Disjoint(x, y) && n !in x && n !in y
    ensures Distinct(x + [n] + y)
  {
  }

  /** Every node once ... */
  lemma {:induction false} PostOrderOnce(f: Forest)
    requires Separate(f)
    ensures Distinct(PostOrder(f))
  {
    if f.More? {
      PostOrderOnce(f.kids);
      PostOrderOnce(f.rest);
      PostOrderParts(f);
      DistinctJoin(PostOrder(f.kids), f.node, PostOrder(f.rest));
    }
  }

  lemma {:induction false} RootsAreNodes(f: Forest, n: Node)
    ensures n in Roots(f) ==> n in Nodes(f)
  {
    if f.More? {
      RootsAreNodes(f.rest, n);
    }
  }

  lemma {:induction false} KidsWithin(a: Arena, p: Node, f: Forest, n: Node, m: Node)
    requires Hangs(a, p, f) && n in Nodes(f) && n in a && m in a[n].kids
    ensures m in Nodes(f)
  {
    if n == f.node {
      RootsAreNodes(f.kids, m);
    } else if n in Nodes(f.kids) {
      KidsWithin(a, f.node, f.kids, n, m);
    } else {
      KidsWithin(a, p, f.rest, n, m);
    }
  }

  /** Whatever is a child of a node of `s` stands before it. */
  ghost predicate ChildrenFirst(a: Arena, s: seq<Node>) {
    forall i, j :: 0 <= i < |s| && 0 <= j < |s| && s[j] in a && s[i] in a[s[j]].kids ==> i < j
  }

  /** ... and children before their parent. */
  lemma {:induction false} PostOrderChildrenFirst(a: Arena, p: Node, f: Forest)
    requires Separate(f) && Hangs(a, p, f)
    ensures ChildrenFirst(a, PostOrder(f))
  {
    if f.More? {
      PostOrderChildrenFirst(a, f.node, f.kids);
      PostOrderChildrenFirst(a, p, f.rest);
      var x, y, s := PostOrder(f.kids), PostOrder(f.rest), PostOrder(f);
      var k := |x|;
      assert s[k] == f.node;
      forall i, j | 0 <= i < |s| && 0 <= j < |s| && s[j] in a && s[i] in a[s[j]].kids
        ensures i < j
      {
        PostOrderNodes(f.kids, s[i]);
        PostOrderNodes(f.rest, s[i]);
        PostOrderNodes(f.kids, s[j]);
        PostOrderNodes(f.rest, s[j]);
        if j < k {
          assert s[j] == x[j];
          KidsWithin(a, f.node, f.kids, s[j], s[i]);
        } else if j == k {
          RootsAreNodes(f.kids, s[i]);
        } else {
          assert s[j] == y[j - k - 1];
          KidsWithin(a, p, f.rest, s[j], s[i]);
        }
        if i > k {
          assert s[i] == y[i - k - 1];
        } else if i < k {
          assert s[i] == x[i];
        }
      }
    }
  }

  function Size(f: Forest): nat {
    if f.Empty? then 0 else 1 + Size(f.kids) + Size(f.rest)
  }

  ghost predicate Untouched(f: Forest, gone: seq<Node>) {
    forall m :: m in Nodes(f) ==> m !in gone
  }

  /** With the first child of `g` and everything below it gone, the rest of `g` is still untouched. */
  lemma FirstGone(g: Forest, order: seq<Node>, m: Node)
    requires g.More? && Separate(g) && Untouched(g, order) && m !in order && m !in Nodes(g)
    ensures var order' := order + PostOrder(g.kids) + [g.node];
            && Untouched(g.rest, order') && m !in order'
            && order' + PostOrder(g.rest) == order + PostOrder(g)
  {
    var x := PostOrder(g.kids);
    forall n | n in Nodes(g.rest)
      ensures n !in order + x + [g.node]
    {
      PostOrderNodes(g.kids, n);
      StillLive(order, x, g.node, n);
    }
    PostOrderNodes(g.kids, m);
    StillLive(order, x, g.node, m);
    FourPieces(order, x, [g.node], PostOrder(g.rest));
  }

  lemma StillLive(s: seq<Node>, x: seq<Node>, c: Node, n: Node)
    requires n !in s && n !in x && n != c
    ensures n !in s + x + [c]
  {
  }

  lemma FourPieces(s: seq<Node>, x: seq<Node>, y: seq<Node>, z: seq<Node>)
    ensures s + x + y + z == s + (x + y + z)
  {
  }

  /** `destory`. `gone` are the nodes deleted so far; none of them is looked at again. */
  method Destory(n: Node, gone: seq<Node>, ghost a: Arena, ghost f: Forest) returns (order: seq<Node>)
    requires a == Snap(a.Keys) && IsTree(a, n, f) && n !in Nodes(f) && Separate(f)
    requires n !in gone && Untouched(f, gone)
    ensures order == gone + PostOrder(f) + [n]
    decreases Size(f)
  {
    order := gone;
    if Single(n) {
      if n.child != null {
        assert Roots(f)[0] == n.child && Roots(f)[1..] == Roots(f.rest) == [];
        order := Destory(n.child, order, a, f.kids);
        FirstGone(f, gone, n);
      }
    } else {
      ghost var g := f;
      var i := 0;
      while i < |n.children|
        invariant i <= |n.children| && Roots(g) == n.children[i..]
        invariant Hangs(a, n, g) && Separate(g) && Size(g) <= Size(f)
        invariant n !in Nodes(g) && n !in order && Untouched(g, order)
        invariant order + PostOrder(g) == gone + PostOrder(f)
      {
        assert n.children[i..][0] == g.node && n.children[i..][1..] == n.children[i + 1..];
        assert Untouched(g.kids, order);
        ghost var was := order;
        order := Destory(n.children[i], order, a, g.kids);
        FirstGone(g, was, n);
        g, i := g.rest, i + 1;
      }
      assert order + [] == order;
    }
    order := order + [n];
  }
}
