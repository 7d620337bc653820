/** The red-black conditions of include/libuv/uv/tree.h, on shapes and on paths. */
module RbBalance {
  import opened RbOrder
  import opened RbShape
  import opened Sides

  /** Black nodes on the leftmost way down. */
  function Rank(t: Tree): nat {
    if t.Leaf? then 0 else Rank(t.left) + (if t.c.Black? then 1 else 0)
  }

  predicate BlackRoot(t: Tree) {
    t.Node? ==> t.c.Black?
  }

  /** Every way down meets the same number of black nodes, and no red node has a red child. */
  predicate Fine(t: Tree) {
    t.Node? ==>
      && Fine(t.left) && Fine(t.right) && Rank(t.left) == Rank(t.right)
      && (t.c.Red? ==> BlackRoot(t.left) && BlackRoot(t.right))
  }

  /** The conditions everywhere along a path whose place is to receive a tree of rank k. */
  predicate PathFine(p: Path, k: nat) {
    p.Step? ==>
      && Fine(p.sib) && Rank(p.sib) == k
      && (p.c.Red? ==> BlackRoot(p.sib) && BlackTop(p.up) && p.up.Step?)
      && PathFine(p.up, if p.c.Black? then k + 1 else k)
  }

  /** The node above the place, if any, is black. */
  predicate BlackTop(p: Path) {
    p.Step? ==> p.c.Black?
  }

  lemma {:induction false} PlugFine(p: Path, t: Tree)
    ensures Fine(Plug(p, t)) && BlackRoot(Plug(p, t))
       <==> Fine(t) && PathFine(p, Rank(t)) && (BlackRoot(t) || (p.Step? && p.c.Black?))
    decreases p
  {
    if p.Step? {
      PlugFine(p.up, Mk(p.side, t, p.e, p.c, p.sib));
    }
  }

  function Depth(p: Path): nat {
    if p.Top? then 0 else 1 + Depth(p.up)
  }

  /** The state of RB_INSERT_COLOR: the tree at p is red on top and fine, so is the path except
      that its last node may be red as well. */
  ghost predicate RedAt(p: Path, t: Tree) {
    t.Node? && t.c.Red? && Fine(t) && PathFine(p, Rank(t))
  }

  lemma {:induction false} Missing(p: Path, elm: Elem)
    requires Sorted(InOrder(Plug(p, Leaf))) && Fine(Plug(p, Leaf)) && BlackRoot(Plug(p, Leaf)) && Brackets(p, elm.key)
    ensures Sorted(InOrder(Plug(p, Node(Leaf, elm, Red, Leaf))))
    ensures RedAt(p, Node(Leaf, elm, Red, Leaf))
    ensures forall n :: n in Elems(Plug(p, Leaf)) ==> n.key != elm.key
  {
    PlugInOrder(p, Leaf);
    PlugInOrder(p, Node(Leaf, elm, Red, Leaf));
    PlugFine(p, Leaf);
    assert InOrder(Plug(p, Leaf)) == Before(p) + After(p);
    Amid(Before(p), elm, After(p));
    assert InOrder(Node(Leaf, elm, Red, Leaf)) == [elm];
    forall n | n in Elems(Plug(p, Leaf)) ensures n.key != elm.key {
      InOrderElems(Plug(p, Leaf), n);
    }
  }

  /** The subtree at the grandparent's place after the red has moved up to it. */
  function Pushed(p: Path, t: Tree): Tree
    requires p.Step? && p.up.Step? && p.up.sib.Node?
  {
    Mk(p.up.side, Mk(p.side, t, p.e, Black, p.sib), p.up.e, Red, p.up.sib.(c := Black))
  }

  lemma {:induction false} PushedKeeps(p: Path, t: Tree)
    requires RedAt(p, t) && p.Step? && p.c.Red? && p.up.Step? && p.up.sib.Node? && p.up.sib.c.Red?
    ensures RedAt(p.up.up, Pushed(p, t))
    ensures InOrder(Plug(p.up.up, Pushed(p, t))) == InOrder(Plug(p, t))
  {
    var q := p.up;
    var P := Mk(p.side, t, p.e, p.c, p.sib);
    var P', U := Mk(p.side, t, p.e, Black, p.sib), q.sib.(c := Black);
    assert PathFine(q, Rank(t)) && Fine(P') && Fine(U) && Rank(P') == Rank(U) == Rank(t) + 1;
    assert InOrder(P) == InOrder(P');
    SameOrder(q.up, Mk(q.side, P, q.e, q.c, q.sib), Pushed(p, t));
  }

  /** The place of the parent after it has been rotated below elm. */
  function StraightPath(p: Path, t: Tree): Path
    requires p.Step? && p.up.Step? && t.Node?
  {
    Step(p.up.side, t.e, t.c, Far(p.up.side, t), p.up)
  }

  function StraightTree(p: Path, t: Tree): Tree
    requires p.Step? && p.up.Step? && t.Node?
  {
    Mk(p.up.side, p.sib, p.e, p.c, Near(p.up.side, t))
  }

  lemma {:induction false} StraightKeeps(p: Path, t: Tree)
    requires RedAt(p, t) && p.Step? && p.c.Red? && p.up.Step? && p.side != p.up.side
    ensures RedAt(StraightPath(p, t), StraightTree(p, t)) && Depth(StraightPath(p, t)) == Depth(p)
    ensures var P := Mk(p.side, t, p.e, p.c, p.sib);
      && Far(p.up.side, P) == t
      && Plug(p.up, Rotated(p.up.side, P)) == Plug(StraightPath(p, t), StraightTree(p, t))
    ensures InOrder(Plug(StraightPath(p, t), StraightTree(p, t))) == InOrder(Plug(p, t))
  {
    var P := Mk(p.side, t, p.e, p.c, p.sib);
    SameOrder(p.up, P, Rotated(p.up.side, P));
  }

  /** The path above elm after the parent has taken the grandparent's place. */
  function Settled(p: Path): Path
    requires p.Step? && p.up.Step?
  {
    Step(p.side, p.e, Black, Mk(p.side, p.sib, p.up.e, Red, p.up.sib), p.up.up)
  }

  lemma {:induction false} SettledKeeps(p: Path, t: Tree)
    requires RedAt(p, t) && p.Step? && p.c.Red? && p.up.Step? && p.side == p.up.side && BlackRoot(p.up.sib)
    ensures RedAt(Settled(p), t) && Depth(Settled(p)) < Depth(p)
    ensures InOrder(Plug(Settled(p), t)) == InOrder(Plug(p, t))
  {
    var q := p.up;
    var G := Mk(q.side, Mk(p.side, t, p.e, p.c, p.sib), q.e, q.c, q.sib);
    var far := Mk(p.side, p.sib, q.e, Red, q.sib);
    var G' := Mk(p.side, t, p.e, Black, far);
    assert PathFine(q, Rank(t)) && Fine(far) && Rank(far) == Rank(t);
    assert InOrder(G) == InOrder(G');
    SameOrder(q.up, G, G');
  }

  lemma {:induction false} Finished(p: Path, t: Tree)
    requires RedAt(p, t) && (p.Top? || p.c.Black?)
    ensures var T := Plug(p, t); T.Node? && Fine(T.(c := Black)) && InOrder(T.(c := Black)) == InOrder(T)
    ensures RootOf(Plug(p, t)) != null
  {
    PlugFine(p, t);
    PlugRoot(p, t, t);
  }

  /** The state of RB_REMOVE_COLOR: the tree at p is fine but for the colour of its root, and the
      path wants it to have one black more. */
  ghost predicate LackAt(p: Path, t: Tree) {
    (t.Node? ==> Fine(t.(c := Black))) && PathFine(p, Rank(t) + 1)
  }

  function RoundsLeft(p: Path, t: Tree): nat {
    if BlackRoot(t) then Depth(p) + 1 else 0
  }

  /** The rebalancing of a removal never meets a missing sibling. */
  lemma {:induction false} LackSibling(p: Path, t: Tree)
    requires LackAt(p, t) && p.Step?
    ensures p.sib.Node? && Rank(p.sib) == Rank(t) + 1
  {
  }

  function Lifted(p: Path): Path
    requires p.Step? && p.sib.Node?
  {
    Step(p.side, p.e, Red, Near(p.side, p.sib), Step(p.side, p.sib.e, Black, Far(p.side, p.sib), p.up))
  }

  lemma {:induction false} LiftKeeps(p: Path, t: Tree)
    requires LackAt(p, t) && p.Step? && BlackRoot(t) && !BlackRoot(p.sib)
    ensures LackAt(Lifted(p), t) && Lifted(p).sib.Node? && Lifted(p).sib.c.Black? && Lifted(p).c.Red?
    ensures InOrder(Plug(Lifted(p), t)) == InOrder(Plug(p, t))
  {
    var s, n, f := p.side, Near(p.side, p.sib), Far(p.side, p.sib);
    var T, T' := Mk(s, t, p.e, p.c, p.sib), Mk(s, Mk(s, t, p.e, Red, n), p.sib.e, Black, f);
    assert PathFine(Step(s, p.sib.e, Black, f, p.up), Rank(t) + 1);
    assert InOrder(T) == InOrder(T');
    SameOrder(p.up, T, T');
  }

  lemma {:induction false} DrainKeeps(p: Path, t: Tree)
    requires LackAt(p, t) && p.Step? && BlackRoot(t) && p.sib.Node? && p.sib.c.Black?
    requires BlackRoot(p.sib.left) && BlackRoot(p.sib.right)
    ensures var t' := Mk(p.side, t, p.e, p.c, p.sib.(c := Red));
      && LackAt(p.up, t') && InOrder(Plug(p.up, t')) == InOrder(Plug(p, t))
      && RoundsLeft(p.up, t') <= (if p.c.Red? then 0 else Depth(p))
  {
    var T, T' := Mk(p.side, t, p.e, p.c, p.sib), Mk(p.side, t, p.e, p.c, p.sib.(c := Red));
    assert Fine(t) && Fine(p.sib.(c := Red)) && Rank(p.sib.(c := Red)) == Rank(t);
    assert InOrder(T) == InOrder(T');
    SameOrder(p.up, T, T');
  }

  function Turned(p: Path): Path
    requires p.Step? && p.sib.Node? && Near(p.side, p.sib).Node?
  {
    var n := Near(p.side, p.sib);
    p.(sib := Mk(p.side, Near(p.side, n), n.e, Black, Mk(p.side, Far(p.side, n), p.sib.e, Red, Far(p.side, p.sib))))
  }

  lemma {:induction false} TurnKeeps(p: Path, t: Tree)
    requires LackAt(p, t) && p.Step? && BlackRoot(t) && p.sib.Node? && p.sib.c.Black?
    requires !BlackRoot(Near(p.side, p.sib)) && BlackRoot(Far(p.side, p.sib))
    ensures LackAt(Turned(p), t) && Turned(p).sib.Node? && Turned(p).sib.c.Black?
    ensures !BlackRoot(Far(p.side, Turned(p).sib))
    ensures InOrder(Plug(Turned(p), t)) == InOrder(Plug(p, t))
  {
    var s, sib' := p.side, Turned(p).sib;
    var T, T' := Mk(s, t, p.e, p.c, p.sib), Mk(s, t, p.e, p.c, sib');
    var n, f := Near(s, p.sib), Far(s, p.sib);
    var far := Mk(s, Far(s, n), p.sib.e, Red, f);
    assert Fine(n) && Fine(f) && Rank(n) == Rank(f);
    assert Fine(far) && Rank(far) == Rank(f);
    assert Fine(sib') && Rank(sib') == Rank(p.sib);
    assert InOrder(p.sib) == InOrder(sib');
    SameOrder(p.up, T, T');
  }

  function Filled(p: Path, t: Tree): Tree
    requires p.Step? && p.sib.Node? && Far(p.side, p.sib).Node?
  {
    Mk(p.side, Mk(p.side, t, p.e, Black, Near(p.side, p.sib)), p.sib.e, p.c, Far(p.side, p.sib).(c := Black))
  }

  lemma {:induction false} FillKeeps(p: Path, t: Tree)
    requires LackAt(p, t) && p.Step? && BlackRoot(t) && p.sib.Node? && p.sib.c.Black?
    requires !BlackRoot(Far(p.side, p.sib))
    ensures Fine(Plug(p.up, Filled(p, t))) && BlackRoot(Plug(p.up, Filled(p, t)))
    ensures InOrder(Plug(p.up, Filled(p, t))) == InOrder(Plug(p, t))
  {
    var s, T, T' := p.side, Mk(p.side, t, p.e, p.c, p.sib), Filled(p, t);
    var near, far := Mk(s, t, p.e, Black, Near(s, p.sib)), Far(s, p.sib).(c := Black);
    assert Fine(p.sib) && Fine(Near(s, p.sib)) && Fine(Far(s, p.sib)) && Fine(t);
    assert Fine(near) && Fine(far) && Rank(near) == Rank(far) == Rank(t) + 1;
    assert InOrder(far) == InOrder(Far(s, p.sib));
    assert InOrder(T) == InOrder(T');
    SameOrder(p.up, T, T');
    PlugFine(p.up, T');
  }

  lemma {:induction false} LackDone(p: Path, t: Tree)
    requires LackAt(p, t) && (p.Top? || !BlackRoot(t))
    ensures t.Node? ==> Fine(Plug(p, t.(c := Black))) && BlackRoot(Plug(p, t.(c := Black)))
    ensures t.Leaf? ==> p.Top?
    ensures t.Node? ==> InOrder(Plug(p, t.(c := Black))) == InOrder(Plug(p, t))
  {
    if t.Node? {
      PlugFine(p, t.(c := Black));
      SameOrder(p, t, t.(c := Black));
    }
  }

  lemma {:induction false} SplicedKeeps(p: Path, t: Tree)
    requires t.Node? && (t.left.Leaf? || t.right.Leaf?) && Fine(Plug(p, t)) && BlackRoot(Plug(p, t))
    ensures if t.c.Red? then Fine(Plug(p, Only(t))) && BlackRoot(Plug(p, Only(t))) else LackAt(p, Only(t))
  {
    PlugFine(p, t);
    PlugFine(p, Only(t));
    if t.c.Red? { RankZero(Only(t)); }
  }

  lemma {:induction false} RankZero(t: Tree)
    requires Fine(t) && Rank(t) == 0 && BlackRoot(t)
    ensures t.Leaf?
  {
  }

  /** The colours along a path do not depend on its elements. */
  lemma {:induction false} Renamed(q: Path, p: Path, e: Elem, k: nat)
    requires p.Step?
    ensures PathFine(Append(q, p), k) <==> PathFine(Append(q, p.(e := e)), k)
    decreases q
  {
    if q.Step? {
      Renamed(q.up, p, e, if q.c.Black? then k + 1 else k);
    }
  }

  /** What becomes of the tree when the successor, the root of u, replaces the root of t. */
  lemma {:induction false} RemovedKeeps(p: Path, t: Tree, q: Path, u: Tree)
    requires t.Node? && t.right == Plug(q, u) && u.Node? && u.left.Leaf? && Before(q) == []
    requires Fine(Plug(p, t)) && BlackRoot(Plug(p, t))
    ensures var p', t' := Append(q, Step(R, u.e, t.c, t.left, p)), Only(u);
      && Plug(p', t') == Plug(p, Node(t.left, u.e, t.c, Plug(q, t')))
      && HoleParent(p') == (if q.Top? then u.e else q.e)
      && (if u.c.Red? then Fine(Plug(p', t')) && BlackRoot(Plug(p', t')) else LackAt(p', t'))
      && (Sorted(InOrder(Plug(p, t))) ==> Sorted(InOrder(Plug(p', t'))))
  {
    var above := Step(R, t.e, t.c, t.left, p);
    var below, p', t' := Append(q, above), Append(q, above.(e := u.e)), Only(u);
    Deeper(p, t, q, u);
    Deeper(p, Node(t.left, u.e, t.c, Plug(q, t')), q, t');
    SplicedKeeps(below, u);
    PlugFine(below, t');
    PlugFine(p', t');
    Renamed(q, above, u.e, Rank(t'));
    Renamed(q, above, u.e, Rank(t') + 1);
    RemovedSorted(p, t, q, u);
  }

  function Height(t: Tree): nat {
    if t.Leaf? then 0 else 1 + (if Height(t.left) < Height(t.right) then Height(t.right) else Height(t.left))
  }

  lemma {:induction false} RankSize(t: Tree)
    requires Fine(t)
    ensures Pow2(Rank(t)) <= Size(t) + 1
  {
    if t.Node? {
      RankSize(t.left);
      RankSize(t.right);
    }
  }

  lemma {:induction false} HeightRank(t: Tree)
    requires Fine(t)
    ensures Height(t) <= 2 * Rank(t) + (if BlackRoot(t) then 0 else 1)
  {
    if t.Node? {
      HeightRank(t.left);
      HeightRank(t.right);
    }
  }

  function Pow2(n: nat): nat {
    if n == 0 then 1 else 2 * Pow2(n - 1)
  }

  lemma {:induction false} Pow2Sum(a: nat, b: nat)
    ensures Pow2(a + b) == Pow2(a) * Pow2(b)
  {
    if a > 0 {
      Pow2Sum(a - 1, b);
    }
  }

  lemma {:induction false} Pow2Up(a: nat, b: nat)
    requires a <= b
    ensures Pow2(a) <= Pow2(b)
    decreases b
  {
    if a < b {
      Pow2Up(a, b - 1);
    }
  }

  /** The maximum height of a red-black tree of n elements is 2 lg (n + 1). */
  lemma {:induction false} HeightBound(t: Tree)
    requires Fine(t) && BlackRoot(t)
    ensures Pow2(Height(t)) <= (Size(t) + 1) * (Size(t) + 1)
  {
    var r := Rank(t);
    HeightRank(t);
    Pow2Up(Height(t), 2 * r);
    Pow2Sum(r, r);
    RankSize(t);
    assert Pow2(2 * r) == Pow2(r + r);
    SquareUp(Pow2(r), Size(t) + 1);
  }

  lemma SquareUp(a: nat, b: nat)
    requires a <= b
    ensures a * a <= b * b
  {
    assert a * a <= a * b <= b * b;
  }
}
