/** The heap fields of the elements of a red-black tree as a value, when they form a given tree,
    and how the field updates of each step of include/libuv/uv/tree.h change the tree they form. */
module RbFields {
  import opened RbShape
  import opened Sides

  /** The mutable fields of one element. */
  datatype Cell = Cell(left: Elem?, right: Elem?, parent: Elem?, color: Color) {
    function Child(s: Side): Elem? {
      if s.L? then left else right
    }

    function With(s: Side, x: Elem?): Cell {
      if s.L? then this.(left := x) else this.(right := x)
    }
  }

  /** A picture of the heap: the fields of every element. */
  type Mem = Elem -> Cell

  ghost function Snapshot(s: set<Elem>): (m: Mem)
    reads s
    ensures forall n :: n in s ==> m(n) == Cell(n.left, n.right, n.parent, n.color)
  {
    var fields := map n | n in s :: Cell(n.left, n.right, n.parent, n.color);
    (n: Elem) => if n in fields then fields[n] else Cell(null, null, null, Red)
  }

  /** The fields in m are those of the tree t hung below par. */
  ghost predicate Shape(m: Mem, t: Tree, par: Elem?) {
    t.Node? ==>
      && m(t.e) == Cell(RootOf(t.left), RootOf(t.right), par, t.c)
      && Shape(m, t.left, t.e) && Shape(m, t.right, t.e)
  }

  /** The fields in m are those of the path p when hole is the element at the place itself. */
  ghost predicate PathShape(m: Mem, p: Path, hole: Elem?) {
    p.Step? ==>
      && m(p.e) == Cell(RootOf(p.sib), RootOf(p.sib), HoleParent(p.up), p.c).With(p.side, hole)
      && Shape(m, p.sib, p.e) && PathShape(m, p.up, p.e)
  }

  lemma {:induction false} SplitShape(m: Mem, p: Path, t: Tree)
    ensures Shape(m, Plug(p, t), null) <==> PathShape(m, p, RootOf(t)) && Shape(m, t, HoleParent(p))
    decreases p
  {
    if p.Step? {
      SplitShape(m, p.up, Mk(p.side, t, p.e, p.c, p.sib));
    }
  }

  /** m and m' agree on the elements of s. */
  ghost predicate Agree(m: Mem, m': Mem, s: set<Elem>) {
    forall n :: n in s ==> m'(n) == m(n)
  }

  lemma {:induction false} Frame(m: Mem, m': Mem, t: Tree, par: Elem?)
    requires Shape(m, t, par) && Agree(m, m', Elems(t))
    ensures Shape(m', t, par)
  {
    if t.Node? {
      Frame(m, m', t.left, t.e);
      Frame(m, m', t.right, t.e);
    }
  }

  lemma {:induction false} PathFrame(m: Mem, m': Mem, p: Path, hole: Elem?)
    requires PathShape(m, p, hole) && Agree(m, m', PathElems(p))
    ensures PathShape(m', p, hole)
  {
    if p.Step? {
      Frame(m, m', p.sib, p.e);
      PathFrame(m, m', p.up, p.e);
    }
  }

  /** Exchanging the element at a place changes one child field of the element above it. */
  lemma {:induction false} Relinked(m: Mem, m': Mem, p: Path, hole: Elem?, hole': Elem?)
    requires PathSep(p) && PathShape(m, p, hole)
    requires p.Step? ==> m'(p.e) == m(p.e).With(p.side, hole') && Agree(m, m', Elems(p.sib) + PathElems(p.up))
    ensures PathShape(m', p, hole')
  {
    if p.Step? {
      Frame(m, m', p.sib, p.e);
      PathFrame(m, m', p.up, p.e);
    }
  }

  /** Hanging a tree elsewhere changes the parent field of its root. */
  lemma {:induction false} Rehung(m: Mem, m': Mem, t: Tree, par: Elem?, par': Elem?)
    requires Sep(t) && Shape(m, t, par)
    requires t.Node? ==> m'(t.e) == m(t.e).(parent := par') && Agree(m, m', Elems(t.left) + Elems(t.right))
    ensures Shape(m', t, par')
  {
    if t.Node? {
      Frame(m, m', t.left, t.e);
      Frame(m, m', t.right, t.e);
    }
  }

  /** Exchanging the subtree at a place for another. */
  lemma {:induction false} SwapShape(m: Mem, m': Mem, p: Path, t: Tree, t': Tree)
    requires Sep(Plug(p, t)) && Shape(m, Plug(p, t), null)
    requires Sep(t') && Shape(m', t', HoleParent(p)) && Elems(t') !! PathElems(p)
    requires p.Step? ==> m'(p.e) == m(p.e).With(p.side, RootOf(t'))
    requires Agree(m, m', PathElems(p) - if p.Step? then {p.e} else {})
    ensures Sep(Plug(p, t')) && Shape(m', Plug(p, t'), null) && Elems(Plug(p, t')) == PathElems(p) + Elems(t')
    ensures RootOf(Plug(p, t')) == if p.Step? then RootOf(Plug(p, t)) else RootOf(t')
  {
    SplitShape(m, p, t);
    PlugSep(p, t);
    Relinked(m, m', p, RootOf(t), RootOf(t'));
    SplitShape(m', p, t');
    PlugSep(p, t');
    PlugElems(p, t');
    PlugRoot(p, t, t');
  }

  /** The elements a rotation at x involves are distinct elements of S. */
  ghost predicate CanRotate(m: Mem, s: Side, x: Elem, S: set<Elem>) {
    var y, par := m(x).Child(s.Other()), m(x).parent;
    && x in S && y != null && y in S && x != y && par != x && par != y
    && (par != null ==> par in S)
    && var mid := m(y).Child(s);
    && mid != x && mid != y
    && (mid != null ==> mid in S && mid != par)
  }

  /** What a rotation at x does to the fields of the elements of S. */
  ghost predicate RotateStep(m: Mem, m': Mem, s: Side, x: Elem, S: set<Elem>)
    requires CanRotate(m, s, x, S)
  {
    var y, par := m(x).Child(s.Other()), m(x).parent;
    var mid := m(y).Child(s);
    && m'(x) == m(x).With(s.Other(), mid).(parent := y)
    && m'(y) == m(y).With(s, x).(parent := par)
    && (mid != null ==> m'(mid) == m(mid).(parent := x))
    && (par != null ==> m'(par) == m(par).With(if m(par).left == x then L else R, y))
    && forall n :: n in S && n != x && n != y && n != mid && n != par ==> m'(n) == m(n)
  }

  lemma {:induction false} RotateReady(m: Mem, s: Side, p: Path, t: Tree)
    requires t.Node? && Far(s, t).Node? && Sep(Plug(p, t)) && Shape(m, Plug(p, t), null)
    ensures CanRotate(m, s, t.e, Elems(Plug(p, t)))
    ensures m(t.e).Child(s.Other()) == Far(s, t).e && m(t.e).parent == HoleParent(p)
  {
    SplitShape(m, p, t);
    PlugSep(p, t);
    PlugElems(p, t);
  }

  lemma {:induction false} RotateBelow(m: Mem, m': Mem, s: Side, t: Tree, par: Elem?, S: set<Elem>)
    requires t.Node? && Far(s, t).Node? && Sep(t) && Shape(m, t, par)
    requires Elems(t) <= S && CanRotate(m, s, t.e, S) && RotateStep(m, m', s, t.e, S) && par !in Elems(t)
    ensures Shape(m', Rotated(s, t), par)
  {
    var y := Far(s, t);
    Frame(m, m', Near(s, t), t.e);
    Frame(m, m', Far(s, y), y.e);
    Rehung(m, m', Near(s, y), y.e, t.e);
  }

  lemma {:induction false} RotateShape(m: Mem, m': Mem, s: Side, p: Path, t: Tree)
    requires t.Node? && Far(s, t).Node? && Sep(Plug(p, t)) && Shape(m, Plug(p, t), null)
    requires CanRotate(m, s, t.e, Elems(Plug(p, t))) && RotateStep(m, m', s, t.e, Elems(Plug(p, t)))
    ensures var T := Plug(p, Rotated(s, t)); Sep(T) && Shape(m', T, null) && Elems(T) == Elems(Plug(p, t))
    ensures RootOf(Plug(p, Rotated(s, t))) == if p.Step? then RootOf(Plug(p, t)) else Far(s, t).e
  {
    SplitShape(m, p, t);
    PlugSep(p, t);
    PlugElems(p, t);
    RotatedSep(s, t);
    RotateBelow(m, m', s, t, HoleParent(p), Elems(Plug(p, t)));
    SwapShape(m, m', p, t, Rotated(s, t));
  }

  lemma {:induction false} PaintShape(m: Mem, m': Mem, p: Path, t: Tree, c: Color)
    requires t.Node? && Sep(Plug(p, t)) && Shape(m, Plug(p, t), null)
    requires m'(t.e) == m(t.e).(color := c) && Agree(m, m', Elems(Plug(p, t)) - {t.e})
    ensures var T := Plug(p, t.(c := c)); Sep(T) && Shape(m', T, null) && Elems(T) == Elems(Plug(p, t))
    ensures RootOf(Plug(p, t.(c := c))) == RootOf(Plug(p, t))
  {
    SplitShape(m, p, t);
    PlugSep(p, t);
    PlugElems(p, t);
    Frame(m, m', t.left, t.e);
    Frame(m, m', t.right, t.e);
    SwapShape(m, m', p, t, t.(c := c));
  }

  lemma {:induction false} AttachShape(m: Mem, m': Mem, p: Path, elm: Elem)
    requires Sep(Plug(p, Leaf)) && Shape(m, Plug(p, Leaf), null) && elm !in Elems(Plug(p, Leaf))
    requires m'(elm) == Cell(null, null, HoleParent(p), Red)
    requires p.Step? ==> m'(p.e) == m(p.e).With(p.side, elm)
    requires Agree(m, m', Elems(Plug(p, Leaf)) - if p.Step? then {p.e} else {})
    ensures var T := Plug(p, Node(Leaf, elm, Red, Leaf));
      && Sep(T) && Shape(m', T, null) && Elems(T) == Elems(Plug(p, Leaf)) + {elm}
      && RootOf(T) == if p.Step? then RootOf(Plug(p, Leaf)) else elm
  {
    PlugElems(p, Leaf);
    SwapShape(m, m', p, Leaf, Node(Leaf, elm, Red, Leaf));
  }

  lemma {:induction false} OnlyChild(p: Path, t: Tree)
    requires t.Node? && (t.left.Leaf? || t.right.Leaf?) && Sep(Plug(p, t))
    ensures Sep(Only(t)) && Elems(t) == Elems(Only(t)) + {t.e} && t.e !in Elems(Only(t)) && t.e !in PathElems(p)
    ensures Elems(Only(t)) !! PathElems(p) && Elems(Plug(p, t)) == PathElems(p) + Elems(t)
    ensures Only(t).Node? ==> Only(t).e in Elems(Plug(p, t)) && Only(t).e != HoleParent(p)
  {
    PlugSep(p, t);
    PlugElems(p, t);
  }

  ghost predicate UnlinkStep(m: Mem, m': Mem, elm: Elem, child: Elem?, parent: Elem?, S: set<Elem>) {
    && (child != null ==> m'(child) == m(child).(parent := parent))
    && (parent != null ==> m'(parent) == m(parent).With(if m(parent).left == elm then L else R, child))
    && forall n :: n in S && n != child && n != parent ==> m'(n) == m(n)
  }

  lemma {:induction false} SpliceShape(m: Mem, m': Mem, p: Path, t: Tree)
    requires t.Node? && (t.left.Leaf? || t.right.Leaf?) && Sep(Plug(p, t)) && Shape(m, Plug(p, t), null)
    requires UnlinkStep(m, m', t.e, RootOf(Only(t)), HoleParent(p), Elems(Plug(p, t)))
    ensures var T := Plug(p, Only(t));
      && Sep(T) && Shape(m', T, null) && Elems(T) == Elems(Plug(p, t)) - {t.e}
      && RootOf(T) == if p.Step? then RootOf(Plug(p, t)) else RootOf(Only(t))
  {
    SplitShape(m, p, t);
    PlugSep(p, t);
    OnlyChild(p, t);
    Rehung(m, m', Only(t), t.e, HoleParent(p));
    SwapShape(m, m', p, t, Only(t));
  }

  /** old_ and its neighbours are distinct elements of S, and it has a left child. */
  ghost predicate CanSupplant(m: Mem, old_: Elem, S: set<Elem>) {
    var c := m(old_);
    && old_ in S && c.left != null && c.left in S && c.left != old_ && c.parent != old_
    && c.left != c.parent && c.left != c.right
    && (c.right != null ==> c.right in S && c.right != old_ && c.right != c.parent)
    && (c.parent != null ==> c.parent in S)
  }

  ghost predicate SupplantStep(m: Mem, m': Mem, old_: Elem, elm: Elem, S: set<Elem>)
    requires CanSupplant(m, old_, S)
  {
    var c := m(old_);
    && m'(elm) == c
    && m'(c.left) == m(c.left).(parent := elm)
    && (c.right != null ==> m'(c.right) == m(c.right).(parent := elm))
    && (c.parent != null ==> m'(c.parent) == m(c.parent).With(if m(c.parent).left == old_ then L else R, elm))
    && forall n :: n in S && n != c.left && n != c.right && n != c.parent ==> m'(n) == m(n)
  }

  lemma {:induction false} SupplantReady(m: Mem, p: Path, t: Tree)
    requires t.Node? && t.left.Node? && Sep(Plug(p, t)) && Shape(m, Plug(p, t), null)
    ensures CanSupplant(m, t.e, Elems(Plug(p, t)))
    ensures m(t.e) == Cell(RootOf(t.left), RootOf(t.right), HoleParent(p), t.c)
    ensures p.Step? ==> m(p.e).Child(p.side) == t.e && m(p.e).Child(p.side.Other()) != t.e
  {
    SplitShape(m, p, t);
    PlugSep(p, t);
    PlugElems(p, t);
  }

  lemma {:induction false} SupplantShape(m: Mem, m': Mem, p: Path, t: Tree, elm: Elem)
    requires t.Node? && t.left.Node? && Sep(Plug(p, t)) && Shape(m, Plug(p, t), null) && elm !in Elems(Plug(p, t))
    requires CanSupplant(m, t.e, Elems(Plug(p, t))) && SupplantStep(m, m', t.e, elm, Elems(Plug(p, t)))
    ensures var T := Plug(p, t.(e := elm));
      && Sep(T) && Shape(m', T, null) && Elems(T) == Elems(Plug(p, t)) - {t.e} + {elm}
      && RootOf(T) == if p.Step? then RootOf(Plug(p, t)) else elm
  {
    SplitShape(m, p, t);
    PlugSep(p, t);
    PlugElems(p, t);
    SupplantReady(m, p, t);
    Rehung(m, m', t.left, t.e, elm);
    Rehung(m, m', t.right, t.e, elm);
    SwapShape(m, m', p, t, t.(e := elm));
  }
}
