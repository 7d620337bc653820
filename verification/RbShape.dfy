/** The mathematical picture of a red-black tree of include/libuv/uv/tree.h: the elements with
    their key, and the ghost shape (a coloured binary tree and a path to one of its places) that
    the heap fields of the elements are tied to in module RbTree. */
module RbShape {
  import opened Sides

  datatype Color = Red | Black

  /** An element with an RB_ENTRY; the comparison function orders elements by key. */
  class Elem {
    const key: int
    var left: Elem?
    var right: Elem?
    var parent: Elem?
    var color: Color

    constructor (k: int)
      ensures key == k
    {
      key := k;
      left, right, parent, color := null, null, null, Red;
    }

    function Child(s: Side): Elem?
      reads this
    {
      if s.L? then left else right
    }

  }

  datatype Tree = Leaf | Node(left: Tree, e: Elem, c: Color, right: Tree)

  /** A place in a tree, read from the place up to the root: at each Step the place lies on side
      `side` of element `e`, whose other child is `sib`. */
  datatype Path = Top | Step(side: Side, e: Elem, c: Color, sib: Tree, up: Path)

  /** A node from its child on side s and its other child. */
  function Mk(s: Side, near: Tree, e: Elem, c: Color, far: Tree): Tree {
    if s.L? then Node(near, e, c, far) else Node(far, e, c, near)
  }

  function Near(s: Side, t: Tree): Tree
    requires t.Node?
  {
    if s.L? then t.left else t.right
  }

  function Far(s: Side, t: Tree): Tree
    requires t.Node?
  {
    Near(s.Other(), t)
  }

  /** The whole tree obtained by putting t at place p. */
  function Plug(p: Path, t: Tree): Tree
    decreases p
  {
    match p
    case Top => t
    case Step(s, e, c, sib, up) => Plug(up, Mk(s, t, e, c, sib))
  }

  function RootOf(t: Tree): Elem? {
    if t.Leaf? then null else t.e
  }

  function HoleParent(p: Path): Elem? {
    if p.Top? then null else p.e
  }

  function InOrder(t: Tree): seq<Elem> {
    match t
    case Leaf => []
    case Node(l, e, _, r) => InOrder(l) + [e] + InOrder(r)
  }

  /** The elements in front of, and behind, a place in the in-order sequence. */
  function Before(p: Path): seq<Elem> {
    match p
    case Top => []
    case Step(s, e, _, sib, up) => if s.L? then Before(up) else Before(up) + InOrder(sib) + [e]
  }

  function After(p: Path): seq<Elem> {
    match p
    case Top => []
    case Step(s, e, _, sib, up) => if s.L? then [e] + InOrder(sib) + After(up) else After(up)
  }

  lemma {:induction false} PlugInOrder(p: Path, t: Tree)
    ensures InOrder(Plug(p, t)) == Before(p) + InOrder(t) + After(p)
    decreases p
  {
    match p
    case Top =>
    case Step(s, e, c, sib, up) =>
      PlugInOrder(up, Mk(s, t, e, c, sib));
  }

  function Elems(t: Tree): set<Elem> {
    match t
    case Leaf => {}
    case Node(l, e, _, r) => Elems(l) + {e} + Elems(r)
  }

  function PathElems(p: Path): set<Elem> {
    match p
    case Top => {}
    case Step(_, e, _, sib, up) => {e} + Elems(sib) + PathElems(up)
  }

  lemma {:induction false} PlugElems(p: Path, t: Tree)
    ensures Elems(Plug(p, t)) == PathElems(p) + Elems(t)
    decreases p
  {
    match p
    case Top =>
    case Step(s, e, c, sib, up) =>
      PlugElems(up, Mk(s, t, e, c, sib));
  }

  lemma {:induction false} InOrderElems(t: Tree, x: Elem)
    ensures x in InOrder(t) <==> x in Elems(t)
  {
    match t
    case Leaf =>
    case Node(l, e, _, r) =>
      InOrderElems(l, x);
      InOrderElems(r, x);
  }

  /** No element occurs twice in a tree; in a path; in the two together. */
  predicate Sep(t: Tree) {
    t.Node? ==>
      && Sep(t.left) && Sep(t.right)
      && t.e !in Elems(t.left) && t.e !in Elems(t.right) && Elems(t.left) !! Elems(t.right)
  }

  predicate PathSep(p: Path) {
    p.Step? ==>
      && Sep(p.sib) && PathSep(p.up)
      && p.e !in Elems(p.sib) && p.e !in PathElems(p.up) && Elems(p.sib) !! PathElems(p.up)
  }

  lemma {:induction false} PlugSep(p: Path, t: Tree)
    ensures Sep(Plug(p, t)) <==> Sep(t) && PathSep(p) && Elems(t) !! PathElems(p)
    decreases p
  {
    match p
    case Top =>
    case Step(s, e, c, sib, up) =>
      PlugSep(up, Mk(s, t, e, c, sib));
  }

  lemma {:induction false} PlugRoot(p: Path, t: Tree, t': Tree)
    ensures p.Step? ==> RootOf(Plug(p, t)) != null && RootOf(Plug(p, t)) == RootOf(Plug(p, t'))
    decreases p
  {
    if p.Step? {
      PlugRoot(p.up, Mk(p.side, t, p.e, p.c, p.sib), Mk(p.side, t', p.e, p.c, p.sib));
    }
  }

  /** A rotation: the root sinks to side s and its child on the other side takes its place. */
  function Rotated(s: Side, t: Tree): (r: Tree)
    requires t.Node? && Far(s, t).Node?
    ensures InOrder(r) == InOrder(t) && Elems(r) == Elems(t)
  {
    var y := Far(s, t);
    Mk(s, Mk(s, Near(s, t), t.e, t.c, Near(s, y)), y.e, y.c, Far(s, y))
  }

  lemma {:induction false} RotatedSep(s: Side, t: Tree)
    requires t.Node? && Far(s, t).Node? && Sep(t)
    ensures Sep(Rotated(s, t))
  {
    var y := Far(s, t);
    var x' := Mk(s, Near(s, t), t.e, t.c, Near(s, y));
    assert Sep(y) && Sep(x');
    assert Rotated(s, t) == Mk(s, x', y.e, y.c, Far(s, y));
  }

  /** The only child, if any, of a node that lacks one. */
  function Only(t: Tree): Tree
    requires t.Node?
  {
    if t.left.Leaf? then t.right else t.left
  }

  function Append(q: Path, p: Path): Path {
    if q.Top? then p else q.(up := Append(q.up, p))
  }

  lemma {:induction false} PlugAppend(q: Path, p: Path, t: Tree)
    ensures Plug(Append(q, p), t) == Plug(p, Plug(q, t))
    decreases q
  {
    if q.Step? {
      PlugAppend(q.up, p, Mk(q.side, t, q.e, q.c, q.sib));
    }
  }

  /** The place below the right child of t that q reaches there. */
  lemma {:induction false} Deeper(p: Path, t: Tree, q: Path, u: Tree)
    requires t.Node? && t.right == Plug(q, u)
    ensures var below := Append(q, Step(R, t.e, t.c, t.left, p));
      && Plug(below, u) == Plug(p, t)
      && HoleParent(below) == if q.Top? then t.e else q.e
    ensures q.Step? ==> q.e in Elems(t.right)
  {
    PlugElems(q, u);
    PlugAppend(q, Step(R, t.e, t.c, t.left, p), u);
  }

  lemma Locate(p: Path, t: Tree, x: Elem) returns (q: Path, u: Tree)
    requires x in Elems(t)
    ensures Plug(q, u) == Plug(p, t) && u.Node? && u.e == x
    decreases t
  {
    if x == t.e {
      q, u := p, t;
    } else if x in Elems(t.left) {
      q, u := Locate(Step(L, t.e, t.c, t.right, p), t.left, x);
    } else {
      q, u := Locate(Step(R, t.e, t.c, t.left, p), t.right, x);
    }
  }

  function Size(t: Tree): nat {
    if t.Leaf? then 0 else Size(t.left) + 1 + Size(t.right)
  }
}
