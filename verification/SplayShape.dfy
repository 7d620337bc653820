/** The mathematical picture of a splay tree of include/libuv/uv/tree.h: elements with their key,
    the binary tree they form, and the two side trees that a top-down splay builds. */
module SplayShape {
  import opened Sides

  /** An element with a SPLAY_ENTRY; the comparison function orders elements by key. */
  class Elem {
    const key: int
    var left: Elem?
    var right: Elem?

    constructor (k: int)
      ensures key == k && left == right == null
    {
      key := k;
      left, right := null, null;
    }
  }

  datatype Tree = Leaf | Node(left: Tree, e: Elem, right: Tree)

  function Mk(s: Side, near: Tree, e: Elem, far: Tree): Tree {
    if s.L? then Node(near, e, far) else Node(far, e, near)
  }

  function Near(s: Side, t: Tree): Tree
    requires t.Node?
  {
    if s.L? then t.left else t.right
  }

  function RootOf(t: Tree): Elem? {
    if t.Leaf? then null else t.e
  }

  function InOrder(t: Tree): seq<Elem> {
    if t.Leaf? then [] else InOrder(t.left) + [t.e] + InOrder(t.right)
  }

  function Elems(t: Tree): set<Elem> {
    if t.Leaf? then {} else Elems(t.left) + {t.e} + Elems(t.right)
  }

  predicate Sep(t: Tree) {
    t.Node? ==>
      && Sep(t.left) && Sep(t.right)
      && t.e !in Elems(t.left) && t.e !in Elems(t.right) && Elems(t.left) !! Elems(t.right)
  }

  lemma {:induction false} InOrderElems(t: Tree, x: Elem)
    ensures x in InOrder(t) <==> x in Elems(t)
  {
    if t.Node? {
      InOrderElems(t.left, x);
      InOrderElems(t.right, x);
    }
  }

  lemma {:induction false} ElemsInOrder(t: Tree)
    ensures Elems(t) == set x | x in InOrder(t)
  {
    if t.Node? {
      ElemsInOrder(t.left);
      ElemsInOrder(t.right);
    }
  }

  /** A side tree under construction, from its open end: the side tree for side s has, at each step,
      an element with its finished subtree on side s; its other child is the next step. */
  datatype Spine = Nil | Snoc(up: Spine, sub: Tree, e: Elem)

  /** The element at the open end. */
  function Last(sp: Spine, dummy: Elem): Elem {
    if sp.Nil? then dummy else sp.e
  }

  function SpineElems(sp: Spine): set<Elem> {
    if sp.Nil? then {} else SpineElems(sp.up) + Elems(sp.sub) + {sp.e}
  }

  predicate SpineSep(sp: Spine) {
    sp.Snoc? ==>
      && SpineSep(sp.up) && Sep(sp.sub)
      && sp.e !in Elems(sp.sub) && sp.e !in SpineElems(sp.up) && Elems(sp.sub) !! SpineElems(sp.up)
  }

  function SpineOrder(s: Side, sp: Spine): seq<Elem> {
    if sp.Nil? then []
    else if s.L? then SpineOrder(s, sp.up) + InOrder(sp.sub) + [sp.e]
    else [sp.e] + InOrder(sp.sub) + SpineOrder(s, sp.up)
  }

  /** The side tree with x at its open end. */
  function Close(s: Side, sp: Spine, x: Tree): Tree
    decreases sp
  {
    if sp.Nil? then x else Close(s, sp.up, Mk(s, sp.sub, sp.e, x))
  }

  lemma {:induction false} CloseInOrder(s: Side, sp: Spine, x: Tree)
    ensures InOrder(Close(s, sp, x)) ==
      if s.L? then SpineOrder(s, sp) + InOrder(x) else InOrder(x) + SpineOrder(s, sp)
    decreases sp
  {
    if sp.Snoc? {
      CloseInOrder(s, sp.up, Mk(s, sp.sub, sp.e, x));
    }
  }

  lemma {:induction false} CloseElems(s: Side, sp: Spine, x: Tree)
    ensures Elems(Close(s, sp, x)) == SpineElems(sp) + Elems(x)
    ensures Sep(Close(s, sp, x)) <==> SpineSep(sp) && Sep(x) && SpineElems(sp) !! Elems(x)
    decreases sp
  {
    if sp.Snoc? {
      CloseElems(s, sp.up, Mk(s, sp.sub, sp.e, x));
    }
  }

  /** The fields of one element, and a picture of those of all elements. */
  datatype Cell = Cell(left: Elem?, right: Elem?) {
    function Child(s: Side): Elem? {
      if s.L? then left else right
    }

    function With(s: Side, x: Elem?): Cell {
      if s.L? then this.(left := x) else this.(right := x)
    }
  }

  type Mem = Elem -> Cell

  ghost function Snapshot(s: set<Elem>): (m: Mem)
    reads s
    ensures forall n :: n in s ==> m(n) == Cell(n.left, n.right)
  {
    var fields := map n | n in s :: Cell(n.left, n.right);
    (n: Elem) => if n in fields then fields[n] else Cell(null, null)
  }

  /** The fields in m are those of the tree t. */
  ghost predicate Shape(m: Mem, t: Tree) {
    t.Node? ==> m(t.e) == Cell(RootOf(t.left), RootOf(t.right)) && Shape(m, t.left) && Shape(m, t.right)
  }

  /** The fields in m are those of a side tree that hangs from the dummy. */
  ghost predicate SpineShape(m: Mem, s: Side, sp: Spine, dummy: Elem) {
    sp.Snoc? ==>
      && m(Last(sp.up, dummy)).Child(s.Other()) == sp.e && m(sp.e).Child(s) == RootOf(sp.sub)
      && Shape(m, sp.sub) && SpineShape(m, s, sp.up, dummy)
  }

  ghost predicate Agree(m: Mem, m': Mem, s: set<Elem>) {
    forall n :: n in s ==> m'(n) == m(n)
  }

  lemma {:induction false} Frame(m: Mem, m': Mem, t: Tree)
    requires Shape(m, t) && Agree(m, m', Elems(t))
    ensures Shape(m', t)
  {
    if t.Node? {
      Frame(m, m', t.left);
      Frame(m, m', t.right);
    }
  }

  /** The child field at the open end does not matter to a side tree. */
  lemma {:induction false} SpineFrame(m: Mem, m': Mem, s: Side, sp: Spine, dummy: Elem)
    requires SpineShape(m, s, sp, dummy) && SpineSep(sp) && dummy !in SpineElems(sp)
    requires sp.Snoc? ==>
      && Agree(m, m', SpineElems(sp) - {sp.e}) && m'(sp.e).Child(s) == m(sp.e).Child(s)
      && m'(dummy).Child(s.Other()) == m(dummy).Child(s.Other())
    ensures SpineShape(m', s, sp, dummy)
  {
    if sp.Snoc? {
      Frame(m, m', sp.sub);
      SpineFrame(m, m', s, sp.up, dummy);
    }
  }

  lemma {:induction false} CloseShape(m: Mem, s: Side, sp: Spine, dummy: Elem, x: Tree)
    requires SpineShape(m, s, sp, dummy) && Shape(m, x) && m(Last(sp, dummy)).Child(s.Other()) == RootOf(x)
    ensures Shape(m, Close(s, sp, x)) && m(dummy).Child(s.Other()) == RootOf(Close(s, sp, x))
    decreases sp
  {
    if sp.Snoc? {
      CloseShape(m, s, sp.up, dummy, Mk(s, sp.sub, sp.e, x));
    }
  }

  /** A splay in progress: the tree below the head and the two side trees. */
  datatype State = State(t: Tree, ls: Spine, rs: Spine) {
    function Spine(s: Side): Spine {
      if s.L? then ls else rs
    }
  }

  function StateOrder(st: State): seq<Elem> {
    SpineOrder(L, st.ls) + InOrder(st.t) + SpineOrder(R, st.rs)
  }

  function StateElems(st: State): set<Elem> {
    SpineElems(st.ls) + Elems(st.t) + SpineElems(st.rs)
  }

  predicate StateSep(st: State, dummy: Elem) {
    && Sep(st.t) && SpineSep(st.ls) && SpineSep(st.rs)
    && Elems(st.t) !! SpineElems(st.ls) && Elems(st.t) !! SpineElems(st.rs) && SpineElems(st.ls) !! SpineElems(st.rs)
    && dummy !in StateElems(st)
  }

  ghost predicate StateShape(m: Mem, st: State, dummy: Elem) {
    && StateSep(st, dummy) && Shape(m, st.t)
    && SpineShape(m, L, st.ls, dummy) && SpineShape(m, R, st.rs, dummy)
  }

  /** SPLAY_ROTATE: the child on side d becomes the root. */
  function Rotated(d: Side, t: Tree): Tree
    requires t.Node? && Near(d, t).Node?
  {
    var y := Near(d, t);
    Mk(d, Near(d, y), y.e, Mk(d, Near(d.Other(), y), t.e, Near(d.Other(), t)))
  }

  /** SPLAY_LINK: the root and its subtree away from d join the side tree of the other side. */
  function Linking(d: Side, st: State): State
    requires st.t.Node?
  {
    var sp := Snoc(st.Spine(d.Other()), Near(d.Other(), st.t), st.t.e);
    if d.L? then State(st.t.left, st.ls, sp) else State(st.t.right, sp, st.rs)
  }

  function Size(t: Tree): nat {
    if t.Leaf? then 0 else Size(t.left) + 1 + Size(t.right)
  }

  lemma {:induction false} RotatedTree(d: Side, t: Tree)
    requires t.Node? && Near(d, t).Node?
    ensures var t' := Rotated(d, t);
      && InOrder(t') == InOrder(t) && Elems(t') == Elems(t) && Size(t') == Size(t) && (Sep(t) ==> Sep(t'))
  {
    var y := Near(d, t);
    var low := Mk(d, Near(d.Other(), y), t.e, Near(d.Other(), t));
    assert Sep(t) ==> Sep(y) && Sep(low);
    assert Rotated(d, t) == Mk(d, Near(d, y), y.e, low);
  }

  lemma RotatedKeeps(d: Side, st: State, dummy: Elem)
    requires st.t.Node? && Near(d, st.t).Node?
    ensures var st' := st.(t := Rotated(d, st.t));
      && StateOrder(st') == StateOrder(st) && StateElems(st') == StateElems(st) && Size(st'.t) == Size(st.t)
      && (StateSep(st, dummy) ==> StateSep(st', dummy))
  {
    RotatedTree(d, st.t);
  }

  lemma Rebracket(a: seq<Elem>, l: seq<Elem>, x: seq<Elem>, r: seq<Elem>, b: seq<Elem>)
    ensures a + (l + x + r) + b == (a + l) + x + (r + b) == a + l + (x + r + b) == (a + l + x) + r + b
  {
  }

  lemma LinkedKeeps(d: Side, st: State, dummy: Elem)
    requires st.t.Node?
    ensures var st' := Linking(d, st);
      && StateOrder(st') == StateOrder(st) && StateElems(st') == StateElems(st) && Size(st'.t) < Size(st.t)
      && (StateSep(st, dummy) ==> StateSep(st', dummy))
  {
    Rebracket(SpineOrder(L, st.ls), InOrder(st.t.left), [st.t.e], InOrder(st.t.right), SpineOrder(R, st.rs));
  }

  /** The stores of a rotation. */
  lemma {:induction false} RotateTreeShape(m: Mem, m': Mem, d: Side, t: Tree)
    requires Shape(m, t) && Sep(t) && t.Node? && Near(d, t).Node?
    requires var x, y := t.e, Near(d, t).e;
      && m'(x) == m(x).With(d, m(y).Child(d.Other())) && m'(y) == m(y).With(d.Other(), x)
      && Agree(m, m', Elems(t) - {x, y})
    ensures Shape(m', Rotated(d, t))
  {
    var y := Near(d, t);
    var low := Mk(d, Near(d.Other(), y), t.e, Near(d.Other(), t));
    assert Shape(m, y) && Sep(y);
    Frame(m, m', Near(d, y));
    Frame(m, m', Near(d.Other(), y));
    Frame(m, m', Near(d.Other(), t));
    assert Shape(m', low);
  }

  lemma RotateShape(m: Mem, m': Mem, d: Side, st: State, dummy: Elem)
    requires StateShape(m, st, dummy) && st.t.Node? && Near(d, st.t).Node?
    requires var x, y := st.t.e, Near(d, st.t).e;
      && m'(x) == m(x).With(d, m(y).Child(d.Other())) && m'(y) == m(y).With(d.Other(), x)
      && Agree(m, m', StateElems(st) + {dummy} - {x, y})
    ensures StateShape(m', st.(t := Rotated(d, st.t)), dummy)
  {
    RotatedKeeps(d, st, dummy);
    RotateTreeShape(m, m', d, st.t);
    SpineFrame(m, m', L, st.ls, dummy);
    SpineFrame(m, m', R, st.rs, dummy);
  }

  /** The store of a link. */
  lemma LinkShape(m: Mem, m': Mem, d: Side, st: State, dummy: Elem)
    requires StateShape(m, st, dummy) && st.t.Node?
    requires var last := Last(st.Spine(d.Other()), dummy);
      m'(last) == m(last).With(d, st.t.e) && Agree(m, m', StateElems(st) + {dummy} - {last})
    ensures StateShape(m', Linking(d, st), dummy)
  {
    LinkedKeeps(d, st, dummy);
    Frame(m, m', Near(d, st.t));
    Frame(m, m', Near(d.Other(), st.t));
    SpineFrame(m, m', L, st.ls, dummy);
    SpineFrame(m, m', R, st.rs, dummy);
  }

  /** SPLAY_ASSEMBLE. */
  function Assembled(st: State): Tree
    requires st.t.Node?
  {
    Node(Close(L, st.ls, st.t.left), st.t.e, Close(R, st.rs, st.t.right))
  }

  lemma AssembledKeeps(st: State, dummy: Elem)
    requires st.t.Node?
    ensures InOrder(Assembled(st)) == StateOrder(st) && Elems(Assembled(st)) == StateElems(st)
    ensures StateSep(st, dummy) ==> Sep(Assembled(st))
  {
    CloseInOrder(L, st.ls, st.t.left);
    CloseInOrder(R, st.rs, st.t.right);
    CloseElems(L, st.ls, st.t.left);
    CloseElems(R, st.rs, st.t.right);
    Rebracket(SpineOrder(L, st.ls), InOrder(st.t.left), [st.t.e], InOrder(st.t.right), SpineOrder(R, st.rs));
  }

  /** The stores of the assembly: the two open ends, and the root. */
  lemma AssembleShape(m: Mem, m': Mem, st: State, dummy: Elem)
    requires StateShape(m, st, dummy) && st.t.Node?
    requires var x, l, r := st.t.e, Last(st.ls, dummy), Last(st.rs, dummy);
      && m'(l).right == RootOf(st.t.left) && m'(r).left == RootOf(st.t.right)
      && (l != dummy ==> m'(l).left == m(l).left) && (r != dummy ==> m'(r).right == m(r).right)
      && (l != dummy ==> m'(dummy).right == m(dummy).right) && (r != dummy ==> m'(dummy).left == m(dummy).left)
      && m'(x) == Cell(m'(dummy).right, m'(dummy).left)
      && Agree(m, m', StateElems(st) - {x, l, r})
    ensures Sep(Assembled(st)) && Shape(m', Assembled(st))
  {
    AssembledKeeps(st, dummy);
    Frame(m, m', st.t.left);
    Frame(m, m', st.t.right);
    SpineFrame(m, m', L, st.ls, dummy);
    SpineFrame(m, m', R, st.rs, dummy);
    CloseShape(m', L, st.ls, dummy, st.t.left);
    CloseShape(m', R, st.rs, dummy, st.t.right);
  }

  /** Strictly ascending keys. */
  ghost predicate Sorted(s: seq<Elem>) {
    forall i, j :: 0 <= i < j < |s| ==> s[i].key < s[j].key
  }

  lemma Around(a: seq<Elem>, e: Elem, b: seq<Elem>)
    requires Sorted(a + [e] + b)
    ensures Sorted(a) && Sorted(b)
    ensures forall n :: n in a ==> n.key < e.key
    ensures forall n :: n in b ==> e.key < n.key
  {
    var s := a + [e] + b;
    assert s[|a|] == e;
    assert forall i :: 0 <= i < |a| ==> s[i] == a[i];
    assert forall i :: 0 <= i < |b| ==> s[|a| + 1 + i] == b[i];
  }

  lemma Amid(a: seq<Elem>, e: Elem, b: seq<Elem>)
    requires Sorted(a) && Sorted(b)
    requires forall n :: n in a ==> n.key < e.key
    requires forall n :: n in b ==> e.key < n.key
    ensures Sorted(a + [e] + b)
  {
    var s := a + [e] + b;
    forall i, j | 0 <= i < j < |s| ensures s[i].key < s[j].key {
      assert i < |a| ==> s[i] == a[i] && a[i] in a;
      assert i > |a| ==> s[i] == b[i - |a| - 1];
      assert j < |a| ==> s[j] == a[j];
      assert j > |a| ==> s[j] == b[j - |a| - 1] && b[j - |a| - 1] in b;
    }
  }

  lemma {:induction false} Halves(t: Tree)
    requires t.Node? && Sorted(InOrder(t))
    ensures Sorted(InOrder(t.left)) && Sorted(InOrder(t.right))
    ensures forall n :: n in Elems(t.left) ==> n.key < t.e.key
    ensures forall n :: n in Elems(t.right) ==> t.e.key < n.key
  {
    Around(InOrder(t.left), t.e, InOrder(t.right));
    forall n | n in Elems(t.left) ensures n.key < t.e.key {
      InOrderElems(t.left, n);
    }
    forall n | n in Elems(t.right) ensures t.e.key < n.key {
      InOrderElems(t.right, n);
    }
  }

  lemma {:induction false} Joined(t: Tree)
    requires t.Node? && Sorted(InOrder(t.left)) && Sorted(InOrder(t.right))
    requires forall n :: n in Elems(t.left) ==> n.key < t.e.key
    requires forall n :: n in Elems(t.right) ==> t.e.key < n.key
    ensures Sorted(InOrder(t))
  {
    forall n | n in InOrder(t.left) ensures n.key < t.e.key {
      InOrderElems(t.left, n);
    }
    forall n | n in InOrder(t.right) ensures t.e.key < n.key {
      InOrderElems(t.right, n);
    }
    Amid(InOrder(t.left), t.e, InOrder(t.right));
  }

  /** Every element of the left side tree is below key k, every one of the right one above it. */
  ghost predicate Parted(st: State, k: int) {
    && (forall n :: n in SpineElems(st.ls) ==> n.key < k)
    && (forall n :: n in SpineElems(st.rs) ==> k < n.key)
  }

  lemma StateSorted(st: State)
    requires Sorted(StateOrder(st))
    ensures Sorted(InOrder(st.t))
  {
    var a, s := SpineOrder(L, st.ls), StateOrder(st);
    assert forall i :: 0 <= i < |InOrder(st.t)| ==> InOrder(st.t)[i] == s[|a| + i];
  }

  /** A link in the direction of k keeps the side trees on their sides of k. */
  lemma LinkedParts(d: Side, st: State, k: int)
    requires st.t.Node? && Sorted(StateOrder(st)) && Parted(st, k)
    requires if d.L? then k < st.t.e.key else st.t.e.key < k
    ensures Parted(Linking(d, st), k)
  {
    StateSorted(st);
    Halves(st.t);
  }

  /** The splay result for key k: the root has it, or is the nearest element on one side of it. */
  ghost predicate Splayed(t: Tree, k: int) {
    && t.Node?
    && (k < t.e.key ==> forall n :: n in Elems(t.left) ==> n.key < k)
    && (t.e.key < k ==> forall n :: n in Elems(t.right) ==> k < n.key)
  }

  /** Nothing is left of t in the direction of k. */
  predicate Reached(t: Tree, k: int) {
    && t.Node?
    && (k < t.e.key ==> t.left.Leaf?)
    && (t.e.key < k ==> t.right.Leaf?)
  }

  lemma AssembledSplayed(st: State, k: int)
    requires Reached(st.t, k) && Parted(st, k)
    ensures Splayed(Assembled(st), k)
  {
    CloseElems(L, st.ls, st.t.left);
    CloseElems(R, st.rs, st.t.right);
  }

  /** The root after a splay for k has the key k if any element has it; otherwise it is the largest
      element below k or the smallest one above it. */
  lemma {:induction false} SplayedNearest(t: Tree, k: int)
    requires Splayed(t, k) && Sorted(InOrder(t))
    ensures (exists n :: n in Elems(t) && n.key == k) <==> t.e.key == k
    ensures k < t.e.key ==> forall n :: n in Elems(t) ==> n.key < k || t.e.key <= n.key
    ensures t.e.key < k ==> forall n :: n in Elems(t) ==> k < n.key || n.key <= t.e.key
  {
    Halves(t);
    assert t.e in Elems(t);
  }
}
