/** The red-black tree of include/libuv/uv/tree.h: the elements with their mutable fields, linked
    below a head, and the operations that rewrite them in place. */
module RbTree {
  import opened RbBalance
  import opened RbFields
  import opened RbOrder
  import opened RbShape
  import opened Sides
  import opened Walks

  class RbHead {
    var root: Elem?
    ghost var tree: Tree

    /** The heap holds exactly the ghost tree. */
    ghost predicate Linked()
      reads this, Elems(tree)
    {
      root == RootOf(tree) && Sep(tree) && Shape(Snapshot(Elems(tree)), tree, null)
    }

    /** RB_ROTATE_LEFT, as it rewrites the fields of the elements of S. */
    method RotateLeft(x: Elem, ghost S: set<Elem>)
      requires CanRotate(Snapshot(S), L, x, S)
      modifies `root, S
      ensures RotateStep(old(Snapshot(S)), Snapshot(S), L, x, S)
      ensures root == if old(x.parent) != null then old(root) else old(x.right)
    {
      var tmp := x.right;
      x.right := tmp.left;
      if tmp.left != null { tmp.left.parent := x; }
      tmp.parent := x.parent;
      if x.parent != null {
        if x == x.parent.left { x.parent.left := tmp; } else { x.parent.right := tmp; }
      } else {
        root := tmp;
      }
      tmp.left := x;
      x.parent := tmp;
    }

    /** RB_ROTATE_RIGHT, as it rewrites the fields of the elements of S. */
    method RotateRight(x: Elem, ghost S: set<Elem>)
      requires CanRotate(Snapshot(S), R, x, S)
      modifies `root, S
      ensures RotateStep(old(Snapshot(S)), Snapshot(S), R, x, S)
      ensures root == if old(x.parent) != null then old(root) else old(x.left)
    {
      var tmp := x.left;
      x.left := tmp.right;
      if tmp.right != null { tmp.right.parent := x; }
      tmp.parent := x.parent;
      if x.parent != null {
        if x == x.parent.left { x.parent.left := tmp; } else { x.parent.right := tmp; }
      } else {
        root := tmp;
      }
      tmp.right := x;
      x.parent := tmp;
    }

    method RotateFields(s: Side, x: Elem, ghost S: set<Elem>)
      requires CanRotate(Snapshot(S), s, x, S)
      modifies `root, S
      ensures RotateStep(old(Snapshot(S)), Snapshot(S), s, x, S)
      ensures root == if old(x.parent) != null then old(root) else old(x.Child(s.Other()))
    {
      if s.L? { RotateLeft(x, S); } else { RotateRight(x, S); }
    }

    /** Records the tree the heap now holds. */
    ghost method Adopt(T: Tree, m: Mem)
      requires root == RootOf(T) && Sep(T) && Shape(m, T, null) && Agree(m, Snapshot(Elems(T)), Elems(T))
      modifies `tree
      ensures Linked() && tree == T
    {
      Frame(m, Snapshot(Elems(T)), T, null);
      tree := T;
    }

    /** RB_ROTATE_LEFT (s == L) and RB_ROTATE_RIGHT (s == R), as they change the tree. */
    method Rotate(s: Side, x: Elem, ghost p: Path, ghost t: Tree)
      requires Linked() && tree == Plug(p, t)
      requires t.Node? && t.e == x && Far(s, t).Node?
      modifies this, Elems(tree)
      ensures Linked() && tree == Plug(p, Rotated(s, t))
      ensures Elems(tree) == old(Elems(tree))
    {
      ghost var S := Elems(tree);
      ghost var m := Snapshot(S);
      RotateReady(m, s, p, t);
      RotateFields(s, x, S);
      ghost var m' := Snapshot(S);
      RotateShape(m, m', s, p, t);
      Adopt(Plug(p, Rotated(s, t)), m');
    }

    /** Stores a colour in the element at a place. */
    method Paint(x: Elem, c: Color, ghost p: Path, ghost t: Tree)
      requires Linked() && tree == Plug(p, t) && t.Node? && t.e == x
      modifies this`tree, x`color
      ensures Linked() && tree == Plug(p, t.(c := c)) && Elems(tree) == old(Elems(tree))
    {
      ghost var S := Elems(tree);
      ghost var m := Snapshot(S);
      PlugElems(p, t);
      x.color := c;
      ghost var m' := Snapshot(S);
      PaintShape(m, m', p, t, c);
      Adopt(Plug(p, t.(c := c)), m');
    }

    /** What the heap says at a place. */
    lemma {:induction false} Look(p: Path, t: Tree)
      requires Linked() && tree == Plug(p, t)
      ensures t.Node? ==>
        && t.e in Elems(tree) && t.e.left == RootOf(t.left) && t.e.right == RootOf(t.right)
        && t.e.parent == HoleParent(p) && t.e.color == t.c
      ensures p.Step? ==>
        && p.e in Elems(tree) && p.e.Child(p.side) == RootOf(t) && p.e.Child(p.side.Other()) == RootOf(p.sib)
        && p.e.parent == HoleParent(p.up) && p.e.color == p.c
        && (t.Node? ==> RootOf(p.sib) != t.e && p.e != t.e)
      ensures p.Top? ==> root == RootOf(t)
    {
      SplitShape(Snapshot(Elems(tree)), p, t);
      PlugSep(p, t);
      PlugElems(p, t);
    }

    /** RB_INSERT_COLOR, red uncle: the red moves up to the grandparent. */
    method PushUp(parent: Elem, gparent: Elem, tmp: Elem, ghost p: Path, ghost t: Tree)
      requires Linked() && tree == Plug(p, t) && p.Step? && p.up.Step? && p.up.sib.Node?
      requires parent == p.e && gparent == p.up.e && tmp == p.up.sib.e
      modifies this`tree, parent`color, gparent`color, tmp`color
      ensures Linked() && tree == Plug(p.up.up, Pushed(p, t)) && Elems(tree) == old(Elems(tree))
    {
      ghost var q := p.up;
      ghost var P := Mk(p.side, t, parent, p.c, p.sib);
      Paint(tmp, Black, Step(q.side.Other(), gparent, q.c, P, q.up), q.sib);
      ghost var U := q.sib.(c := Black);
      Paint(parent, Black, Step(q.side, gparent, q.c, U, q.up), P);
      Paint(gparent, Red, q.up, Mk(q.side, P.(c := Black), gparent, q.c, U));
    }

    /** RB_INSERT_COLOR, black uncle, elm on the outer side: the parent takes the grandparent's place. */
    method Settle(s: Side, parent: Elem, gparent: Elem, ghost p: Path, ghost t: Tree)
      requires Linked() && tree == Plug(p, t) && p.Step? && p.up.Step? && p.side == p.up.side == s
      requires parent == p.e && gparent == p.up.e
      modifies this, Elems(tree)
      ensures Linked() && tree == Plug(Settled(p), t) && Elems(tree) == old(Elems(tree))
    {
      ghost var q := p.up;
      ghost var P := Mk(s, t, parent, p.c, p.sib);
      Look(q, P);
      Look(p, t);
      Paint(parent, Black, Step(s, gparent, q.c, q.sib, q.up), P);
      Paint(gparent, Red, q.up, Mk(s, P.(c := Black), gparent, q.c, q.sib));
      ghost var G := Mk(s, P.(c := Black), gparent, Red, q.sib);
      Rotate(s.Other(), gparent, q.up, G);
      assert Rotated(s.Other(), G) == Mk(s, t, parent, Black, Mk(s, p.sib, gparent, Red, q.sib));
    }

    /** One round of the loop of RB_INSERT_COLOR, for a red elm below a red parent. */
    method InsertRound(elm: Elem, ghost p: Path, ghost t: Tree) returns (elm': Elem, ghost p': Path, ghost t': Tree)
      requires Linked() && tree == Plug(p, t) && RootOf(t) == elm && RedAt(p, t) && p.Step? && p.c.Red?
      modifies this, Elems(tree)
      ensures Linked() && tree == Plug(p', t') && RootOf(t') == elm' && RedAt(p', t')
      ensures Elems(tree) == old(Elems(tree)) && InOrder(tree) == old(InOrder(tree)) && Depth(p') < Depth(p)
    {
      ghost var q := p.up;
      ghost var P := Mk(p.side, t, p.e, p.c, p.sib);
      Look(p, t);
      Look(q, P);
      var parent := elm.parent;
      var gparent := parent.parent;
      var s := if parent == gparent.left then L else R;
      var tmp := if s.L? then gparent.right else gparent.left;
      assert p.side != q.side ==> elm == parent.Child(s.Other());
      Look(Step(q.side.Other(), gparent, q.c, P, q.up), q.sib);
      if tmp != null && tmp.color == Red {
        PushedKeeps(p, t);
        PushUp(parent, gparent, tmp, p, t);
        return gparent, q.up, Pushed(p, t);
      }
      elm', p', t' := elm, p, t;
      if elm == (if s.L? then parent.right else parent.left) {
        StraightKeeps(p, t);
        Rotate(s, parent, q, P);
        elm', parent := parent, elm;
        p', t' := StraightPath(p, t), StraightTree(p, t);
      }
      SettledKeeps(p', t');
      Settle(s, parent, gparent, p', t');
      p' := Settled(p');
    }

    /** RB_INSERT_COLOR, started at the red element elm at the place p. */
    method InsertColor(elm0: Elem, ghost p0: Path, ghost t0: Tree)
      requires Linked() && tree == Plug(p0, t0) && RootOf(t0) == elm0 && RedAt(p0, t0)
      modifies this, Elems(tree)
      ensures Linked() && Fine(tree) && BlackRoot(tree)
      ensures InOrder(tree) == old(InOrder(tree)) && Elems(tree) == old(Elems(tree))
    {
      var elm := elm0;
      ghost var p, t := p0, t0;
      Look(p, t);
      while elm.parent != null && elm.parent.color == Red
        invariant Linked() && tree == Plug(p, t) && RootOf(t) == elm && RedAt(p, t)
        invariant InOrder(tree) == old(InOrder(tree)) && Elems(tree) == old(Elems(tree))
        invariant HoleParent(p) == elm.parent && (p.Step? ==> elm.parent.color == p.c)
        decreases Depth(p)
      {
        elm, p, t := InsertRound(elm, p, t);
        Look(p, t);
      }
      Finished(p, t);
      Look(Top, tree);
      Paint(root, Black, Top, tree);
    }

    ghost predicate Valid()
      reads this, Elems(tree)
    {
      Linked() && Sorted(InOrder(tree)) && Fine(tree) && BlackRoot(tree)
    }

    /** RB_SET and the store of elm below parent, as they rewrite the fields of the elements of S. */
    method LinkBelow(elm: Elem, parent: Elem?, comp: int, ghost S: set<Elem>)
      requires elm !in S && parent != elm && (parent != null ==> parent in S)
      modifies `root, elm, if parent != null then {parent} else {}
      ensures var m, m' := old(Snapshot(S)), Snapshot(S + {elm});
        && m'(elm) == Cell(null, null, parent, Red)
        && (parent != null ==> m'(parent) == m(parent).With(if comp < 0 then L else R, elm))
        && forall n :: n in S && n != parent ==> m'(n) == m(n)
      ensures root == if parent == null then elm else old(root)
    {
      elm.parent := parent;
      elm.left, elm.right := null, null;
      elm.color := Red;
      if parent != null {
        if comp < 0 { parent.left := elm; } else { parent.right := elm; }
      } else {
        root := elm;
      }
    }

    /** Hangs the new element elm, red and childless, at an empty place. */
    method Attach(elm: Elem, parent: Elem?, comp: int, ghost p: Path)
      requires Linked() && tree == Plug(p, Leaf) && parent == HoleParent(p) && elm !in Elems(tree)
      requires p.Step? ==> (comp < 0 <==> p.side.L?)
      modifies this, elm, if parent != null then {parent} else {}
      ensures Linked() && tree == Plug(p, Node(Leaf, elm, Red, Leaf)) && Elems(tree) == old(Elems(tree)) + {elm}
    {
      ghost var S := Elems(tree);
      ghost var m := Snapshot(S);
      Look(p, Leaf);
      LinkBelow(elm, parent, comp, S);
      ghost var m' := Snapshot(S + {elm});
      AttachShape(m, m', p, elm);
      Adopt(Plug(p, Node(Leaf, elm, Red, Leaf)), m');
    }

    /** The descent of RB_INSERT: the element with key k, or the empty place for it. */
    method Descend(k: int) returns (tmp: Elem?, parent: Elem?, comp: int, ghost p: Path)
      requires Valid()
      ensures Valid()
      ensures tmp != null ==> tmp in Elems(tree) && tmp.key == k
      ensures tmp == null ==>
        && tree == Plug(p, Leaf) && Brackets(p, k) && parent == HoleParent(p)
        && (p.Step? ==> parent in Elems(tree) && (comp < 0 <==> p.side.L?))
    {
      hide Sorted, InOrder, Snapshot, Shape;
      tmp, parent, comp := root, null, 0;
      ghost var t := tree;
      p := Top;
      while tmp != null
        invariant Linked() && tree == Plug(p, t) && tmp == RootOf(t) && parent == HoleParent(p) && Brackets(p, k)
        invariant p.Step? ==> parent in Elems(tree) && (comp < 0 <==> p.side.L?)
        decreases t
      {
        Look(p, t);
        Narrow(p, t, k);
        parent := tmp;
        comp := Cmp(k, parent.key);
        if comp < 0 {
          tmp := tmp.left;
          p, t := Step(L, t.e, t.c, t.right, p), t.left;
        } else if comp > 0 {
          tmp := tmp.right;
          p, t := Step(R, t.e, t.c, t.left, p), t.right;
        } else {
          return;
        }
      }
    }

    /** RB_INSERT. */
    method Insert(elm: Elem) returns (found: Elem?)
      requires Valid()
      modifies this, Elems(tree), elm
      ensures Valid()
      ensures found != null ==> tree == old(tree) && found in Elems(tree) && found.key == elm.key
      ensures found == null ==> Elems(tree) == old(Elems(tree)) + {elm}
      ensures found == null ==> forall n :: n in old(Elems(tree)) ==> n.key != elm.key
    {
      var tmp, parent, comp, p := Descend(elm.key);
      if tmp != null { return tmp; }
      Missing(p, elm);
      Attach(elm, parent, comp, p);
      InsertColor(elm, p, Node(Leaf, elm, Red, Leaf));
      return null;
    }

    /** The stores that put child where elm hangs, as they rewrite the fields of the elements of S. */
    method Unlink(elm: Elem, child: Elem?, parent: Elem?, ghost S: set<Elem>)
      requires elm in S && elm != child && elm != parent && elm.parent == parent
      requires (child != null ==> child in S && child != parent) && (parent != null ==> parent in S)
      modifies `root, if child != null then {child} else {}, if parent != null then {parent} else {}
      ensures UnlinkStep(old(Snapshot(S)), Snapshot(S), elm, child, parent, S)
      ensures root == if parent == null then child else old(root)
    {
      if child != null { child.parent := parent; }
      if parent != null {
        if parent.left == elm { parent.left := child; } else { parent.right := child; }
      } else {
        root := child;
      }
    }

    /** Takes an element with at most one child out of the tree. */
    method Splice(elm: Elem, child: Elem?, parent: Elem?, ghost p: Path, ghost t: Tree)
      requires Linked() && tree == Plug(p, t) && RootOf(t) == elm && parent == HoleParent(p)
      requires (t.left.Leaf? || t.right.Leaf?) && child == RootOf(Only(t))
      modifies this, Elems(tree) - {elm}
      ensures Linked() && tree == Plug(p, Only(t)) && Elems(tree) == old(Elems(tree)) - {elm}
    {
      ghost var S := Elems(tree);
      ghost var m := Snapshot(S);
      Look(p, t);
      OnlyChild(p, t);
      Unlink(elm, child, parent, S);
      ghost var m' := Snapshot(S);
      SpliceShape(m, m', p, t);
      Adopt(Plug(p, Only(t)), m');
    }

    /** The stores that put elm in the place of old_, as they rewrite the fields of the elements of S. */
    method Supplant(old_: Elem, elm: Elem, ghost S: set<Elem>)
      requires elm !in S && CanSupplant(Snapshot(S), old_, S)
      modifies `root, elm, S
      ensures SupplantStep(old(Snapshot(S)), Snapshot(S + {elm}), old_, elm, S)
      ensures root == if old(old_.parent) == null then elm else old(root)
    {
      elm.left, elm.right, elm.parent, elm.color := old_.left, old_.right, old_.parent, old_.color;
      if old_.parent != null {
        if old_.parent.left == old_ { old_.parent.left := elm; } else { old_.parent.right := elm; }
      } else {
        root := elm;
      }
      old_.left.parent := elm;
      if old_.right != null { old_.right.parent := elm; }
    }

    /** Puts elm in the place of an element with a left child. */
    method Substitute(old_: Elem, elm: Elem, ghost p: Path, ghost t: Tree)
      requires Linked() && tree == Plug(p, t) && RootOf(t) == old_ && t.left.Node? && elm !in Elems(tree)
      modifies this, elm, Elems(tree)
      ensures Linked() && tree == Plug(p, t.(e := elm)) && Elems(tree) == old(Elems(tree)) - {old_} + {elm}
    {
      ghost var S := Elems(tree);
      ghost var m := Snapshot(S);
      SupplantReady(m, p, t);
      Supplant(old_, elm, S);
      ghost var m' := Snapshot(S + {elm});
      SupplantShape(m, m', p, t, elm);
      Adopt(Plug(p, t.(e := elm)), m');
    }

    /** RB_REMOVE_COLOR, red sibling: the sibling rises above the parent. */
    method Lift(s: Side, parent: Elem, tmp: Elem, ghost p: Path, ghost t: Tree)
      requires Linked() && tree == Plug(p, t) && p.Step? && p.side == s && p.sib.Node?
      requires parent == p.e && tmp == p.sib.e
      modifies this, Elems(tree)
      ensures Linked() && tree == Plug(Lifted(p), t) && Elems(tree) == old(Elems(tree))
    {
      Look(p, t);
      Look(Step(s.Other(), parent, p.c, t, p.up), p.sib);
      Paint(tmp, Black, Step(s.Other(), parent, p.c, t, p.up), p.sib);
      ghost var sib := p.sib.(c := Black);
      Paint(parent, Red, p.up, Mk(s, t, parent, p.c, sib));
      Rotate(s, parent, p.up, Mk(s, t, parent, Red, sib));
    }

    /** RB_REMOVE_COLOR, black far nephew: the red near nephew rises above the sibling. */
    method Turn(s: Side, parent: Elem, tmp: Elem, oleft: Elem, ghost p: Path, ghost t: Tree)
      requires Linked() && tree == Plug(p, t) && p.Step? && p.side == s && p.sib.Node? && Near(s, p.sib).Node?
      requires parent == p.e && tmp == p.sib.e && oleft == Near(s, p.sib).e
      modifies this, Elems(tree)
      ensures Linked() && tree == Plug(Turned(p), t) && Elems(tree) == old(Elems(tree))
    {
      ghost var q := Step(s.Other(), parent, p.c, t, p.up);
      Look(q, p.sib);
      Look(Step(s, tmp, p.sib.c, Far(s, p.sib), q), Near(s, p.sib));
      Paint(oleft, Black, Step(s, tmp, p.sib.c, Far(s, p.sib), q), Near(s, p.sib));
      ghost var near := Near(s, p.sib).(c := Black);
      Paint(tmp, Red, q, Mk(s, near, tmp, p.sib.c, Far(s, p.sib)));
      Rotate(s.Other(), tmp, q, Mk(s, near, tmp, Red, Far(s, p.sib)));
    }

    /** RB_REMOVE_COLOR, red far nephew: the sibling rises, and the missing black is made good. */
    method Fill(s: Side, parent: Elem, tmp: Elem, ghost p: Path, ghost t: Tree)
      requires Linked() && tree == Plug(p, t) && p.Step? && p.side == s && p.sib.Node? && Far(s, p.sib).Node?
      requires parent == p.e && tmp == p.sib.e
      modifies this, Elems(tree)
      ensures Linked() && tree == Plug(p.up, Filled(p, t)) && Elems(tree) == old(Elems(tree))
    {
      ghost var q := Step(s.Other(), parent, p.c, t, p.up);
      Look(p, t);
      Look(q, p.sib);
      Paint(tmp, parent.color, q, p.sib);
      ghost var sib := p.sib.(c := p.c);
      Paint(parent, Black, p.up, Mk(s, t, parent, p.c, sib));
      ghost var q' := Step(s.Other(), tmp, p.c, Near(s, sib), Step(s.Other(), parent, Black, t, p.up));
      Look(Step(s.Other(), parent, Black, t, p.up), sib);
      Look(q', Far(s, sib));
      var far := if s.L? then tmp.right else tmp.left;
      if far != null { Paint(far, Black, q', Far(s, sib)); }
      sib := Mk(s, Near(s, sib), tmp, p.c, Far(s, sib).(c := Black));
      Rotate(s, parent, p.up, Mk(s, t, parent, Black, sib));
    }

    /** One round of the loop of RB_REMOVE_COLOR below a black sibling tmp. */
    method Rebalance(s: Side, parent: Elem, tmp0: Elem, ghost p: Path, ghost t: Tree)
      returns (done: bool, parent': Elem?, elm': Elem?, ghost p': Path, ghost t': Tree)
      requires Linked() && tree == Plug(p, t) && HoleParent(p) == parent && p.side == s
      requires LackAt(p, t) && BlackRoot(t) && RootOf(p.sib) == tmp0 && p.sib.c.Black?
      modifies this, Elems(tree)
      ensures Linked() && tree == Plug(p', t') && RootOf(t') == elm' && HoleParent(p') == parent' && LackAt(p', t')
      ensures Elems(tree) == old(Elems(tree)) && InOrder(tree) == old(InOrder(tree))
      ensures if done then p'.Top? else RoundsLeft(p', t') <= if p.c.Red? then 0 else Depth(p)
    {
      var tmp := tmp0;
      ghost var q := Step(s.Other(), parent, p.c, t, p.up);
      Look(q, p.sib);
      Look(Step(s, tmp, p.sib.c, Far(s, p.sib), q), Near(s, p.sib));
      Look(Step(s.Other(), tmp, p.sib.c, Near(s, p.sib), q), Far(s, p.sib));
      var near, far := if s.L? then tmp.left else tmp.right, if s.L? then tmp.right else tmp.left;
      if (near == null || near.color == Black) && (far == null || far.color == Black) {
        DrainKeeps(p, t);
        Paint(tmp, Red, q, p.sib);
        t' := Mk(s, t, parent, p.c, p.sib.(c := Red));
        Look(p.up, t');
        return false, parent.parent, parent, p.up, t';
      }
      p' := p;
      if far == null || far.color == Black {
        TurnKeeps(p, t);
        Turn(s, parent, tmp, near, p, t);
        p' := Turned(p);
        Look(p', t);
        tmp := if s.L? then parent.right else parent.left;
      }
      FillKeeps(p', t);
      Fill(s, parent, tmp, p', t);
      return true, null, root, Top, tree;
    }

    /** One round of the loop of RB_REMOVE_COLOR, at a black or missing elm below parent. */
    method RemoveRound(parent: Elem, elm: Elem?, ghost p: Path, ghost t: Tree)
      returns (done: bool, parent': Elem?, elm': Elem?, ghost p': Path, ghost t': Tree)
      requires Linked() && tree == Plug(p, t) && RootOf(t) == elm && HoleParent(p) == parent
      requires LackAt(p, t) && BlackRoot(t)
      modifies this, Elems(tree)
      ensures Linked() && tree == Plug(p', t') && RootOf(t') == elm' && HoleParent(p') == parent' && LackAt(p', t')
      ensures Elems(tree) == old(Elems(tree)) && InOrder(tree) == old(InOrder(tree))
      ensures if done then p'.Top? else RoundsLeft(p', t') < RoundsLeft(p, t)
    {
      var s := if parent.left == elm then L else R;
      p' := p;
      Look(p, t);
      LackSibling(p, t);
      Look(Step(s.Other(), parent, p.c, t, p.up), p.sib);
      var tmp := if s.L? then parent.right else parent.left;
      if tmp.color == Red {
        LiftKeeps(p, t);
        Lift(s, parent, tmp, p, t);
        p' := Lifted(p);
        Look(p', t);
        tmp := if s.L? then parent.right else parent.left;
      }
      done, parent', elm', p', t' := Rebalance(s, parent, tmp, p', t);
    }

    /** The last step of RB_REMOVE_COLOR: the missing black goes to elm. */
    method Blacken(elm: Elem?, ghost p: Path, ghost t: Tree)
      requires Linked() && tree == Plug(p, t) && RootOf(t) == elm && LackAt(p, t) && (p.Top? || !BlackRoot(t))
      modifies this`tree, if elm != null then {elm} else {}
      ensures Linked() && Fine(tree) && BlackRoot(tree)
      ensures InOrder(tree) == old(InOrder(tree)) && Elems(tree) == old(Elems(tree))
    {
      LackDone(p, t);
      if elm != null { Paint(elm, Black, p, t); }
    }

    /** RB_REMOVE_COLOR, started where the black count is one short. */
    method RemoveColor(parent0: Elem?, elm0: Elem?, ghost p0: Path, ghost t0: Tree)
      requires Linked() && tree == Plug(p0, t0) && RootOf(t0) == elm0 && HoleParent(p0) == parent0 && LackAt(p0, t0)
      modifies this, Elems(tree)
      ensures Linked() && Fine(tree) && BlackRoot(tree)
      ensures InOrder(tree) == old(InOrder(tree)) && Elems(tree) == old(Elems(tree))
    {
      var parent, elm, done := parent0, elm0, false;
      ghost var p, t := p0, t0;
      Look(p, t);
      while !done && (elm == null || elm.color == Black) && elm != root
        invariant Linked() && tree == Plug(p, t) && RootOf(t) == elm && HoleParent(p) == parent && LackAt(p, t)
        invariant InOrder(tree) == old(InOrder(tree)) && Elems(tree) == old(Elems(tree))
        invariant elm == root <==> p.Top?
        invariant elm != null ==> elm in Elems(tree) && elm.color == t.c
        invariant done ==> p.Top?
        decreases !done, RoundsLeft(p, t)
      {
        done, parent, elm, p, t := RemoveRound(parent, elm, p, t);
        Look(p, t);
      }
      Blacken(elm, p, t);
    }

    /** RB_REMOVE, two children: the leftmost element below the right child, and where it is. */
    method Successor(old_: Elem, ghost p: Path, ghost t: Tree) returns (elm: Elem, ghost q: Path, ghost u: Tree)
      requires Linked() && tree == Plug(p, t) && RootOf(t) == old_ && t.right.Node?
      ensures Linked() && t.right == Plug(q, u) && RootOf(u) == elm && u.left.Leaf? && Before(q) == []
      ensures elm == First<Elem?>(InOrder(t.right), null)
    {
      hide Snapshot, Shape, Elems;
      Look(p, t);
      elm := old_.right;
      q, u := Top, t.right;
      Deeper(p, t, q, u);
      Look(Append(q, Step(R, t.e, t.c, t.left, p)), u);
      while elm.left != null
        invariant Linked() && t.right == Plug(q, u) && RootOf(u) == elm && elm.left == RootOf(u.left) && Before(q) == []
        decreases u
      {
        elm := elm.left;
        q, u := Step(L, u.e, u.c, u.right, q), u.left;
        Deeper(p, t, q, u);
        Look(Append(q, Step(R, t.e, t.c, t.left, p)), u);
      }
      PlugInOrder(q, u);
    }

    /** RB_REMOVE, two children: the successor is spliced out. */
    method SpliceSuccessor(old_: Elem, ghost p: Path, ghost t: Tree)
      returns (elm: Elem, child: Elem?, parent: Elem?, color: Color, ghost q: Path, ghost u: Tree)
      requires Linked() && tree == Plug(p, t) && RootOf(t) == old_ && t.right.Node?
      modifies this, Elems(tree)
      ensures t.right == Plug(q, u) && RootOf(u) == elm && u.left.Leaf? && Before(q) == []
      ensures Linked() && tree == Plug(p, Node(t.left, old_, t.c, Plug(q, u.right)))
      ensures child == RootOf(u.right) && parent == (if q.Top? then elm else q.e) && color == u.c
      ensures Elems(tree) == old(Elems(tree)) - {elm} && elm in old(Elems(tree)) && elm != old_
    {
      elm, q, u := Successor(old_, p, t);
      ghost var below := Append(q, Step(R, old_, t.c, t.left, p));
      Deeper(p, t, q, u);
      Look(below, u);
      PlugSep(p, t);
      PlugElems(q, u);
      child := elm.right;
      parent := elm.parent;
      color := elm.color;
      Splice(elm, child, parent, below, u);
      if elm.parent == old_ { parent := elm; }
      Deeper(p, Node(t.left, old_, t.c, Plug(q, u.right)), q, u.right);
    }

    /** RB_REMOVE, two children: the successor is spliced out and takes the place of old_. */
    method MoveSuccessor(old_: Elem, ghost p: Path, ghost t: Tree)
      returns (child: Elem?, parent: Elem?, color: Color, ghost q: Path, ghost u: Tree)
      requires Linked() && tree == Plug(p, t) && RootOf(t) == old_ && t.left.Node? && t.right.Node?
      modifies this, Elems(tree)
      ensures t.right == Plug(q, u) && u.Node? && u.left.Leaf? && Before(q) == []
      ensures Linked() && tree == Plug(p, Node(t.left, u.e, t.c, Plug(q, u.right)))
      ensures child == RootOf(u.right) && parent == (if q.Top? then u.e else q.e) && color == u.c
      ensures Elems(tree) == old(Elems(tree)) - {old_}
    {
      hide Snapshot, Shape, Sep, Plug, InOrder;
      var elm;
      elm, child, parent, color, q, u := SpliceSuccessor(old_, p, t);
      Substitute(old_, elm, p, Node(t.left, old_, t.c, Plug(q, u.right)));
    }

    /** RB_REMOVE, at most one child: the element is spliced out. */
    method RemoveOuter(elm: Elem, child: Elem?, ghost p: Path, ghost t: Tree) returns (parent: Elem?, color: Color)
      requires Linked() && Fine(tree) && BlackRoot(tree)
      requires tree == Plug(p, t) && RootOf(t) == elm && (t.left.Leaf? || t.right.Leaf?) && child == RootOf(Only(t))
      modifies this, Elems(tree)
      ensures Linked() && tree == Plug(p, Only(t)) && HoleParent(p) == parent
      ensures if color == Red then Fine(tree) && BlackRoot(tree) else LackAt(p, Only(t))
      ensures Elems(tree) == old(Elems(tree)) - {elm}
      ensures Sorted(old(InOrder(tree))) ==> Sorted(InOrder(tree))
    {
      Look(p, t);
      parent := elm.parent;
      color := elm.color;
      Splice(elm, child, parent, p, t);
      SplicedKeeps(p, t);
      SplicedSorted(p, t);
    }

    /** RB_REMOVE. */
    method Remove(elm: Elem) returns (old_: Elem)
      requires Valid() && elm in Elems(tree)
      modifies this, Elems(tree)
      ensures Valid() && old_ == elm && Elems(tree) == old(Elems(tree)) - {elm}
    {
      old_ := elm;
      ghost var p, t := Locate(Top, tree, elm);
      Look(p, t);
      var child, parent, color;
      if elm.left != null && elm.right != null {
        ghost var q, u;
        child, parent, color, q, u := MoveSuccessor(elm, p, t);
        RemovedKeeps(p, t, q, u);
        p, t := Append(q, Step(R, u.e, t.c, t.left, p)), u.right;
      } else {
        if elm.left == null { child := elm.right; } else { child := elm.left; }
        parent, color := RemoveOuter(elm, child, p, t);
        t := Only(t);
      }
      if color == Black { RemoveColor(parent, child, p, t); }
    }

    /** RB_FIND. */
    method Find(k: int) returns (r: Elem?)
      requires Valid()
      ensures Valid()
      ensures r != null ==> r in Elems(tree) && r.key == k
      ensures r == null ==> forall n :: n in Elems(tree) ==> n.key != k
    {
      hide Sorted, InOrder, Snapshot, Shape;
      var tmp := root;
      ghost var p, t := Top, tree;
      while tmp != null
        invariant Linked() && tree == Plug(p, t) && tmp == RootOf(t) && Brackets(p, k)
        decreases t
      {
        Look(p, t);
        Narrow(p, t, k);
        var comp := Cmp(k, tmp.key);
        if comp < 0 {
          tmp := tmp.left;
          p, t := Step(L, t.e, t.c, t.right, p), t.left;
        } else if comp > 0 {
          tmp := tmp.right;
          p, t := Step(R, t.e, t.c, t.left, p), t.right;
        } else {
          return tmp;
        }
      }
      Bracketed(p, k);
      return null;
    }

    /** RB_NFIND. */
    method NFind(k: int) returns (r: Elem?)
      requires Valid()
      ensures Valid()
      ensures r == null ==> forall n :: n in Elems(tree) ==> n.key < k
      ensures r != null ==> r in Elems(tree) && k <= r.key
      ensures r != null ==> forall n :: n in Elems(tree) ==> n.key < k || r.key <= n.key
    {
      hide Sorted, InOrder, Snapshot, Shape;
      var tmp, res := root, null;
      ghost var p, t := Top, tree;
      while tmp != null
        invariant Linked() && tree == Plug(p, t) && tmp == RootOf(t) && Brackets(p, k)
        invariant res == First<Elem?>(After(p), null)
        decreases t
      {
        Look(p, t);
        Narrow(p, t, k);
        var comp := Cmp(k, tmp.key);
        if comp < 0 {
          res := tmp;
          tmp := tmp.left;
          p, t := Step(L, t.e, t.c, t.right, p), t.left;
        } else if comp > 0 {
          tmp := tmp.right;
          p, t := Step(R, t.e, t.c, t.left, p), t.right;
        } else {
          return tmp;
        }
      }
      LeastAbove(p, k);
      return res;
    }

    /** RB_MINMAX: the first element towards side s, that is the minimum for L (a negative val) and
        the maximum for R. */
    method MinMax(val: int) returns (r: Elem?)
      requires Valid()
      ensures Valid()
      ensures r == First<Elem?>(Ordered(if val < 0 then R else L, tree), null)
    {
      hide Snapshot, Shape, Elems, InOrder;
      var s := if val < 0 then L else R;
      var tmp, parent := root, null;
      ghost var p, t := Top, tree;
      while tmp != null
        invariant Linked() && tree == Plug(p, t) && tmp == RootOf(t)
        invariant Behind(s.Other(), p) == [] && (parent == null <==> p.Top?)
        invariant parent == First<Elem?>(Ahead(s.Other(), p), null)
        decreases t
      {
        Look(p, t);
        parent := tmp;
        tmp := if s.L? then tmp.left else tmp.right;
        p, t := Step(s, t.e, t.c, Far(s, t), p), Near(s, t);
      }
      PlugOrdered(s.Other(), p, t);
      return parent;
    }

    /** RB_NEXT and RB_PREV, with a child ahead: down to the nearest element below it. */
    method AdvanceDown(s: Side, elm0: Elem, ghost p0: Path, ghost t0: Tree) returns (r: Elem)
      requires Linked() && tree == Plug(p0, t0) && RootOf(t0) == elm0 && Near(s, t0).Node?
      ensures Linked() && r == First<Elem?>(Ordered(s, Near(s, t0)), null)
    {
      hide Snapshot, Shape, Elems;
      Look(p0, t0);
      var elm := elm0.Child(s);
      ghost var p, t := Step(s, t0.e, t0.c, Far(s, t0), p0), Near(s, t0);
      Look(p, t);
      while elm.Child(s.Other()) != null
        invariant Linked() && tree == Plug(p, t) && t.Node? && t.e == elm
        invariant elm.Child(s.Other()) == RootOf(Far(s, t))
        invariant First<Elem?>(Ordered(s, Near(s, t0)), null) == First<Elem?>(Ordered(s, t), null)
        decreases t
      {
        elm := elm.Child(s.Other());
        p, t := Step(s.Other(), t.e, t.c, Near(s, t), p), Far(s, t);
        Look(p, t);
      }
      return elm;
    }

    /** RB_NEXT and RB_PREV, with no child ahead: up to the first parent that lies ahead. */
    method AdvanceUp(s: Side, elm0: Elem, ghost p0: Path, ghost t0: Tree) returns (r: Elem?)
      requires Linked() && tree == Plug(p0, t0) && RootOf(t0) == elm0
      ensures Linked() && r == First<Elem?>(Ahead(s, p0), null)
    {
      Look(p0, t0);
      if elm0.parent != null && elm0 == elm0.parent.Child(s.Other()) {
        return elm0.parent;
      }
      var elm := elm0;
      ghost var p, t := p0, t0;
      while elm.parent != null && elm == elm.parent.Child(s)
        invariant Linked() && tree == Plug(p, t) && t.Node? && t.e == elm && elm.parent == HoleParent(p)
        invariant p.Step? ==> elm == p.e.Child(p.side) && elm != p.e.Child(p.side.Other())
        invariant First<Elem?>(Ahead(s, p0), null) == First<Elem?>(Ahead(s, p), null)
        decreases Depth(p)
      {
        elm := elm.parent;
        p, t := p.up, Mk(p.side, t, p.e, p.c, p.sib);
        Look(p, t);
      }
      return elm.parent;
    }

    /** RB_NEXT (s == R) and RB_PREV (s == L): the element after elm in the direction of s. */
    method Advance(s: Side, elm: Elem) returns (r: Elem?)
      requires Valid() && elm in Elems(tree)
      ensures Valid()
      ensures IsNext<Elem?>(Ordered(s, tree), elm, r, null)
    {
      ghost var p, t := Locate(Top, tree, elm);
      hide Snapshot, Shape, Elems, Sorted, Plug, InOrder;
      Look(p, t);
      OrderedAt(s, p, t);
      if elm.Child(s) != null {
        r := AdvanceDown(s, elm, p, t);
      } else {
        r := AdvanceUp(s, elm, p, t);
      }
    }

    /** RB_FOREACH (s == R) and RB_FOREACH_REVERSE (s == L), listing the elements they visit. */
    method Foreach(s: Side) returns (visited: seq<Elem>)
      requires Valid()
      ensures Valid()
      ensures visited == Ordered(s, tree)
    {
      visited := [];
      ghost var all: seq<Elem?> := Ordered(s, tree);
      OrderedOnce(s, tree);
      WalkStart(all, null);
      var x := MinMax(if s.R? then -1 else 1);
      while x != null
        invariant Valid() && all == Ordered(s, tree) && Walking(all, visited, x, null)
        decreases |all| - |visited|
      {
        WalkOver(all, visited, x, null);
        OrderedElems(s, tree, x);
        var next := Advance(s, x);
        WalkOn(all, visited, x, next, null);
        visited := visited + [x];
        x := next;
      }
      WalkOver(all, visited, x, null);
    }

    /** RB_INIT. */
    constructor ()
      ensures Valid() && tree == Leaf
    {
      root, tree := null, Leaf;
    }

    method Apply(op: Op)
      requires Valid()
      modifies this, Elems(tree)
      ensures Valid() && Keys(tree) == KeysStep(old(Keys(tree)), op) && fresh(Elems(tree) - old(Elems(tree)))
    {
      hide Sorted, InOrder, Snapshot, Shape, Sep, Fine, BlackRoot;
      match op {
        case Ins(k) =>
          assert allocated(Elems(tree));
          var elm := new Elem(k);
          var found := Insert(elm);
        case Rem(k) =>
          var x := Find(k);
          if x != null {
            var old_ := Remove(x);
            KeysWithout(old(tree), tree, x);
          }
      }
    }

    /** Any run of inserts and removes on an empty tree. */
    static method Run(ops: seq<Op>) returns (h: RbHead)
      ensures h.Valid() && Keys(h.tree) == KeysAfter(ops)
      ensures Pow2(Height(h.tree)) <= (|KeysAfter(ops)| + 1) * (|KeysAfter(ops)| + 1)
    {
      hide Sorted, InOrder, Snapshot, Shape, Sep, Fine, BlackRoot;
      h := new RbHead();
      for i := 0 to |ops|
        invariant fresh(h) && fresh(Elems(h.tree)) && h.Valid() && Keys(h.tree) == KeysAfter(ops[..i])
      {
        assert ops[..i + 1][..i] == ops[..i];
        h.Apply(ops[i]);
      }
      assert ops[..|ops|] == ops;
      HeightBound(h.tree);
      KeysSize(h.tree);
    }
  }
}
