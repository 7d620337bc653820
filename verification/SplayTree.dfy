/** The splay tree of include/libuv/uv/tree.h: every operation splays, in place, and then rewrites a
    few links at the root. */
module SplayTree {
  import opened Sides
  import opened SplayShape
  import opened Walks

  class SplayHead {
    var root: Elem?
    ghost var tree: Tree

    /** The heap holds exactly the ghost tree. */
    ghost predicate Linked()
      reads this, Elems(tree)
    {
      root == RootOf(tree) && Sep(tree) && Shape(Snapshot(Elems(tree)), tree)
    }

    ghost predicate Valid()
      reads this, Elems(tree)
    {
      Linked() && Sorted(InOrder(tree))
    }

    /** The heap holds a splay in progress, on the elements of S. */
    ghost predicate Holds(st: State, dummy: Elem, S: set<Elem>)
      reads this, S
    {
      && S == StateElems(st) + {dummy}
      && root == RootOf(st.t) && StateShape(Snapshot(S), st, dummy)
    }

    lemma Look(st: State, dummy: Elem, S: set<Elem>)
      requires Holds(st, dummy, S) && st.t.Node?
      ensures st.t.e in S && root == st.t.e && st.t.e != dummy
      ensures root.left == RootOf(st.t.left) && root.right == RootOf(st.t.right)
      ensures Last(st.ls, dummy) in S && Last(st.rs, dummy) in S
      ensures Last(st.ls, dummy) != st.t.e && Last(st.rs, dummy) != st.t.e
      ensures Last(st.ls, dummy) == Last(st.rs, dummy) ==> Last(st.ls, dummy) == dummy
    {
    }

    lemma LookBelow(d: Side, st: State, dummy: Elem, S: set<Elem>)
      requires Holds(st, dummy, S) && st.t.Node? && Near(d, st.t).Node?
      ensures var y := Near(d, st.t);
        y.e in S && y.e != st.t.e && y.e.left == RootOf(y.left) && y.e.right == RootOf(y.right)
    {
      var y := Near(d, st.t);
      assert y.e in Elems(st.t) && Shape(Snapshot(S), y);
    }

    /** SPLAY_ROTATE_RIGHT (d == L) and SPLAY_ROTATE_LEFT (d == R), as they rewrite the fields of
        the elements of S. */
    method RotateFields(d: Side, x: Elem, tmp: Elem, ghost S: set<Elem>)
      requires root == x && x in S && tmp in S && x != tmp
      modifies `root, x, tmp
      ensures var m, m' := old(Snapshot(S)), Snapshot(S);
        && m'(x) == m(x).With(d, m(tmp).Child(d.Other())) && m'(tmp) == m(tmp).With(d.Other(), x)
        && forall n :: n in S && n != x && n != tmp ==> m'(n) == m(n)
      ensures root == tmp
    {
      if d.L? {
        root.left := tmp.right;
        tmp.right := root;
      } else {
        root.right := tmp.left;
        tmp.left := root;
      }
      root := tmp;
    }

    method Rotate(d: Side, tmp: Elem, ghost st: State, dummy: Elem, ghost S: set<Elem>)
      requires Holds(st, dummy, S) && st.t.Node? && RootOf(Near(d, st.t)) == tmp
      modifies `root, S
      ensures Holds(st.(t := Rotated(d, st.t)), dummy, S)
    {
      ghost var m := Snapshot(S);
      Look(st, dummy, S);
      LookBelow(d, st, dummy, S);
      RotateFields(d, root, tmp, S);
      RotatedKeeps(d, st, dummy);
      RotateShape(m, Snapshot(S), d, st, dummy);
    }

    /** SPLAY_LINKLEFT (d == L) and SPLAY_LINKRIGHT (d == R), at the open end tmp. */
    method Link(d: Side, tmp: Elem, ghost st: State, dummy: Elem, ghost S: set<Elem>) returns (end: Elem)
      requires Holds(st, dummy, S) && st.t.Node? && tmp == Last(st.Spine(d.Other()), dummy)
      modifies `root, S
      ensures Holds(Linking(d, st), dummy, S) && end == Last(Linking(d, st).Spine(d.Other()), dummy)
    {
      ghost var m := Snapshot(S);
      Look(st, dummy, S);
      if d.L? { tmp.left := root; } else { tmp.right := root; }
      end := root;
      root := if d.L? then root.left else root.right;
      LinkedKeeps(d, st, dummy);
      LinkShape(m, Snapshot(S), d, st, dummy);
    }

    /** SPLAY_ASSEMBLE. */
    method Assemble(node: Elem, left: Elem, right: Elem, ghost st: State, ghost S: set<Elem>)
      requires Holds(st, node, S) && st.t.Node? && left == Last(st.ls, node) && right == Last(st.rs, node)
      modifies this, S
      ensures Linked() && tree == Assembled(st)
    {
      ghost var m := Snapshot(S);
      Look(st, node, S);
      left.right := root.left;
      right.left := root.right;
      root.left := node.right;
      root.right := node.left;
      ghost var m' := Snapshot(S);
      AssembleShape(m, m', st, node);
      AssembledKeeps(st, node);
      Adopt(Assembled(st), m');
    }

    /** What one round of a splay makes of the state, on side d, with or without the rotation. */
    ghost function Turned(d: Side, rot: bool, st: State): State
      requires st.t.Node? && Near(d, st.t).Node?
    {
      if rot then st.(t := Rotated(d, st.t)) else st
    }

    /** One round of the loops of SPLAY and SPLAY_MINMAX on side d: the rotation if asked for, and the
        link unless nothing is left on that side. */
    method Round(d: Side, rot: bool, tmp: Elem, left: Elem, right: Elem,
                 ghost st: State, node: Elem, ghost S: set<Elem>)
      returns (stop: bool, left': Elem, right': Elem, ghost st': State)
      requires Holds(st, node, S) && st.t.Node? && RootOf(Near(d, st.t)) == tmp
      requires left == Last(st.ls, node) && right == Last(st.rs, node)
      modifies `root, S
      ensures Holds(st', node, S) && st'.t.Node? && left' == Last(st'.ls, node) && right' == Last(st'.rs, node)
      ensures StateOrder(st') == StateOrder(st)
      ensures if stop then rot && st' == Turned(d, rot, st) && Near(d, st'.t).Leaf?
              else st' == Linking(d, Turned(d, rot, st)) && Size(st'.t) < Size(st.t)
    {
      st' := st;
      left', right', stop := left, right, false;
      if rot {
        RotatedKeeps(d, st, node);
        Rotate(d, tmp, st, node, S);
        st' := Turned(d, rot, st);
        Look(st', node, S);
        if (if d.L? then root.left else root.right) == null {
          stop := true;
          return;
        }
      }
      LinkedKeeps(d, st', node);
      if d.L? {
        right' := Link(d, right', st', node, S);
      } else {
        left' := Link(d, left', st', node, S);
      }
      st' := Linking(d, st');
    }

    /** The start of a splay: both side trees are empty. */
    lemma Begin(node: Elem)
      requires Linked() && node !in Elems(tree)
      ensures Holds(State(tree, Nil, Nil), node, Elems(tree) + {node})
      ensures StateOrder(State(tree, Nil, Nil)) == InOrder(tree)
    {
      Frame(Snapshot(Elems(tree)), Snapshot(Elems(tree) + {node}), tree);
    }

    /** One round of the loop of SPLAY, at a root that does not have the key. */
    method SplayRound(k: int, left: Elem, right: Elem, ghost st: State, node: Elem, ghost S: set<Elem>)
      returns (stop: bool, left': Elem, right': Elem, ghost st': State)
      requires Holds(st, node, S) && st.t.Node? && left == Last(st.ls, node) && right == Last(st.rs, node)
      requires Sorted(StateOrder(st)) && Parted(st, k) && st.t.e.key != k
      modifies `root, S
      ensures Holds(st', node, S) && st'.t.Node? && left' == Last(st'.ls, node) && right' == Last(st'.rs, node)
      ensures StateOrder(st') == StateOrder(st) && Parted(st', k)
      ensures if stop then Reached(st'.t, k) else Size(st'.t) < Size(st.t)
    {
      Look(st, node, S);
      var d := if Cmp(k, root.key) < 0 then L else R;
      var tmp := if d.L? then root.left else root.right;
      if tmp == null {
        return true, left, right, st;
      }
      var rot := if d.L? then Cmp(k, tmp.key) < 0 else Cmp(k, tmp.key) > 0;
      RotatedKeeps(d, st, node);
      LinkedParts(d, Turned(d, rot, st), k);
      stop, left', right', st' := Round(d, rot, tmp, left, right, st, node, S);
    }

    /** The end of SPLAY. */
    method Finish(k: int, node: Elem, left: Elem, right: Elem, ghost st: State, ghost S: set<Elem>)
      requires Holds(st, node, S) && left == Last(st.ls, node) && right == Last(st.rs, node)
      requires Reached(st.t, k) && Parted(st, k)
      modifies this, S
      ensures Linked() && Splayed(tree, k) && InOrder(tree) == StateOrder(st) && Elems(tree) == StateElems(st)
    {
      AssembledSplayed(st, k);
      AssembledKeeps(st, node);
      Assemble(node, left, right, st, S);
    }

    /** The loop of SPLAY and the assembly, with the dummy node that holds the side trees. */
    method SplayOn(k: int, node: Elem, ghost S: set<Elem>)
      requires Holds(State(tree, Nil, Nil), node, S) && tree.Node? && Sorted(InOrder(tree))
      modifies this, S
      ensures Linked() && Splayed(tree, k)
      ensures InOrder(tree) == old(InOrder(tree))
    {
      ghost var T0, st := tree, State(tree, Nil, Nil);
      var left, right, stop := node, node, false;
      while !stop && Cmp(k, root.key) != 0
        invariant Holds(st, node, S) && st.t.Node? && left == Last(st.ls, node) && right == Last(st.rs, node)
        invariant StateOrder(st) == InOrder(T0) && Parted(st, k)
        invariant st.t.e == root && (stop ==> Reached(st.t, k))
        decreases !stop, Size(st.t)
      {
        stop, left, right, st := SplayRound(k, left, right, st, node, S);
      }
      Finish(k, node, left, right, st, S);
    }

    /** SPLAY. */
    method Splay(k: int)
      requires Valid() && tree.Node?
      modifies this, Elems(tree)
      ensures Valid() && Splayed(tree, k)
      ensures InOrder(tree) == old(InOrder(tree)) && Elems(tree) == old(Elems(tree))
    {
      assert allocated(Elems(tree));
      var node := new Elem(0);
      Begin(node);
      SplayOn(k, node, Elems(tree) + {node});
      ElemsInOrder(old(tree));
      ElemsInOrder(tree);
    }

    /** SPLAY_MINMAX; the loop has no end for __comp == 0, which no caller passes. */
    method SplayMinMax(comp: int)
      requires Valid() && tree.Node? && comp != 0
      modifies this, Elems(tree)
      ensures Valid() && tree.Node? && Near(if comp < 0 then L else R, tree).Leaf?
      ensures InOrder(tree) == old(InOrder(tree)) && Elems(tree) == old(Elems(tree))
    {
      assert allocated(Elems(tree));
      var node := new Elem(0);
      Begin(node);
      SplayEnd(if comp < 0 then L else R, node, Elems(tree) + {node});
      ElemsInOrder(old(tree));
      ElemsInOrder(tree);
    }

    /** The loop of SPLAY_MINMAX and the assembly. */
    method SplayEnd(d: Side, node: Elem, ghost S: set<Elem>)
      requires Holds(State(tree, Nil, Nil), node, S) && tree.Node?
      modifies this, S
      ensures Linked() && tree.Node? && Near(d, tree).Leaf? && InOrder(tree) == old(InOrder(tree))
    {
      ghost var T0, st := tree, State(tree, Nil, Nil);
      var left, right := node, node;
      while true
        invariant Holds(st, node, S) && st.t.Node? && left == Last(st.ls, node) && right == Last(st.rs, node)
        invariant StateOrder(st) == InOrder(T0) && st.Spine(d) == Nil
        decreases Size(st.t)
      {
        Look(st, node, S);
        var tmp := if d.L? then root.left else root.right;
        if tmp == null {
          break;
        }
        var stop;
        stop, left, right, st := Round(d, true, tmp, left, right, st, node, S);
        if stop {
          break;
        }
      }
      AssembledKeeps(st, node);
      Assemble(node, left, right, st, S);
    }

    /** SPLAY_FIND. */
    method Find(k: int) returns (r: Elem?)
      requires Valid()
      modifies this, Elems(tree)
      ensures Valid() && InOrder(tree) == old(InOrder(tree)) && Elems(tree) == old(Elems(tree))
      ensures r != null ==> r in Elems(tree) && r.key == k
      ensures r == null ==> forall n :: n in Elems(tree) ==> n.key != k
    {
      if root == null { return null; }
      Splay(k);
      SplayedNearest(tree, k);
      if Cmp(k, root.key) == 0 { return root; }
      return null;
    }

    /** SPLAY_NEXT, for an element of the tree. */
    method Next(elm: Elem) returns (r: Elem?)
      requires Valid() && elm in Elems(tree)
      modifies this, Elems(tree)
      ensures Valid() && InOrder(tree) == old(InOrder(tree)) && Elems(tree) == old(Elems(tree))
      ensures IsNext<Elem?>(InOrder(tree), elm, r, null)
    {
      hide Snapshot, Sep;
      Splay(elm.key);
      SplayedNearest(tree, elm.key);
      OneKey(tree, elm);
      NextAmid<Elem?>(InOrder(tree.left), elm, InOrder(tree.right), null);
      RootFields();
      if elm.right != null {
        r := elm.right;
        ghost var u := tree.right;
        while r.left != null
          invariant Shape(Snapshot(Elems(tree)), u) && u.Node? && u.e == r && Elems(u) <= Elems(tree)
          invariant r.left == RootOf(u.left)
          invariant First<Elem?>(InOrder(tree.right), null) == First<Elem?>(InOrder(u), null)
          invariant Valid()
          decreases u
        {
          r := r.left;
          u := u.left;
        }
      } else {
        r := null;
      }
    }

    lemma RootFields()
      requires Linked() && tree.Node?
      ensures root == tree.e && root.left == RootOf(tree.left) && root.right == RootOf(tree.right)
      ensures tree.right.Node? ==>
        tree.right.e.left == RootOf(tree.right.left) && Shape(Snapshot(Elems(tree)), tree.right)
    {
      if tree.right.Node? {
        assert tree.right.e in Elems(tree) && Shape(Snapshot(Elems(tree)), tree.right);
      }
    }

    /** SPLAY_INSERT, as it rewrites the fields of the new element and the root. */
    method HangAbove(d: Side, elm: Elem, x: Elem, ghost S: set<Elem>)
      requires root == x && x in S && elm !in S
      modifies `root, elm, x
      ensures var m, m' := old(Snapshot(S)), Snapshot(S + {elm});
        && m'(elm).Child(d) == m(x).Child(d) && m'(elm).Child(d.Other()) == x
        && m'(x) == m(x).With(d, null)
        && forall n :: n in S && n != x ==> m'(n) == m(n)
      ensures root == elm
    {
      if d.L? {
        elm.left := root.left;
        elm.right := root;
        root.left := null;
      } else {
        elm.right := root.right;
        elm.left := root;
        root.right := null;
      }
      root := elm;
    }

    /** SPLAY_INSERT: elm becomes the root, between what lay on side d of the old root and the rest. */
    method PutOnTop(d: Side, elm: Elem)
      requires Linked() && tree.Node? && elm !in Elems(tree)
      modifies this, elm, Elems(tree)
      ensures Linked() && tree == OnTop(d, old(tree), elm)
    {
      ghost var S := Elems(tree);
      ghost var m := Snapshot(S);
      RootFields();
      HangAbove(d, elm, root, S);
      ghost var m' := Snapshot(S + {elm});
      OnTopShape(m, m', d, tree, elm);
      Adopt(OnTop(d, tree, elm), m');
    }

    /** SPLAY_INSERT. */
    method Insert(elm: Elem) returns (found: Elem?)
      requires Valid()
      modifies this, elm, Elems(tree)
      ensures Valid()
      ensures found != null ==> found in Elems(tree) && found.key == elm.key && InOrder(tree) == old(InOrder(tree))
      ensures found == null ==> Elems(tree) == old(Elems(tree)) + {elm}
      ensures found == null ==> forall n :: n in old(Elems(tree)) ==> n.key != elm.key
    {
      if root == null {
        elm.left, elm.right := null, null;
        Adopt0(elm);
      } else {
        Splay(elm.key);
        SplayedNearest(tree, elm.key);
        var comp := Cmp(elm.key, root.key);
        if comp == 0 {
          return root;
        }
        var d := if comp < 0 then L else R;
        OnTopKeeps(d, tree, elm);
        PutOnTop(d, elm);
      }
      return null;
    }

    /** SPLAY_INSERT into an empty tree. */
    method Adopt0(elm: Elem)
      requires tree == Leaf && elm.left == null && elm.right == null
      modifies this
      ensures Valid() && tree == Node(Leaf, elm, Leaf)
    {
      root := elm;
      tree := Node(Leaf, elm, Leaf);
    }

    /** SPLAY_REMOVE. */
    method Remove(elm: Elem) returns (r: Elem?)
      requires Valid()
      modifies this, Elems(tree)
      ensures Valid()
      ensures r == if exists n :: n in old(Elems(tree)) && n.key == elm.key then elm else null
      ensures Elems(tree) == OtherKeys(old(Elems(tree)), elm.key)
    {
      hide Snapshot, Shape, Sep, Sorted, InOrder;
      if root == null { return null; }
      Splay(elm.key);
      SplayedNearest(tree, elm.key);
      RootKey(tree, elm.key);
      RootFields();
      if Cmp(elm.key, root.key) == 0 {
        if root.left == null {
          Halves(tree);
          DropRoot(R);
        } else {
          RemoveRoot(elm.key);
        }
        return elm;
      }
      return null;
    }

    /** Leaves one subtree of the root only. */
    method DropRoot(d: Side)
      requires Linked() && tree.Node?
      modifies this
      ensures Linked() && tree == Near(d, old(tree))
    {
      RootFields();
      root := if d.L? then root.left else root.right;
      Adopt(Near(d, tree), Snapshot(Elems(tree)));
    }

    /** SPLAY_REMOVE of a root with a left subtree: the second splay, and the right subtree again. */
    method RemoveRoot(k: int)
      requires Valid() && tree.Node? && tree.left.Node? && tree.e.key == k
      modifies this, Elems(tree)
      ensures Valid() && Elems(tree) == old(Elems(tree)) - {old(tree.e)}
    {
      Halves(tree);
      RootApart(tree);
      hide Sorted, InOrder, Elems, Snapshot, Shape, Sep;
      var tmp;
      ghost var right;
      tmp, right := KeepLeft();
      SplayBelow(k, tmp, right);
    }

    /** Leaves the left subtree of the root, and hands out the right one. */
    method KeepLeft() returns (tmp: Elem?, ghost right: Tree)
      requires Linked() && tree.Node? && tree.left.Node?
      modifies this
      ensures Linked() && tree == old(tree).left && right == old(tree).right
      ensures tmp == RootOf(right) && Sep(right) && Shape(Snapshot(Elems(right)), right)
    {
      hide Linked, Shape, Sep, Elems, Snapshot, RootOf;
      right := tree.right;
      RightApart();
      ghost var m := Snapshot(Elems(right));
      tmp := root.right;
      DropRoot(L);
      Frame(m, Snapshot(Elems(right)), right);
    }

    /** The right subtree is a tree by itself. */
    lemma RightApart()
      requires Linked() && tree.Node?
      ensures Sep(tree.right) && Shape(Snapshot(Elems(tree.right)), tree.right)
      ensures root != null && root.right == RootOf(tree.right)
    {
      RootFields();
      Frame(Snapshot(Elems(tree)), Snapshot(Elems(tree.right)), tree.right);
    }

    /** The second splay of SPLAY_REMOVE, after which the right side of the root is free for the right
        subtree. */
    method SplayBelow(k: int, tmp: Elem?, ghost right: Tree)
      requires Valid() && tree.Node? && forall n :: n in Elems(tree) ==> n.key < k
      requires Sorted(InOrder(right)) && forall n :: n in Elems(right) ==> k < n.key
      requires tmp == RootOf(right) && Sep(right) && Shape(Snapshot(Elems(right)), right)
      modifies this, Elems(tree)
      ensures Valid() && Elems(tree) == old(Elems(tree)) + Elems(right)
    {
      ghost var m := Snapshot(Elems(right));
      SplayKeeping(k, Elems(right));
      Frame(m, Snapshot(Elems(right)), right);
      RightFree(tree, k);
      NewRight(tree, k, right);
      AttachRight(tmp, right);
    }

    /** A splay leaves elements held elsewhere as they are. */
    method SplayKeeping(k: int, ghost S: set<Elem>)
      requires Valid() && tree.Node? && Elems(tree) !! S
      modifies this, Elems(tree)
      ensures Valid() && Splayed(tree, k) && Elems(tree) == old(Elems(tree))
      ensures Agree(old(Snapshot(S)), Snapshot(S), S)
    {
      assert allocated(S);
      Splay(k);
    }

    /** Hangs a tree at the free right side of the root. */
    method AttachRight(tmp: Elem?, ghost right: Tree)
      requires Linked() && tree.Node? && tree.right.Leaf?
      requires tmp == RootOf(right) && Sep(right) && Shape(Snapshot(Elems(right)), right) && Elems(tree) !! Elems(right)
      modifies this, Elems(tree)
      ensures Linked() && tree == Node(old(tree).left, old(tree).e, right)
    {
      ghost var S := Elems(tree) + Elems(right);
      ghost var m, r := Snapshot(Elems(tree)), Snapshot(Elems(right));
      RootFields();
      root.right := tmp;
      ghost var m' := Snapshot(S);
      Frame(m, m', tree.left);
      Frame(r, m', right);
      Adopt(Node(tree.left, tree.e, right), m');
    }

    /** SPLAY_FOREACH, listing the elements it visits. */
    method Foreach() returns (visited: seq<Elem>)
      requires Valid()
      modifies this, Elems(tree)
      ensures Valid() && InOrder(tree) == old(InOrder(tree)) && visited == InOrder(tree)
    {
      hide Snapshot, Shape, Sep, Sorted, Elems;
      visited := [];
      if root == null { return; }
      SplayMinMax(-1);
      ghost var all: seq<Elem?> := InOrder(tree);
      SortedOnce(InOrder(tree));
      WalkStart(all, null);
      var x: Elem? := root;
      while x != null
        invariant Valid() && all == InOrder(tree) && Elems(tree) == old(Elems(tree))
        invariant Walking(all, visited, x, null)
        decreases |all| - |visited|
      {
        WalkOver(all, visited, x, null);
        InOrderElems(tree, x);
        var next := Next(x);
        WalkOn(all, visited, x, next, null);
        visited := visited + [x];
        x := next;
      }
      WalkOver(all, visited, x, null);
    }

    /** SPLAY_INIT. */
    constructor ()
      ensures Valid() && tree == Leaf
    {
      root, tree := null, Leaf;
    }

    /** Records the tree the heap now holds. */
    ghost method Adopt(T: Tree, m: Mem)
      requires root == RootOf(T) && Sep(T) && Shape(m, T) && Agree(m, Snapshot(Elems(T)), Elems(T))
      modifies `tree
      ensures Linked() && tree == T
    {
      Frame(m, Snapshot(Elems(T)), T);
      tree := T;
    }
  }

  lemma {:induction false} RootApart(t: Tree)
    requires t.Node? && Sep(t)
    ensures Elems(t) - {t.e} == Elems(t.left) + Elems(t.right)
    ensures Elems(t.left) <= Elems(t)
  {
  }

  lemma {:induction false} OneKey(t: Tree, x: Elem)
    requires t.Node? && Sorted(InOrder(t)) && x in Elems(t) && x.key == t.e.key
    ensures x == t.e
  {
    Halves(t);
  }

  /** The tree of an insert: elm on top, with the old root beyond it and what lay on side d. */
  function OnTop(d: Side, t: Tree, elm: Elem): Tree
    requires t.Node?
  {
    Mk(d, Near(d, t), elm, Mk(d, Leaf, t.e, Near(d.Other(), t)))
  }

  lemma {:induction false} OnTopKeeps(d: Side, t: Tree, elm: Elem)
    requires Splayed(t, elm.key) && Sorted(InOrder(t))
    requires if d.L? then elm.key < t.e.key else t.e.key < elm.key
    ensures Sorted(InOrder(OnTop(d, t, elm))) && Elems(OnTop(d, t, elm)) == Elems(t) + {elm}
    ensures elm !in Elems(t)
  {
    Halves(t);
    Joined(Mk(d, Leaf, t.e, Near(d.Other(), t)));
    Joined(OnTop(d, t, elm));
  }

  lemma SortedOnce(s: seq<Elem>)
    requires Sorted(s)
    ensures Once<Elem?>(s)
  {
    forall i, j | 0 <= i < j < |s| ensures s[i] != s[j] {
      assert s[i].key < s[j].key;
    }
  }

  lemma {:induction false} OnTopShape(m: Mem, m': Mem, d: Side, t: Tree, elm: Elem)
    requires t.Node? && Shape(m, t) && Sep(t) && elm !in Elems(t)
    requires m'(elm).Child(d) == m(t.e).Child(d) && m'(elm).Child(d.Other()) == t.e
    requires m'(t.e) == m(t.e).With(d, null) && Agree(m, m', Elems(t) - {t.e})
    ensures Shape(m', OnTop(d, t, elm)) && Sep(OnTop(d, t, elm)) && Elems(OnTop(d, t, elm)) == Elems(t) + {elm}
  {
    Frame(m, m', t.left);
    Frame(m, m', t.right);
    assert Elems(t) == Elems(t.left) + {t.e} + Elems(t.right);
    if d.L? {
      assert OnTop(d, t, elm) == Node(t.left, elm, Node(Leaf, t.e, t.right));
      assert Elems(Node(Leaf, t.e, t.right)) == {t.e} + Elems(t.right);
    } else {
      assert OnTop(d, t, elm) == Node(Node(t.left, t.e, Leaf), elm, t.right);
      assert Elems(Node(t.left, t.e, Leaf)) == {t.e} + Elems(t.left);
    }
  }

  lemma {:induction false} RootIn(t: Tree)
    ensures t.Node? ==> t.e in Elems(t)
  {
  }

  /** Splayed for a key above all its elements, a tree has nothing right of the root. */
  lemma {:induction false} RightFree(t: Tree, k: int)
    requires Splayed(t, k) && Sorted(InOrder(t)) && forall n :: n in Elems(t) ==> n.key < k
    ensures t.right.Leaf?
  {
    assert t.e in Elems(t);
    RootIn(t.right);
  }

  lemma {:induction false} NewRight(t: Tree, k: int, right: Tree)
    requires t.Node? && t.right.Leaf? && Sorted(InOrder(t)) && forall n :: n in Elems(t) ==> n.key < k
    requires Sorted(InOrder(right)) && forall n :: n in Elems(right) ==> k < n.key
    ensures Sorted(InOrder(Node(t.left, t.e, right))) && Elems(Node(t.left, t.e, right)) == Elems(t) + Elems(right)
    ensures Elems(t) !! Elems(right)
  {
    Halves(t);
    assert t.e in Elems(t);
    Joined(Node(t.left, t.e, right));
  }

  function OtherKeys(s: set<Elem>, k: int): set<Elem> {
    set n | n in s && n.key != k
  }

  /** After a splay for k, only the root can have the key k. */
  lemma {:induction false} RootKey(t: Tree, k: int)
    requires Splayed(t, k) && Sorted(InOrder(t))
    ensures OtherKeys(Elems(t), k) == if t.e.key == k then Elems(t) - {t.e} else Elems(t)
  {
    Halves(t);
  }
}
