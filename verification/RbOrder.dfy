/** Search order in a red-black tree: sorted in-order sequences, the place of a key, neighbours. */
module RbOrder {
  import opened RbShape
  import opened Sides
  import opened Walks

  /** Strictly ascending keys. */
  ghost predicate Sorted(s: seq<Elem>) {
    forall i, j :: 0 <= i < j < |s| ==> s[i].key < s[j].key
  }

  /** The place p is the one for key k. */
  ghost predicate Brackets(p: Path, k: int) {
    (forall n :: n in Before(p) ==> n.key < k) && (forall n :: n in After(p) ==> k < n.key)
  }

  /** The order around the element at a place. */
  lemma {:induction false} PlugAround(p: Path, t: Tree)
    requires t.Node?
    ensures InOrder(Plug(p, t)) == (Before(p) + InOrder(t.left)) + [t.e] + (InOrder(t.right) + After(p))
  {
    hide Plug, Before, After;
    PlugInOrder(p, t);
    FiveParts(Before(p), InOrder(t.left), t.e, InOrder(t.right), After(p));
  }

  lemma FiveParts(a: seq<Elem>, b: seq<Elem>, x: Elem, c: seq<Elem>, d: seq<Elem>)
    ensures a + (b + [x] + c) + d == (a + b) + [x] + (c + d)
  {
  }

  lemma {:induction false} Narrow(p: Path, t: Tree, k: int)
    requires t.Node? && Sorted(InOrder(Plug(p, t))) && Brackets(p, k)
    ensures k < t.e.key ==> Brackets(Step(L, t.e, t.c, t.right, p), k)
    ensures t.e.key < k ==> Brackets(Step(R, t.e, t.c, t.left, p), k)
  {
    hide Sorted, Plug, InOrder;
    PlugAround(p, t);
    Around(Before(p) + InOrder(t.left), t.e, InOrder(t.right) + After(p));
  }

  lemma Around(a: seq<Elem>, e: Elem, b: seq<Elem>)
    requires Sorted(a + [e] + b)
    ensures forall n :: n in a ==> n.key < e.key
    ensures forall n :: n in b ==> e.key < n.key
  {
    var s := a + [e] + b;
    assert s[|a|] == e;
    forall n | n in a ensures n.key < e.key {
      var i :| 0 <= i < |a| && a[i] == n;
      assert s[i] == n;
    }
    forall n | n in b ensures e.key < n.key {
      var i :| 0 <= i < |b| && b[i] == n;
      assert s[|a| + 1 + i] == n;
    }
  }

  lemma Amid(a: seq<Elem>, e: Elem, b: seq<Elem>)
    requires Sorted(a + b)
    requires forall n :: n in a ==> n.key < e.key
    requires forall n :: n in b ==> e.key < n.key
    ensures Sorted(a + [e] + b)
  {
    var s, s' := a + b, a + [e] + b;
    assert forall i :: 0 <= i < |a| ==> s'[i] == s[i] == a[i];
    assert forall i :: |a| < i < |s'| ==> s'[i] == s[i - 1] == b[i - 1 - |a|];
  }

  lemma Without(a: seq<Elem>, e: Elem, b: seq<Elem>)
    ensures Sorted(a + [e] + b) ==> Sorted(a + b)
  {
    var s, s' := a + [e] + b, a + b;
    assert forall i :: 0 <= i < |a| ==> s'[i] == s[i];
    assert forall i :: |a| <= i < |s'| ==> s'[i] == s[i + 1];
  }

  lemma {:induction false} Bracketed(p: Path, k: int)
    requires Brackets(p, k)
    ensures forall n :: n in Elems(Plug(p, Leaf)) ==> n in Before(p) || n in After(p)
  {
    PlugInOrder(p, Leaf);
    assert InOrder(Plug(p, Leaf)) == Before(p) + After(p);
    forall n | n in Elems(Plug(p, Leaf)) ensures n in Before(p) || n in After(p) {
      InOrderElems(Plug(p, Leaf), n);
    }
  }

  lemma {:induction false} LeastAbove(p: Path, k: int)
    requires Sorted(InOrder(Plug(p, Leaf))) && Brackets(p, k)
    ensures forall n :: n in Elems(Plug(p, Leaf)) ==>
      n.key < k || (After(p) != [] && k < After(p)[0].key && After(p)[0].key <= n.key)
    ensures After(p) != [] ==> After(p)[0] in Elems(Plug(p, Leaf))
  {
    Bracketed(p, k);
    PlugInOrder(p, Leaf);
    var a, b := Before(p), After(p);
    assert InOrder(Plug(p, Leaf)) == a + b;
    if b != [] {
      InOrderElems(Plug(p, Leaf), b[0]);
      assert (a + b)[|a|] == b[0];
      forall n | n in b ensures b[0].key <= n.key {
        var i :| 0 <= i < |b| && b[i] == n;
        assert (a + b)[|a| + i] == n;
      }
    }
  }

  /** The elements of a tree in the direction of a side: ascending for R, descending for L. */
  function Ordered(s: Side, t: Tree): seq<Elem> {
    if t.Leaf? then [] else Ordered(s, Far(s, t)) + [t.e] + Ordered(s, Near(s, t))
  }

  /** What of it lies behind, and ahead of, a place. */
  function Behind(s: Side, p: Path): seq<Elem> {
    if p.Top? then [] else if p.side == s then Behind(s, p.up) + Ordered(s, p.sib) + [p.e] else Behind(s, p.up)
  }

  function Ahead(s: Side, p: Path): seq<Elem> {
    if p.Top? then [] else if p.side == s then Ahead(s, p.up) else [p.e] + Ordered(s, p.sib) + Ahead(s, p.up)
  }

  lemma {:induction false} PlugOrdered(s: Side, p: Path, t: Tree)
    ensures Ordered(s, Plug(p, t)) == Behind(s, p) + Ordered(s, t) + Ahead(s, p)
    decreases p
  {
    if p.Step? {
      PlugOrdered(s, p.up, Mk(p.side, t, p.e, p.c, p.sib));
      OrderedMk(s, p, t);
      Rebracket(Behind(s, p.up), Ordered(s, p.sib), [p.e], Ordered(s, t), Ahead(s, p.up));
    }
  }

  lemma {:induction false} OrderedMk(s: Side, p: Path, t: Tree)
    requires p.Step?
    ensures Ordered(s, Mk(p.side, t, p.e, p.c, p.sib)) ==
      if p.side == s then Ordered(s, p.sib) + [p.e] + Ordered(s, t) else Ordered(s, t) + [p.e] + Ordered(s, p.sib)
  {
  }

  lemma Rebracket(a: seq<Elem>, o: seq<Elem>, x: seq<Elem>, t: seq<Elem>, d: seq<Elem>)
    ensures a + (o + x + t) + d == (a + o + x) + t + d
    ensures a + (t + x + o) + d == a + t + (x + o + d)
    ensures (a + o + x) + t + d == (a + o) + x + (t + d)
  {
  }

  lemma {:induction false} OrderedAscends(t: Tree)
    ensures Ordered(R, t) == InOrder(t)
  {
    if t.Node? {
      OrderedAscends(t.left);
      OrderedAscends(t.right);
    }
  }

  function Reverse(s: seq<Elem>): seq<Elem> {
    if s == [] then [] else Reverse(s[1..]) + [s[0]]
  }

  lemma {:induction false} ReverseConcat(a: seq<Elem>, b: seq<Elem>)
    ensures Reverse(a + b) == Reverse(b) + Reverse(a)
  {
    if a == [] {
      assert a + b == b;
    } else {
      assert (a + b)[1..] == a[1..] + b;
      ReverseConcat(a[1..], b);
    }
  }

  lemma {:induction false} OrderedDescends(t: Tree)
    ensures Ordered(L, t) == Reverse(InOrder(t))
  {
    if t.Node? {
      OrderedDescends(t.left);
      OrderedDescends(t.right);
      ReverseConcat(InOrder(t.left) + [t.e], InOrder(t.right));
      ReverseConcat(InOrder(t.left), [t.e]);
    }
  }

  lemma {:induction false} OrderedAt(s: Side, p: Path, t: Tree)
    requires t.Node?
    ensures IsNext<Elem?>(Ordered(s, Plug(p, t)), t.e, First<Elem?>(Ordered(s, Near(s, t)) + Ahead(s, p), null), null)
  {
    PlugOrdered(s, p, t);
    var b, o, n, a := Behind(s, p), Ordered(s, Far(s, t)), Ordered(s, Near(s, t)), Ahead(s, p);
    Rebracket(b, o, [t.e], n, a);
    NextAmid<Elem?>(b + o, t.e, n + a, null);
  }

  lemma {:induction false} OrderedElems(s: Side, t: Tree, x: Elem)
    ensures x in Ordered(s, t) <==> x in Elems(t)
  {
    if t.Node? {
      OrderedElems(s, t.left, x);
      OrderedElems(s, t.right, x);
    }
  }

  /** No element occurs twice. */
  lemma {:induction false} OrderedOnce(s: Side, t: Tree)
    requires Sep(t)
    ensures Once(Ordered(s, t))
  {
    if t.Node? {
      OrderedOnce(s, Far(s, t));
      OrderedOnce(s, Near(s, t));
      var a, b := Ordered(s, Far(s, t)), Ordered(s, Near(s, t));
      OrderedElems(s, Far(s, t), t.e);
      OrderedElems(s, Near(s, t), t.e);
      forall x | x in a ensures x !in b {
        OrderedElems(s, Far(s, t), x);
        OrderedElems(s, Near(s, t), x);
      }
      OnceConcat(a, t.e, b);
    }
  }

  lemma OnceConcat(a: seq<Elem>, e: Elem, b: seq<Elem>)
    requires Once(a) && Once(b) && e !in a && e !in b && forall x :: x in a ==> x !in b
    ensures Once(a + [e] + b)
  {
    var w := a + [e] + b;
    forall i, j | 0 <= i < j < |w| ensures w[i] != w[j] {
      assert i < |a| ==> w[i] == a[i];
      assert i > |a| ==> w[i] == b[i - |a| - 1];
      assert j < |a| ==> w[j] == a[j];
      assert j > |a| ==> w[j] == b[j - |a| - 1];
      assert i < |a| ==> w[i] in a;
      assert j > |a| ==> w[j] in b;
    }
  }

  lemma {:induction false} SameOrder(p: Path, t: Tree, t': Tree)
    requires InOrder(t) == InOrder(t')
    ensures InOrder(Plug(p, t)) == InOrder(Plug(p, t'))
  {
    PlugInOrder(p, t);
    PlugInOrder(p, t');
  }

  lemma OnlyOrder(t: Tree)
    requires t.Node? && (t.left.Leaf? || t.right.Leaf?)
    ensures InOrder(Only(t)) == InOrder(t.left) + InOrder(t.right)
  {
  }

  lemma Rejoin(a: seq<Elem>, b: seq<Elem>, c: seq<Elem>, d: seq<Elem>)
    ensures a + (b + c) + d == (a + b) + (c + d)
  {
  }

  lemma {:induction false} SplicedSorted(p: Path, t: Tree)
    requires t.Node? && (t.left.Leaf? || t.right.Leaf?)
    ensures Sorted(InOrder(Plug(p, t))) ==> Sorted(InOrder(Plug(p, Only(t))))
  {
    hide Sorted, Plug, Before, After;
    PlugAround(p, t);
    PlugInOrder(p, Only(t));
    OnlyOrder(t);
    Rejoin(Before(p), InOrder(t.left), InOrder(t.right), After(p));
    Without(Before(p) + InOrder(t.left), t.e, InOrder(t.right) + After(p));
  }

  /** The leftmost element of a right subtree, and what is behind it. */
  lemma {:induction false} LeftmostOrder(q: Path, u: Tree)
    requires u.Node? && u.left.Leaf? && Before(q) == []
    ensures InOrder(Plug(q, u)) == [u.e] + InOrder(Plug(q, u.right))
  {
    hide Plug, Before, After;
    PlugInOrder(q, u);
    PlugInOrder(q, u.right);
  }

  lemma {:induction false} RemovedSorted(p: Path, t: Tree, q: Path, u: Tree)
    requires t.Node? && t.right == Plug(q, u) && u.Node? && u.left.Leaf? && Before(q) == []
    ensures var p', t' := Append(q, Step(R, u.e, t.c, t.left, p)), Only(u);
      Sorted(InOrder(Plug(p, t))) ==> Sorted(InOrder(Plug(p', t')))
  {
    hide Sorted, Before, After, Plug;
    var t1 := Node(t.left, u.e, t.c, Plug(q, u.right));
    Deeper(p, t1, q, u.right);
    PlugInOrder(p, t);
    PlugInOrder(p, t1);
    LeftmostOrder(q, u);
    var b, l, r, a := Before(p), InOrder(t.left), InOrder(Plug(q, u.right)), After(p);
    Spread(b, l, t.e, u.e, r, a);
    Without(b + l, t.e, ([u.e] + r) + a);
  }

  lemma Spread(b: seq<Elem>, l: seq<Elem>, x: Elem, y: Elem, r: seq<Elem>, a: seq<Elem>)
    ensures b + (l + [x] + ([y] + r)) + a == (b + l) + [x] + (([y] + r) + a)
    ensures b + (l + [y] + r) + a == (b + l) + (([y] + r) + a)
  {
  }

  datatype Op = Ins(k: int) | Rem(k: int)

  /** What an insert or a remove makes of a set of keys, and what a run of them makes of no keys. */
  function KeysStep(s: set<int>, op: Op): set<int> {
    match op
    case Ins(k) => s + {k}
    case Rem(k) => s - {k}
  }

  function KeysAfter(ops: seq<Op>): set<int> {
    if ops == [] then {} else KeysStep(KeysAfter(ops[..|ops| - 1]), ops[|ops| - 1])
  }

  function Keys(t: Tree): set<int> {
    set n | n in Elems(t) :: n.key
  }

  lemma {:induction false} KeysSplit(t: Tree)
    requires t.Node? && Sorted(InOrder(t))
    ensures Keys(t) == Keys(t.left) + {t.e.key} + Keys(t.right)
    ensures Keys(t.left) !! {t.e.key} && Keys(t.left) + {t.e.key} !! Keys(t.right)
    ensures Sorted(InOrder(t.left)) && Sorted(InOrder(t.right))
  {
    var a, b, w := InOrder(t.left), InOrder(t.right), InOrder(t);
    Around(a, t.e, b);
    assert a == w[..|a|] && b == w[|a| + 1..];
    forall n | n in Elems(t.left) ensures n.key < t.e.key {
      InOrderElems(t.left, n);
    }
    forall n | n in Elems(t.right) ensures t.e.key < n.key {
      InOrderElems(t.right, n);
    }
  }

  lemma {:induction false} KeysSize(t: Tree)
    requires Sorted(InOrder(t))
    ensures |Keys(t)| == Size(t)
  {
    if t.Node? {
      KeysSplit(t);
      KeysSize(t.left);
      KeysSize(t.right);
    }
  }

  lemma {:induction false} OneKey(t: Tree, x: Elem, y: Elem)
    requires Sorted(InOrder(t)) && x in Elems(t) && y in Elems(t) && x.key == y.key
    ensures x == y
  {
    InOrderElems(t, x);
    InOrderElems(t, y);
  }

  lemma {:induction false} KeysWithout(t: Tree, t': Tree, x: Elem)
    requires Sorted(InOrder(t)) && x in Elems(t) && Elems(t') == Elems(t) - {x}
    ensures Keys(t') == Keys(t) - {x.key}
  {
    forall y | y in Elems(t) && y.key == x.key ensures y == x {
      OneKey(t, x, y);
    }
  }
}
