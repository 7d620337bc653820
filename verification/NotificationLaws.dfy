/** What the bytes of a notification amount to. */
module NotificationLaws {

  import opened Wire
  import opened Codec
  import opened CodecLaws
  import opened PartialParse
  import opened Routing
  import Schemas
  import Text

  lemma {:induction false} InfosStep(ms: seq<Msg>, info: NodeInfo)
    requires ms != []
    ensures info in Infos(ms)
       <==> info in Infos(ms[..|ms| - 1]) || (BytesAt(ms[|ms| - 1], 2) != NO_SUBNET && info == Info(ms[|ms| - 1]))
  {
    hide Info, BytesAt;
  }

  ghost predicate IsRecord(ms: seq<Msg>, i: int, info: NodeInfo) {
    0 <= i < |ms| && BytesAt(ms[i], 2) != NO_SUBNET && info == Info(ms[i])
  }

  lemma RecordStep(front: seq<Msg>, m: Msg, info: NodeInfo)
    ensures (exists i :: IsRecord(front + [m], i, info))
       <==> (exists i :: IsRecord(front, i, info)) || (BytesAt(m, 2) != NO_SUBNET && info == Info(m))
  {
    hide Info, BytesAt;
    var ms := front + [m];
    if i :| IsRecord(ms, i, info) {
      assert i < |front| ==> IsRecord(front, i, info);
    }
    if i :| IsRecord(front, i, info) {
      assert IsRecord(ms, i, info);
    }
    assert IsRecord(ms, |front|, info) <==> BytesAt(m, 2) != NO_SUBNET && info == Info(m);
  }

  /** The new records are those of the messages that have a subnet. */
  lemma {:induction false} InfosAre(ms: seq<Msg>, info: NodeInfo)
    ensures info in Infos(ms) <==> exists i :: IsRecord(ms, i, info)
    decreases |ms|
  {
    hide Info, BytesAt;
    if ms != [] {
      InfosAre(ms[..|ms| - 1], info);
      InfosStep(ms, info);
      RecordStep(ms[..|ms| - 1], ms[|ms| - 1], info);
      assert ms[..|ms| - 1] + [ms[|ms| - 1]] == ms;
    }
  }

  lemma {:induction false} NoInfos(ms: seq<Msg>)
    ensures Infos(ms) == [] <==> forall i :: 0 <= i < |ms| ==> BytesAt(ms[i], 2) == NO_SUBNET
    decreases |ms|
  {
    hide Info, BytesAt;
    if ms != [] {
      NoInfos(ms[..|ms| - 1]);
      assert forall i :: 0 <= i < |ms| - 1 ==> ms[..|ms| - 1][i] == ms[i];
    }
  }

  /** A notification that carries the bytes of a list asks for the records of its messages, unless
      the list is so empty that it has no bytes. */
  lemma {:induction false} NotifiedOfList(m: Msg)
    requires Typed(Schemas.NodeInfoList(), m) && |Ser(Schemas.NodeInfoList(), m)| <= MAX_SIZE
    ensures Notified(Ser(Schemas.NodeInfoList(), m))
         == if Ser(Schemas.NodeInfoList(), m) == [] then None else Some(Infos(m.vals[0].ms))
  {
    Schemas.NodeInfoListGood();
    RoundTrip(Schemas.NodeInfoList(), m);
  }

  /** A notification empties the peer table exactly when it has bytes, they parse, and all its
      messages have the subnet "0.0.0.0". */
  lemma {:induction false} EmptiesTable(bytes: seq<byte>)
    ensures Notified(bytes) == Some([])
       <==> bytes != [] && var r := Parse(Schemas.NodeInfoList(), Empty(Schemas.NodeInfoList()), bytes);
            r.Some? && forall i :: 0 <= i < |ListAt(r.value, 0)| ==> BytesAt(ListAt(r.value, 0)[i], 2) == NO_SUBNET
  {
    var r := Parse(Schemas.NodeInfoList(), Empty(Schemas.NodeInfoList()), bytes);
    hide Parse, Infos, ListAt;
    if r.Some? {
      NoInfos(ListAt(r.value, 0));
    }
  }

  /** One that does: a single field the list does not know, of number 2 and value 0. */
  lemma {:induction false} EmptyingNotification()
    ensures Notified([16, 0]) == Some([])
  {
    var d := Schemas.NodeInfoList();
    var r := Rec(2, VarintP(0));
    VarintLengths(16);
    VarintLengths(0);
    assert RecBytes(r) == [16] + [0] == [16, 0];
    assert Case(d, 16) == Case(d, 16, 1) == None;
    UnknownField(d, Empty(d), r);
    var m := Empty(d).(unknown := Empty(d).unknown + RecBytes(r));
    assert Parse(d, Empty(d), [16, 0]) == Some(m);
    assert ListAt(m, 0) == [];
  }

  /** An online notification that carries the bytes of a list names the list's nodes. */
  lemma {:induction false} OnlineOfList(c: Config, m: Msg, left: Msg)
    requires Typed(Schemas.UserListOnEdge(), m) && |Ser(Schemas.UserListOnEdge(), m)| <= MAX_SIZE
    ensures OnlinePeers(c, Ser(Schemas.UserListOnEdge(), m), left) == Peers(c, m.vals[0].ms)
  {
    Schemas.UserListOnEdgeGood();
    RoundTrip(Schemas.UserListOnEdge(), m);
  }

  // A notification of one node, for examples.

  function OneCpe(id: seq<byte>, address: seq<byte>): Msg {
    Msg([Str(id), Str(address), Str([])], [])
  }

  function OneEdge(id: seq<byte>, address: seq<byte>): Msg {
    Msg([Str([]), Str([]), Num(0), Num(0), Subs([OneCpe(id, address)])], [])
  }

  /** The list of one edge with one node. */
  function OneNode(id: seq<byte>, address: seq<byte>): Msg {
    Msg([Subs([OneEdge(id, address)])], [])
  }

  lemma NothingKept(d: Desc)
    ensures Kept(d, [])
  {
    var none: seq<Rec> := [];
    assert Flat(none) == [];
  }

  lemma OneCpeTyped(id: seq<byte>, address: seq<byte>)
    ensures Typed(Schemas.CustemorInfo(), OneCpe(id, address))
  {
    NothingKept(Schemas.CustemorInfo());
  }

  lemma OneEdgeTyped(id: seq<byte>, address: seq<byte>)
    ensures Typed(Schemas.CustemorPEList(), OneEdge(id, address))
  {
    NothingKept(Schemas.CustemorPEList());
    OneCpeTyped(id, address);
  }

  lemma OneNodeTyped(id: seq<byte>, address: seq<byte>)
    ensures Typed(Schemas.UserListOnEdge(), OneNode(id, address))
  {
    NothingKept(Schemas.UserListOnEdge());
    OneEdgeTyped(id, address);
  }

  lemma {:induction false} StringShort(f: Field, b: seq<byte>)
    requires f.num < 16 && Fits(f.kind, Str(b)) && |b| < 100
    ensures |SerValue(f, Str(b))| < 110
  {
    VarintLengths(Tag(f));
    VarintLengths(|b|);
  }

  lemma OneCpeShort(id: seq<byte>, address: seq<byte>)
    requires |id| < 100 && |address| < 100
    ensures Typed(Schemas.CustemorInfo(), OneCpe(id, address))
    ensures |Ser(Schemas.CustemorInfo(), OneCpe(id, address))| < 220
  {
    OneCpeTyped(id, address);
    var d, m := Schemas.CustemorInfo(), OneCpe(id, address);
    StringShort(d.fields[0], id);
    StringShort(d.fields[1], address);
    assert SerFrom(d, m, 3) == [] && SerFrom(d, m, 2) == [];
    assert |SerFrom(d, m, 1)| < 110;
  }

  lemma {:induction false} OneSubShort(f: Field, m: Msg, n: nat)
    requires f.num < 16 && f.kind.Many? && Typed(f.kind.desc, m) && |Ser(f.kind.desc, m)| < n < 1000
    ensures Fits(f.kind, Subs([m])) && |SerValue(f, Subs([m]))| < n + 10
  {
    VarintLengths(Tag(f));
    VarintLengths(|Ser(f.kind.desc, m)|);
    assert SerMany(f, [m]) == SerMany(f, []) + SerSub(f, m) by {
      assert [m][..0] == [];
    }
  }

  lemma OneEdgeShort(id: seq<byte>, address: seq<byte>)
    requires |id| < 100 && |address| < 100
    ensures Typed(Schemas.CustemorPEList(), OneEdge(id, address))
    ensures |Ser(Schemas.CustemorPEList(), OneEdge(id, address))| < 240
  {
    OneEdgeTyped(id, address);
    OneCpeShort(id, address);
    var d, m := Schemas.CustemorPEList(), OneEdge(id, address);
    OneSubShort(d.fields[4], OneCpe(id, address), 220);
    assert SerFrom(d, m, 5) == [];
    assert |SerFrom(d, m, 4)| < 230;
    assert SerFrom(d, m, 3) == SerFrom(d, m, 4) && SerFrom(d, m, 2) == SerFrom(d, m, 3);
    assert SerFrom(d, m, 1) == SerFrom(d, m, 2) && SerFrom(d, m, 0) == SerFrom(d, m, 1);
  }

  lemma OneNodeShort(id: seq<byte>, address: seq<byte>)
    requires |id| < 100 && |address| < 100
    ensures Typed(Schemas.UserListOnEdge(), OneNode(id, address))
    ensures |Ser(Schemas.UserListOnEdge(), OneNode(id, address))| <= MAX_SIZE
  {
    OneNodeTyped(id, address);
    OneEdgeShort(id, address);
    var d, m := Schemas.UserListOnEdge(), OneNode(id, address);
    OneSubShort(d.fields[0], OneEdge(id, address), 240);
    assert SerFrom(d, m, 1) == [];
  }

  lemma {:induction false} OneNodePeers(c: Config, id: seq<byte>, address: seq<byte>)
    ensures Peers(c, [OneEdge(id, address)]) == [(Text.Strtol(id, 10) % TWO32, c.inet(address))]
  {
    hide Text.Strtol;
    var edges, cpes := [OneEdge(id, address)], [OneCpe(id, address)];
    assert edges[..0] == [] && Peers(c, []) == [];
    assert ListAt(edges[0], 4) == cpes;
    assert BytesAt(cpes[0], 0) == id && BytesAt(cpes[0], 1) == address;
    assert EdgePeers(c, cpes) == [(Text.Strtol(id, 10) % TWO32, c.inet(address))];
  }

  /** Its bytes name the one node. */
  lemma {:induction false} OneNodeNotified(c: Config, id: seq<byte>, address: seq<byte>, left: Msg)
    requires |id| < 100 && |address| < 100
    ensures Typed(Schemas.UserListOnEdge(), OneNode(id, address))
    ensures OnlinePeers(c, Ser(Schemas.UserListOnEdge(), OneNode(id, address)), left)
         == [(Text.Strtol(id, 10) % TWO32, c.inet(address))]
  {
    OneNodeShort(id, address);
    OnlineOfList(c, OneNode(id, address), left);
    OneNodePeers(c, id, address);
  }

  /** After malformed bytes the edges read before the fault stay, and at most one more is there. */
  lemma {:induction false} WholeEdgesStay(bytes: seq<byte>, left: Msg)
    requires Leaves(Schemas.UserListOnEdge(), Empty(Schemas.UserListOnEdge()), bytes, left)
    ensures var (m, rest) := Stuck(Schemas.UserListOnEdge(), Empty(Schemas.UserListOnEdge()), bytes);
            var edges, got := ListAt(left, 0), ListAt(m, 0);
            rest == [] || ReadTag(rest).Some? ==> |got| <= |edges| <= |got| + 1 && edges[..|got|] == got
  {
    hide Stuck, ReadTag;
    var d := Schemas.UserListOnEdge();
    var (m, rest) := Stuck(d, Empty(d), bytes);
    if rest != [] && ReadTag(rest).Some? {
      assert LeavesField(d, m, rest, left);
      var (tag, n) := ReadTag(rest).value;
      if Case(d, tag) == Some(0) {
        assert LeavesValue(d.fields[0].kind, m.vals[0], rest[n..], left.vals[0]);
      }
    }
  }
}
