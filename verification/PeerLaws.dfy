/** What the messages of a notification become in the peer table: which field goes where, and in
    which order. */
module PeerLaws {

  import opened Wire
  import opened Codec
  import opened Routing
  import CodecLaws
  import Schemas
  import Text

  // The mesh notification.

  predicate IsNetInfo(m: Msg) {
    && |m.vals| == 6
    && m.vals[0].Num? && m.vals[1].Str? && m.vals[2].Str? && m.vals[3].Num? && m.vals[4].Str? && m.vals[5].Str?
  }

  predicate AreNetInfos(ms: seq<Msg>) {
    forall i :: 0 <= i < |ms| ==> IsNetInfo(ms[i])
  }

  lemma {:induction false} TypedNetInfo(m: Msg)
    requires Typed(Schemas.NetInfo(), m)
    ensures IsNetInfo(m)
  {
    var d := Schemas.NetInfo();
    assert forall i :: 0 <= i < 6 ==> Fits(d.fields[i].kind, m.vals[i]);
  }

  /** The messages with a subnet other than the text "0.0.0.0", in order. */
  function Proper(ms: seq<Msg>): (ps: seq<Msg>)
    requires AreNetInfos(ms)
    ensures AreNetInfos(ps)
  {
    if ms == [] then []
    else (if ms[0].vals[2].b == [48, 46, 48, 46, 48, 46, 48] then [] else [ms[0]]) + Proper(ms[1..])
  }

  lemma {:induction false} ProperMore(ms: seq<Msg>, m: Msg)
    requires AreNetInfos(ms) && IsNetInfo(m)
    ensures AreNetInfos(ms + [m])
    ensures Proper(ms + [m]) == Proper(ms) + if m.vals[2].b == [48, 46, 48, 46, 48, 46, 48] then [] else [m]
    decreases |ms|
  {
    hide IsNetInfo;
    if ms == [] {
      assert ms + [m] == [m] && [m][1..] == [];
    } else {
      assert (ms + [m])[1..] == ms[1..] + [m];
      ProperMore(ms[1..], m);
    }
  }

  lemma {:induction false} InfosInOrder(ms: seq<Msg>)
    requires AreNetInfos(ms)
    ensures |Infos(ms)| == |Proper(ms)|
    ensures forall i :: 0 <= i < |Proper(ms)| ==>
              var m := Proper(ms)[i];
              Infos(ms)[i] == NodeInfo(
                m.vals[0].n % 0x1_0000_0000, m.vals[1].b, m.vals[2].b, m.vals[3].n % 0x1_0000_0000, m.vals[4].b)
    decreases |ms|
  {
    if ms != [] {
      var front, m := ms[..|ms| - 1], ms[|ms| - 1];
      InfosInOrder(front);
      ProperMore(front, m);
      assert front + [m] == ms;
      hide Proper;
    }
  }

  lemma {:induction false} ParsedNetInfos(bytes: seq<byte>)
    ensures var r := Parse(Schemas.NodeInfoList(), Empty(Schemas.NodeInfoList()), bytes);
            r.Some? ==> |r.value.vals| == 1 && r.value.vals[0].Subs? && AreNetInfos(r.value.vals[0].ms)
  {
    var d := Schemas.NodeInfoList();
    EmptyTyped(d);
    CodecLaws.ParseTyped(d, Empty(d), bytes);
    var r := Parse(d, Empty(d), bytes);
    if r.Some? {
      assert Fits(d.fields[0].kind, r.value.vals[0]);
      forall i | 0 <= i < |r.value.vals[0].ms| ensures IsNetInfo(r.value.vals[0].ms[i]) {
        TypedNetInfo(r.value.vals[0].ms[i]);
      }
    }
  }

  /** A notification without bytes or with malformed ones changes nothing. */
  lemma {:induction false} MeshIgnored(c: Config, s: State, bytes: seq<byte>)
    requires bytes == [] || Parse(Schemas.NodeInfoList(), Empty(Schemas.NodeInfoList()), bytes).None?
    ensures Step(c, s, Mesh(bytes)) == s
  {
  }

  /** After any other one the table has an entry for each message that names a subnet, in the order of
      the messages: the id of field 1, the address that field 2 is the text of, the subnets of field 3
      with their lowest address, and the MAC address of field 5. The cache is empty and the gateway
      stays. */
  lemma {:induction false} TableAfterMesh(c: Config, s: State, bytes: seq<byte>)
    requires bytes != [] && Parse(Schemas.NodeInfoList(), Empty(Schemas.NodeInfoList()), bytes).Some?
    ensures var list := Parse(Schemas.NodeInfoList(), Empty(Schemas.NodeInfoList()), bytes).value;
            && |list.vals| == 1 && list.vals[0].Subs? && AreNetInfos(list.vals[0].ms)
            && var ms, t := Proper(list.vals[0].ms), Step(c, s, Mesh(bytes));
            && t.cache == map[] && t.gateway == s.gateway
            && |t.cpes| == |ms|
            && forall i :: 0 <= i < |ms| ==>
                 && t.cpes[i].nodeID == ms[i].vals[0].n % 0x1_0000_0000
                 && t.cpes[i].virtualIP == c.inet(ms[i].vals[1].b)
                 && t.cpes[i].subnet == ms[i].vals[2].b && t.cpes[i].low == c.inet(ms[i].vals[2].b)
                 && t.cpes[i].macAddr == ms[i].vals[4].b
  {
    ParsedNetInfos(bytes);
    var list := Parse(Schemas.NodeInfoList(), Empty(Schemas.NodeInfoList()), bytes).value;
    InfosInOrder(list.vals[0].ms);
    hide Parse, Infos, Proper, TableRoutes;
  }

  /** The table a server starts with, from its configuration. */
  lemma {:induction false} TableAtStart(c: Config, infos: seq<NodeInfo>)
    ensures var s := Init(c, infos);
            && s.cache == map[] && s.gateway == 0 && s.infos == infos && |s.cpes| == |infos|
            && forall i :: 0 <= i < |infos| ==>
                 && s.cpes[i].nodeID == infos[i].nodeID && s.cpes[i].virtualIP == c.inet(infos[i].virtualIP)
                 && s.cpes[i].subnet == infos[i].subNet && s.cpes[i].low == c.inet(infos[i].subNet)
                 && s.cpes[i].macAddr == infos[i].macAddr
  {
    hide TableRoutes;
  }

  // The online notification.

  predicate IsEdge(m: Msg) {
    |m.vals| == 5 && m.vals[4].Subs? && forall j :: 0 <= j < |m.vals[4].ms| ==> IsNode(m.vals[4].ms[j])
  }

  predicate IsNode(m: Msg) {
    |m.vals| == 3 && m.vals[0].Str? && m.vals[1].Str? && m.vals[2].Str?
  }

  predicate AreEdges(edges: seq<Msg>) {
    forall i :: 0 <= i < |edges| ==> IsEdge(edges[i])
  }

  /** The nodes of all edges, edge after edge. */
  function Nodes(edges: seq<Msg>): (ns: seq<Msg>)
    requires AreEdges(edges)
    ensures forall i :: 0 <= i < |ns| ==> IsNode(ns[i])
  {
    if edges == [] then [] else edges[0].vals[4].ms + Nodes(edges[1..])
  }

  lemma {:induction false} NodesMore(edges: seq<Msg>, e: Msg)
    requires AreEdges(edges) && IsEdge(e)
    ensures AreEdges(edges + [e]) && Nodes(edges + [e]) == Nodes(edges) + e.vals[4].ms
    decreases |edges|
  {
    hide IsNode;
    if edges == [] {
      assert edges + [e] == [e] && [e][1..] == [] && Nodes([]) == [];
      assert e.vals[4].ms + [] == e.vals[4].ms == [] + e.vals[4].ms;
    } else {
      assert (edges + [e])[1..] == edges[1..] + [e];
      NodesMore(edges[1..], e);
      CodecLaws.Regroup(edges[0].vals[4].ms, Nodes(edges[1..]), e.vals[4].ms);
    }
  }

  /** The node of a peer. */
  predicate Names(c: Config, m: Msg, peer: (int, Address))
    requires IsNode(m)
  {
    peer == (Text.Strtol(m.vals[0].b, 10) % 0x1_0000_0000, c.inet(m.vals[1].b))
  }

  lemma {:induction false} EdgeNames(c: Config, list: seq<Msg>, i: nat)
    requires i < |list| && IsNode(list[i])
    ensures Names(c, list[i], EdgePeers(c, list)[i])
  {
    assert BytesAt(list[i], 0) == list[i].vals[0].b && BytesAt(list[i], 1) == list[i].vals[1].b;
    assert EdgePeers(c, list)[i] == (Text.Strtol(BytesAt(list[i], 0), 10) % TWO32, c.inet(BytesAt(list[i], 1)));
    hide Text.Strtol;
  }

  lemma {:induction false} PeersInOrder(c: Config, edges: seq<Msg>)
    requires AreEdges(edges)
    ensures |Peers(c, edges)| == |Nodes(edges)|
    ensures forall i :: 0 <= i < |Nodes(edges)| ==> Names(c, Nodes(edges)[i], Peers(c, edges)[i])
    decreases |edges|
  {
    if edges != [] {
      var front, e := edges[..|edges| - 1], edges[|edges| - 1];
      PeersInOrder(c, front);
      NodesMore(front, e);
      assert front + [e] == edges;
      assert Peers(c, edges) == Peers(c, front) + EdgePeers(c, e.vals[4].ms);
      hide Text.Strtol, Nodes, Peers;
      forall i | 0 <= i < |e.vals[4].ms| ensures Names(c, e.vals[4].ms[i], EdgePeers(c, e.vals[4].ms)[i]) {
        EdgeNames(c, e.vals[4].ms, i);
      }
      hide Names, EdgePeers, IsNode;
    }
  }

  lemma {:induction false} TypedEdge(m: Msg)
    requires Typed(Schemas.CustemorPEList(), m)
    ensures IsEdge(m)
  {
    var d, e := Schemas.CustemorPEList(), Schemas.CustemorInfo();
    assert Fits(d.fields[4].kind, m.vals[4]);
    forall j | 0 <= j < |m.vals[4].ms| ensures IsNode(m.vals[4].ms[j]) {
      assert Typed(e, m.vals[4].ms[j]);
      assert forall i :: 0 <= i < 3 ==> Fits(e.fields[i].kind, m.vals[4].ms[j].vals[i]);
    }
  }

  lemma {:induction false} TypedEdges(m: Msg)
    requires Typed(Schemas.UserListOnEdge(), m)
    ensures |m.vals| == 1 && m.vals[0].Subs? && AreEdges(m.vals[0].ms)
  {
    hide IsEdge;
    assert Fits(Schemas.UserListOnEdge().fields[0].kind, m.vals[0]);
    forall i | 0 <= i < |m.vals[0].ms| ensures IsEdge(m.vals[0].ms[i]) {
      TypedEdge(m.vals[0].ms[i]);
    }
  }

  /** After an online notification the table has an entry for each node of each edge, in order: the id
      whose text is field 1 and the address whose text is field 2, without subnets and without a MAC
      address. Nothing else changes. */
  lemma {:induction false} TableAfterOnline(c: Config, s: State, bytes: seq<byte>, left: Msg)
    requires Typed(Schemas.UserListOnEdge(), left)
    ensures var r := Parse(Schemas.UserListOnEdge(), Empty(Schemas.UserListOnEdge()), bytes);
            var m := if r.Some? then r.value else left;
            && |m.vals| == 1 && m.vals[0].Subs? && AreEdges(m.vals[0].ms)
            && var ns, t := Nodes(m.vals[0].ms), Step(c, s, Online(bytes, left));
            && t == s.(cpes := t.cpes) && |t.cpes| == |ns|
            && forall i :: 0 <= i < |ns| ==>
                 && t.cpes[i].nodeID == Text.Strtol(ns[i].vals[0].b, 10) % 0x1_0000_0000
                 && t.cpes[i].virtualIP == c.inet(ns[i].vals[1].b)
                 && t.cpes[i].subnet == [] && t.cpes[i].macAddr == []
  {
    var d := Schemas.UserListOnEdge();
    EmptyTyped(d);
    CodecLaws.ParseTyped(d, Empty(d), bytes);
    var r := Parse(d, Empty(d), bytes);
    var m := if r.Some? then r.value else left;
    TypedEdges(m);
    NamedPeers(c, bytes, left, m);
    PeersInOrder(c, m.vals[0].ms);
    hide Parse, Peers, OnlinePeers, Nodes, Text.Strtol, Typed, IsEdge, IsNode, Schemas.UserListOnEdge;
  }

  lemma {:induction false} NamedPeers(c: Config, bytes: seq<byte>, left: Msg, m: Msg)
    requires |m.vals| == 1 && m.vals[0].Subs?
    requires var r := Parse(Schemas.UserListOnEdge(), Empty(Schemas.UserListOnEdge()), bytes);
             m == if r.Some? then r.value else left
    ensures OnlinePeers(c, bytes, left) == Peers(c, m.vals[0].ms)
  {
    hide Parse, Peers;
  }
}
