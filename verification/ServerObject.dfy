/** The server object: its fields and the handlers that change them. */
module ServerObject {

  import opened Wire
  import opened Masks
  import opened Packets
  import opened Routing
  import Codec
  import MessageObject
  import Messages
  import PartialParse
  import Schemas
  import Text

  lemma OneByte(b: byte)
    requires b != 0
    ensures Text.CString([b]) == [b]
  {
    assert [b][1..] == [];
  }

  lemma EmptyPlus(s: set<Route>)
    ensures {} + s == s
  {
  }

  class Server {
    const config: Config
    var nodeInfoList: seq<NodeInfo>
    var cpes: seq<CpeNode>
    var ip2nodeIdCache: map<Address, int>
    var gatewayId: int
    var routes: set<Route>

    ghost function Now(): State
      reads this
    {
      State(nodeInfoList, cpes, ip2nodeIdCache, gatewayId, routes)
    }

    constructor (c: Config, infos: seq<NodeInfo>)
      ensures config == c
      ensures Now() == Init(c, infos)
    {
      config, nodeInfoList := c, infos;
      cpes, ip2nodeIdCache, gatewayId, routes := [], map[], 0, {};
      new;
      hide TableRoutes, Table, TableHas;
      InitMeshCpes();
      AddRouteForNodes();
      EmptyPlus(TableRoutes(c, cpes));
    }

    method SetGatewayId(id: int)
      modifies this`gatewayId
      ensures Now() == Step(config, old(Now()), SetGateway(id))
    {
      gatewayId := id;
    }

    method InitMeshCpes()
      modifies this`cpes
      ensures cpes == Table(config, nodeInfoList)
    {
      cpes := [];
      var i := 0;
      while i < |nodeInfoList|
        invariant 0 <= i <= |nodeInfoList|
        invariant cpes == Table(config, nodeInfoList)[..i]
      {
        var info := nodeInfoList[i];
        var low, ipCount := config.inet(info.subNet), IpCount(config, info.netMask);
        cpes := cpes + [CpeNode(
          info.nodeID, config.inet(info.virtualIP), low, Up(low, ipCount), info.subNet, info.macAddr)];
        i := i + 1;
      }
    }

    /** The prefix in one part of a subnet list, if the part holds one. */
    method ReadPrefix(net: seq<byte>) returns (r: Option<Route>)
      ensures r == Prefix(config, net)
    {
      var meta := Text.Split(net, [SLASH]);
      OneByte(SLASH);
      if |meta| != 2 {
        return None;
      }
      var netmask := Text.Strtol(meta[1], 10) % TWO32;
      if netmask > 32 {
        return None;
      }
      var mask := ClearHostBits(Length(netmask));
      r := Some(Route(config.inet(meta[0]), mask));
    }

    /** The inner loop of add_route_for_nodes: one route for each valid prefix of a node. */
    method AddNodeRoutes(subnet: seq<byte>)
      modifies this`routes
      ensures routes == old(routes) + NetRoutes(config, Nets(subnet))
    {
      var netVec := Text.Split(subnet, [COMMA]);
      OneByte(COMMA);
      var i := 0;
      assert netVec[0..] == netVec;
      while i < |netVec|
        invariant 0 <= i <= |netVec|
        invariant routes + NetRoutes(config, netVec[i..]) == old(routes) + NetRoutes(config, netVec)
      {
        assert netVec[i..][1..] == netVec[i + 1..];
        var r := ReadPrefix(netVec[i]);
        if r.Some? {
          routes := routes + {r.value};
        }
        i := i + 1;
      }
    }

    method AddRouteForNodes()
      modifies this`routes
      ensures routes == old(routes) + TableRoutes(config, cpes)
    {
      var i := 0;
      assert cpes[0..] == cpes;
      while i < |cpes|
        invariant 0 <= i <= |cpes|
        invariant routes + TableRoutes(config, cpes[i..]) == old(routes) + TableRoutes(config, cpes)
      {
        assert cpes[i..][1..] == cpes[i + 1..];
        if config.self != cpes[i].nodeID {
          AddNodeRoutes(cpes[i].subnet);
        }
        i := i + 1;
      }
    }

    /** The inner loop of del_route_for_nodes. */
    method DelNodeRoutes(subnet: seq<byte>)
      modifies this`routes
      ensures routes == old(routes) - NetRoutes(config, Nets(subnet))
    {
      var netVec := Text.Split(subnet, [COMMA]);
      OneByte(COMMA);
      var i := 0;
      assert netVec[0..] == netVec;
      while i < |netVec|
        invariant 0 <= i <= |netVec|
        invariant routes - NetRoutes(config, netVec[i..]) == old(routes) - NetRoutes(config, netVec)
      {
        assert netVec[i..][1..] == netVec[i + 1..];
        var r := ReadPrefix(netVec[i]);
        if r.Some? {
          routes := routes - {r.value};
        }
        i := i + 1;
      }
    }

    method DelRouteForNodes()
      modifies this`routes
      ensures routes == old(routes) - TableRoutes(config, cpes)
    {
      var i := 0;
      assert cpes[0..] == cpes;
      while i < |cpes|
        invariant 0 <= i <= |cpes|
        invariant routes - TableRoutes(config, cpes[i..]) == old(routes) - TableRoutes(config, cpes)
      {
        assert cpes[i..][1..] == cpes[i + 1..];
        if config.self != cpes[i].nodeID {
          DelNodeRoutes(cpes[i].subnet);
        }
        i := i + 1;
      }
    }

    /** Whether one of a node's prefixes matches. */
    method AnyNetMatches(subnet: seq<byte>, ip: Address) returns (found: bool)
      ensures found <==> exists i :: 0 <= i < |Nets(subnet)| && NetMatches(config, Nets(subnet)[i], ip)
    {
      hide Matches, Prefix;
      var netVec := Text.Split(subnet, [COMMA]);
      OneByte(COMMA);
      var i := 0;
      while i < |netVec|
        invariant 0 <= i <= |netVec|
        invariant forall j :: 0 <= j < i ==> !NetMatches(config, netVec[j], ip)
      {
        var r := ReadPrefix(netVec[i]);
        if r.Some? && Matches(ip.word, r.value.base.word, r.value.mask) {
          assert NetMatches(config, Nets(subnet)[i], ip);
          return true;
        }
        i := i + 1;
      }
      return false;
    }

    method GetNodeIDFromIP(ip: Address, mac: seq<byte>) returns (id: int)
      ensures id == Lookup(config, Now(), ip, mac)
    {
      if config.onlyAcc == 1 {
        return gatewayId;
      }
      if ip in ip2nodeIdCache {
        return ip2nodeIdCache[ip];
      }
      var i := 0;
      assert cpes[0..] == cpes;
      while i < |cpes|
        invariant 0 <= i <= |cpes|
        invariant Scan(config, cpes, ip, mac) == Scan(config, cpes[i..], ip, mac)
      {
        assert cpes[i..][1..] == cpes[i + 1..];
        if ip == cpes[i].virtualIP {
          return cpes[i].nodeID;
        }
        var found := AnyNetMatches(cpes[i].subnet, ip);
        if found {
          return cpes[i].nodeID;
        }
        if config.tapMode && mac == cpes[i].macAddr {
          return cpes[i].nodeID;
        }
        i := i + 1;
      }
      if config.gateWay == 0 {
        return gatewayId;
      }
      return 0;
    }

    method GetDestIDFromTunPacket(packet: seq<byte>) returns (dest: int)
      requires |packet| >= 20
      modifies this`ip2nodeIdCache
      ensures dest == old(Lookup(config, Now(), AddressAt(packet, 16), NO_MAC))
      ensures ip2nodeIdCache == old(Cached(config, Now(), AddressAt(packet, 16), NO_MAC))
    {
      var ip := AddressAt(packet, 16);
      dest := GetNodeIDFromIP(ip, NO_MAC);
      if dest != 0 && dest != gatewayId && ip !in ip2nodeIdCache {
        ip2nodeIdCache := ip2nodeIdCache[ip := dest];
      }
    }

    /** The address is read behind the 14 bytes of an Ethernet header. */
    method GetDestIDFromTapPacket(packet: seq<byte>) returns (dest: int)
      requires |packet| >= 34
      modifies this`ip2nodeIdCache
      ensures dest == old(FrameDest(config, Now(), Proto(packet), packet[..6], AddressAt(packet, 30)))
      ensures ip2nodeIdCache == old(
        if Proto(packet) == ETH_P_IP && IsUnicast(AddressAt(packet, 30))
        then Cached(config, Now(), AddressAt(packet, 30), packet[..6]) else ip2nodeIdCache)
    {
      dest := 0;
      var mac, proto, ip := packet[..6], Proto(packet), AddressAt(packet, 30);
      if proto == ETH_P_IP {
        if IsUnicast(ip) {
          dest := GetNodeIDFromIP(ip, mac);
          if dest != 0 && dest != gatewayId && ip !in ip2nodeIdCache {
            ip2nodeIdCache := ip2nodeIdCache[ip := dest];
          }
        } else if ip.word > 0xE000_0000 && ip.word < 0xF000_0000 {
          dest := EVERYBODY;
        } else if ip.word > 0xF000_0000 {
          dest := EVERYBODY;
        }
      } else if proto in FLOODED {
        dest := EVERYBODY;
      }
    }

    /** handle_packet_from_dev. */
    method HandlePacketFromDev(packet: seq<byte>) returns (dest: int)
      requires |packet| >= if config.tapMode then 34 else 20
      modifies this`ip2nodeIdCache
      ensures dest == old(Dest(config, Now(), EventOf(config.tapMode, packet)))
      ensures Now() == Step(config, old(Now()), EventOf(config.tapMode, packet))
    {
      if config.onlyAcc != 0 {
        dest := gatewayId;
      } else if config.tapMode {
        dest := GetDestIDFromTapPacket(packet);
      } else {
        dest := GetDestIDFromTunPacket(packet);
      }
    }

    /** ParseFromString on a new NodeInfoList, and the list it holds then. */
    method ParseNodeInfoList(bytes: seq<byte>) returns (ok: bool, list: seq<Codec.Msg>)
      ensures var r := Codec.Parse(Schemas.NodeInfoList(), Codec.Empty(Schemas.NodeInfoList()), bytes);
              ok == r.Some? && (ok ==> list == ListAt(r.value, 0))
    {
      Schemas.NodeInfoListGood();
      var message := new MessageObject.Message(Schemas.NodeInfoList());
      ok := message.ParseFromString(bytes);
      list := ListAt(Messages.Plain(message.live), 0);
    }

    /** The loop that refills the peer records. */
    method RebuildNodeInfoList(list: seq<Codec.Msg>)
      modifies this`nodeInfoList
      ensures nodeInfoList == Infos(list)
    {
      nodeInfoList := [];
      var i := 0;
      while i < |list|
        invariant 0 <= i <= |list|
        invariant nodeInfoList == Infos(list[..i])
      {
        assert list[..i + 1][..i] == list[..i];
        if BytesAt(list[i], 2) != NO_SUBNET {
          nodeInfoList := nodeInfoList + [Info(list[i])];
        }
        i := i + 1;
      }
      assert list[..|list|] == list;
    }

    method HandleMeshNotify(cpesInfo: seq<byte>)
      modifies this
      ensures Now() == Step(config, old(Now()), Mesh(cpesInfo))
    {
      if cpesInfo == [] {
        return;
      }
      var ok, list := ParseNodeInfoList(cpesInfo);
      if !ok {
        return;
      }
      hide Table, TableRoutes, TableHas, Infos;
      ReplacePeers(list);
    }

    /** What a well-formed notification does: the cache is dropped, the records and the table are
        rebuilt, and the old table's routes make way for those of the new one. */
    method ReplacePeers(list: seq<Codec.Msg>)
      modifies this
      ensures nodeInfoList == Infos(list) && cpes == Table(config, Infos(list))
      ensures ip2nodeIdCache == map[] && gatewayId == old(gatewayId)
      ensures routes == old(routes - TableRoutes(config, cpes)) + TableRoutes(config, cpes)
    {
      hide Table, TableRoutes, TableHas, Infos;
      ip2nodeIdCache := map[];
      RebuildNodeInfoList(list);
      DelRouteForNodes();
      InitMeshCpes();
      AddRouteForNodes();
    }

    /** The inner loop of handle_online_cpes_notify: a node for each entry of an edge. */
    method AddEdge(edge: Codec.Msg)
      modifies this`cpes
      ensures cpes == old(cpes) + OnlineTable(EdgePeers(config, ListAt(edge, 4)))
    {
      var list := ListAt(edge, 4);
      var i := 0;
      while i < |list|
        invariant 0 <= i <= |list|
        invariant cpes == old(cpes) + OnlineTable(EdgePeers(config, list))[..i]
      {
        var id := Text.Strtol(BytesAt(list[i], 0), 10) % TWO32;
        cpes := cpes + [CpeNode(id, config.inet(BytesAt(list[i], 1)), Address(0), Address(0), [], [])];
        i := i + 1;
      }
    }

    /** ParseFromString on a new UserListOnEdge, and the edges it holds then, parsed or not. */
    method ParseUserList(bytes: seq<byte>) returns (edges: seq<Codec.Msg>, ghost left: Codec.Msg)
      ensures Codec.Typed(Schemas.UserListOnEdge(), left)
      ensures PartialParse.Leaves(Schemas.UserListOnEdge(), Codec.Empty(Schemas.UserListOnEdge()), bytes, left)
      ensures edges == match Codec.Parse(Schemas.UserListOnEdge(), Codec.Empty(Schemas.UserListOnEdge()), bytes)
                       case None => ListAt(left, 0)
                       case Some(m) => ListAt(m, 0)
    {
      Schemas.UserListOnEdgeGood();
      var message := new MessageObject.Message(Schemas.UserListOnEdge());
      var ok := message.ParseFromString(bytes);
      left := message.Value();
      edges := ListAt(Messages.Plain(message.live), 0);
    }

    /** The loop over the edges. */
    method AddEdges(edges: seq<Codec.Msg>)
      modifies this`cpes
      ensures cpes == OnlineTable(Peers(config, edges))
    {
      cpes := [];
      var i := 0;
      while i < |edges|
        invariant 0 <= i <= |edges|
        invariant cpes == OnlineTable(Peers(config, edges[..i]))
      {
        hide Peers, OnlineTable, EdgePeers;
        PeersMore(config, edges, i);
        AddEdge(edges[i]);
        i := i + 1;
      }
      assert edges[..|edges|] == edges;
    }

    /** handle_online_cpes_notify: what the parser leaves is used even where it fails. */
    method HandleOnlineCpesNotify(cpesInfo: seq<byte>) returns (ghost left: Codec.Msg)
      modifies this`cpes
      ensures Codec.Typed(Schemas.UserListOnEdge(), left)
      ensures PartialParse.Leaves(Schemas.UserListOnEdge(), Codec.Empty(Schemas.UserListOnEdge()), cpesInfo, left)
      ensures Now() == Step(config, old(Now()), Online(cpesInfo, left))
    {
      var edges;
      edges, left := ParseUserList(cpesInfo);
      AddEdges(edges);
    }
  }

  lemma {:induction false} PeersMore(c: Config, edges: seq<Codec.Msg>, i: nat)
    requires i < |edges|
    ensures OnlineTable(Peers(c, edges[..i + 1]))
         == OnlineTable(Peers(c, edges[..i])) + OnlineTable(EdgePeers(c, ListAt(edges[i], 4)))
  {
    assert edges[..i + 1][..i] == edges[..i];
  }
}
