/** The overlay's routing decisions on values: the peer table, the scan, the cache and the routes. */
module Routing {

  import opened Wire
  import opened Masks
  import Codec
  import Schemas
  import Text

  const COMMA: byte := 44
  const SLASH: byte := 47

  /** The text "0.0.0.0". */
  const NO_SUBNET: seq<byte> := [48, 46, 48, 46, 48, 46, 48]

  /** The text "00:00:00:00:00:00", the MAC address a TUN lookup passes. */
  const NO_MAC: seq<byte> := [48, 48, 58, 48, 48, 58, 48, 48, 58, 48, 48, 58, 48, 48, 58, 48, 48]

  /** What a server is started with. inet is inet_addr in host order; overshift is what the shift by
      32 - n gives, less one, for prefix lengths n where C leaves it open. */
  datatype Config = Config(
    self: int, tapMode: bool, onlyAcc: int, gateWay: int, inet: seq<byte> -> Address, overshift: int -> Address)

  /** An IPv4 address, in host order. */
  datatype Address = Address(word: bv32)

  datatype NodeInfo =
    NodeInfo(nodeID: int, virtualIP: seq<byte>, subNet: seq<byte>, netMask: int, macAddr: seq<byte>)

  /** low and high are node_subnet_IP_low and node_subnet_IP_high. */
  datatype CpeNode =
    CpeNode(nodeID: int, virtualIP: Address, low: Address, high: Address, subnet: seq<byte>, macAddr: seq<byte>)

  datatype Route = Route(base: Address, mask: bv32)

  // The peer table.

  /** The number of addresses of a subnet, less one. */
  function IpCount(c: Config, maskBit: int): Address {
    if 2 <= maskBit <= 32 then Address(HostCount(Length(maskBit))) else c.overshift(maskBit)
  }

  function Up(low: Address, count: Address): Address {
    Address(Highest(low.word, count.word))
  }

  function Node(c: Config, info: NodeInfo): CpeNode {
    var low := c.inet(info.subNet);
    CpeNode(info.nodeID, c.inet(info.virtualIP), low, Up(low, IpCount(c, info.netMask)), info.subNet, info.macAddr)
  }

  /** Where the shift is defined and the subnet's address has no host bits, the two bounds hold
      exactly the addresses of the subnet. */
  lemma NodeBounds(c: Config, info: NodeInfo, ip: Address)
    requires 2 <= info.netMask <= 32
    requires Matches(c.inet(info.subNet).word, c.inet(info.subNet).word, PrefixMask(Length(info.netMask)))
    ensures Between(ip.word, Node(c, info).low.word, Node(c, info).high.word)
       <==> Matches(ip.word, c.inet(info.subNet).word, PrefixMask(Length(info.netMask)))
  {
    hide Matches, Between, PrefixMask, HostCount, Highest;
    MatchIsInterval(ip.word, c.inet(info.subNet).word, Length(info.netMask));
  }

  function Table(c: Config, infos: seq<NodeInfo>): (t: seq<CpeNode>)
    ensures |t| == |infos|
  {
    seq(|infos|, i requires 0 <= i < |infos| => Node(c, infos[i]))
  }

  /** One prefix of a subnet list: two parts around a slash and a length of at most 32. */
  function Prefix(c: Config, net: seq<byte>): Option<Route> {
    var meta := Text.Tokens(Text.CString(net), [SLASH]);
    if |meta| != 2 then None
    else
      var n := Text.Strtol(meta[1], 10) % TWO32;
      if n > 32 then None else Some(Route(c.inet(meta[0]), PrefixMask(Length(n))))
  }

  /** The parts of a subnet list, as split cuts it at commas. */
  function Nets(subnet: seq<byte>): seq<seq<byte>> {
    Text.Tokens(Text.CString(subnet), [COMMA])
  }

  predicate HasPrefix(c: Config, node: CpeNode, r: Route) {
    exists i :: 0 <= i < |Nets(node.subnet)| && Prefix(c, Nets(node.subnet)[i]) == Some(r)
  }

  // The scan.

  predicate NetMatches(c: Config, net: seq<byte>, ip: Address) {
    Prefix(c, net).Some? && Matches(ip.word, Prefix(c, net).value.base.word, Prefix(c, net).value.mask)
  }

  predicate NodeMatches(c: Config, node: CpeNode, ip: Address, mac: seq<byte>) {
    || ip == node.virtualIP
    || (exists i :: 0 <= i < |Nets(node.subnet)| && NetMatches(c, Nets(node.subnet)[i], ip))
    || (c.tapMode && mac == node.macAddr)
  }

  /** The node of the first table entry that matches. */
  function Scan(c: Config, cpes: seq<CpeNode>, ip: Address, mac: seq<byte>): Option<int> {
    if cpes == [] then None
    else if NodeMatches(c, cpes[0], ip, mac) then Some(cpes[0].nodeID)
    else Scan(c, cpes[1..], ip, mac)
  }

  /** The scan finds the first match, and nothing only when nothing matches. */
  lemma {:induction false} ScanIsFirst(c: Config, cpes: seq<CpeNode>, ip: Address, mac: seq<byte>, i: nat)
    requires i <= |cpes| && forall j :: 0 <= j < i ==> !NodeMatches(c, cpes[j], ip, mac)
    ensures i == |cpes| ==> Scan(c, cpes, ip, mac) == None
    ensures i < |cpes| && NodeMatches(c, cpes[i], ip, mac) ==> Scan(c, cpes, ip, mac) == Some(cpes[i].nodeID)
    decreases i
  {
    if i > 0 {
      ScanIsFirst(c, cpes[1..], ip, mac, i - 1);
    }
  }

  lemma {:induction false} ScanFinds(c: Config, cpes: seq<CpeNode>, ip: Address, mac: seq<byte>, i: nat)
    requires i < |cpes| && NodeMatches(c, cpes[i], ip, mac)
    ensures Scan(c, cpes, ip, mac).Some?
    ensures exists j ::
      0 <= j <= i && Scan(c, cpes, ip, mac) == Some(cpes[j].nodeID) && NodeMatches(c, cpes[j], ip, mac)
    decreases i
  {
    if NodeMatches(c, cpes[0], ip, mac) {
      assert Scan(c, cpes, ip, mac) == Some(cpes[0].nodeID);
    } else {
      ScanFinds(c, cpes[1..], ip, mac, i - 1);
      var j :| 0 <= j <= i - 1 && Scan(c, cpes[1..], ip, mac) == Some(cpes[1..][j].nodeID)
            && NodeMatches(c, cpes[1..][j], ip, mac);
      assert cpes[j + 1] == cpes[1..][j];
    }
  }

  /** getNodeIDFromIP without its cache. */
  function Uncached(c: Config, cpes: seq<CpeNode>, gateway: int, ip: Address, mac: seq<byte>): int {
    if c.onlyAcc == 1 then gateway
    else match Scan(c, cpes, ip, mac)
         case Some(id) => id
         case None => if c.gateWay == 0 then gateway else 0
  }

  // The routes.

  ghost predicate TableHas(c: Config, cpes: seq<CpeNode>, r: Route) {
    exists i :: 0 <= i < |cpes| && cpes[i].nodeID != c.self && HasPrefix(c, cpes[i], r)
  }

  /** The valid prefixes of a node. */
  function NodeRoutes(c: Config, node: CpeNode): (s: set<Route>)
    ensures forall r :: r in s <==> HasPrefix(c, node, r)
  {
    NetRoutes(c, Nets(node.subnet))
  }

  function NetRoutes(c: Config, nets: seq<seq<byte>>): (s: set<Route>)
    ensures forall r :: r in s <==> exists i :: 0 <= i < |nets| && Prefix(c, nets[i]) == Some(r)
  {
    if nets == [] then {}
    else (match Prefix(c, nets[0]) case None => {} case Some(r) => {r}) + NetRoutes(c, nets[1..])
  }

  /** The valid prefixes of the peers other than self. */
  function TableRoutes(c: Config, cpes: seq<CpeNode>): (s: set<Route>)
    ensures forall r :: r in s <==> TableHas(c, cpes, r)
  {
    if cpes == [] then {}
    else (if cpes[0].nodeID == c.self then {} else NodeRoutes(c, cpes[0])) + TableRoutes(c, cpes[1..])
  }

  // The mesh notification.

  function NumAt(m: Codec.Msg, i: nat): int {
    if i < |m.vals| && m.vals[i].Num? then m.vals[i].n else 0
  }

  function BytesAt(m: Codec.Msg, i: nat): seq<byte> {
    if i < |m.vals| && m.vals[i].Str? then m.vals[i].b else []
  }

  function ListAt(m: Codec.Msg, i: nat): seq<Codec.Msg> {
    if i < |m.vals| && m.vals[i].Subs? then m.vals[i].ms else []
  }

  /** A peer record from a NetInfo message. */
  function Info(m: Codec.Msg): NodeInfo {
    NodeInfo(NumAt(m, 0) % TWO32, BytesAt(m, 1), BytesAt(m, 2), NumAt(m, 3) % TWO32, BytesAt(m, 4))
  }

  /** The new records: every message but those without a subnet. */
  function Infos(ms: seq<Codec.Msg>): seq<NodeInfo> {
    if ms == [] then []
    else Infos(ms[..|ms| - 1]) + (var m := ms[|ms| - 1]; if BytesAt(m, 2) == NO_SUBNET then [] else [Info(m)])
  }

  /** What a notification asks for: nothing when it is empty or does not parse. */
  function Notified(bytes: seq<byte>): Option<seq<NodeInfo>> {
    if bytes == [] then None
    else match Codec.Parse(Schemas.NodeInfoList(), Codec.Empty(Schemas.NodeInfoList()), bytes)
         case None => None
         case Some(m) => Some(Infos(ListAt(m, 0)))
  }

  // The online notification.

  /** The nodes of one edge, by id and address. */
  function EdgePeers(c: Config, cpes: seq<Codec.Msg>): (ps: seq<(int, Address)>)
    ensures |ps| == |cpes|
  {
    seq(|cpes|, i requires 0 <= i < |cpes| =>
      (Text.Strtol(BytesAt(cpes[i], 0), 10) % TWO32, c.inet(BytesAt(cpes[i], 1))))
  }

  /** The nodes of a list of edges, edge after edge. */
  function Peers(c: Config, edges: seq<Codec.Msg>): seq<(int, Address)> {
    if edges == [] then []
    else Peers(c, edges[..|edges| - 1]) + EdgePeers(c, ListAt(edges[|edges| - 1], 4))
  }

  /** The nodes an online notification names. A failed parse is ignored: its remains are used. */
  function OnlinePeers(c: Config, bytes: seq<byte>, left: Codec.Msg): seq<(int, Address)> {
    match Codec.Parse(Schemas.UserListOnEdge(), Codec.Empty(Schemas.UserListOnEdge()), bytes)
    case None => Peers(c, ListAt(left, 0))
    case Some(m) => Peers(c, ListAt(m, 0))
  }

  // The server's state and its steps.

  datatype State = State(
    infos: seq<NodeInfo>, cpes: seq<CpeNode>, cache: map<Address, int>, gateway: int, routes: set<Route>)

  /** A packet from a TUN device, a frame from a TAP device, and the messages that reach the server.
      left is the message that parsing malformed bytes leaves. */
  datatype Event =
    Packet(ip: Address) | Frame(proto: nat, mac: seq<byte>, ip: Address)
  | SetGateway(id: int) | Mesh(bytes: seq<byte>) | Online(bytes: seq<byte>, left: Codec.Msg)

  function Init(c: Config, infos: seq<NodeInfo>): State {
    var cpes := Table(c, infos);
    State(infos, cpes, map[], 0, TableRoutes(c, cpes))
  }

  /** getNodeIDFromIP. */
  function Lookup(c: Config, s: State, ip: Address, mac: seq<byte>): int {
    if c.onlyAcc == 1 then s.gateway
    else if ip in s.cache then s.cache[ip]
    else Uncached(c, s.cpes, s.gateway, ip, mac)
  }

  /** The cache after a lookup: found ids that are neither 0 nor the gateway are kept. */
  function Cached(c: Config, s: State, ip: Address, mac: seq<byte>): map<Address, int> {
    var id := Lookup(c, s, ip, mac);
    if id != 0 && id != s.gateway && ip !in s.cache then s.cache[ip := id] else s.cache
  }

  const ETH_P_IP: nat := 0x0800

  /** ARP, RARP, IPX and the two PPPoE protocols. */
  const FLOODED: set<nat> := {0x0806, 0x8035, 0x8137, 0x8863, 0x8864}

  const EVERYBODY: int := 0xFFFF_FFFF

  predicate IsUnicast(ip: Address) {
    ip.word < 0xE000_0000
  }

  /** Where a frame goes: an IP frame to a unicast address is looked up. The first multicast and the
      first reserved address go nowhere. */
  function FrameDest(c: Config, s: State, proto: nat, mac: seq<byte>, ip: Address): int {
    if proto == ETH_P_IP then
      if IsUnicast(ip) then Lookup(c, s, ip, mac)
      else if ip.word == 0xE000_0000 || ip.word == 0xF000_0000 then 0
      else EVERYBODY
    else if proto in FLOODED then EVERYBODY
    else 0
  }

  /** Where a packet or a frame goes. */
  function Dest(c: Config, s: State, e: Event): int
    requires e.Packet? || e.Frame?
  {
    if c.onlyAcc != 0 then s.gateway
    else match e
         case Packet(ip) => Lookup(c, s, ip, NO_MAC)
         case Frame(proto, mac, ip) => FrameDest(c, s, proto, mac, ip)
  }

  /** The nodes an online notification leaves: no subnet and no MAC address. */
  function OnlineTable(peers: seq<(int, Address)>): (t: seq<CpeNode>)
    ensures |t| == |peers|
  {
    seq(|peers|, i requires 0 <= i < |peers| => CpeNode(peers[i].0, peers[i].1, Address(0), Address(0), [], []))
  }

  function Step(c: Config, s: State, e: Event): State {
    match e
    case Packet(ip) => if c.onlyAcc != 0 then s else s.(cache := Cached(c, s, ip, NO_MAC))
    case Frame(proto, mac, ip) =>
      if c.onlyAcc != 0 || proto != ETH_P_IP || !IsUnicast(ip) then s else s.(cache := Cached(c, s, ip, mac))
    case SetGateway(id) => s.(gateway := id)
    case Mesh(bytes) => (
      match Notified(bytes)
      case None => s
      case Some(infos) =>
        var cpes := Table(c, infos);
        State(infos, cpes, map[], s.gateway, s.routes - TableRoutes(c, s.cpes) + TableRoutes(c, cpes)))
    case Online(bytes, left) => s.(cpes := OnlineTable(OnlinePeers(c, bytes, left)))
  }

  function Run(c: Config, s: State, es: seq<Event>): State
    decreases |es|
  {
    if es == [] then s else Step(c, Run(c, s, es[..|es| - 1]), es[|es| - 1])
  }

  /** The destinations of the packets of a run. */
  function Dests(c: Config, s: State, es: seq<Event>): seq<int>
    decreases |es|
  {
    if es == [] then []
    else
      var before := Run(c, s, es[..|es| - 1]);
      var e := es[|es| - 1];
      Dests(c, s, es[..|es| - 1]) + if e.Packet? || e.Frame? then [Dest(c, before, e)] else []
  }

  predicate NoOnline(es: seq<Event>) {
    forall i :: 0 <= i < |es| ==> !es[i].Online?
  }

  /** A run of a TUN device without online notifications. */
  predicate TunOnly(es: seq<Event>) {
    forall i :: 0 <= i < |es| ==> !es[i].Online? && !es[i].Frame?
  }

  lemma {:induction false} RunMore(c: Config, s: State, es: seq<Event>, e: Event)
    ensures Run(c, s, es + [e]) == Step(c, Run(c, s, es), e)
  {
    assert (es + [e])[..|es|] == es;
  }
}
