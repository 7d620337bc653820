/** What the device reads, as events, and where each of them goes. */
module Packets {

  import opened Wire
  import opened Routing
  import Text

  /** An address of four bytes in network order. */
  function AddressAt(packet: seq<byte>, i: nat): Address
    requires i + 4 <= |packet|
  {
    Address(Text.Base256(packet[i], packet[i + 1], packet[i + 2], packet[i + 3]) as bv32)
  }

  /** The protocol of an Ethernet frame. */
  function Proto(packet: seq<byte>): nat
    requires |packet| >= 34
  {
    packet[12] as int * 256 + packet[13] as int
  }

  /** What the device read, as an event. */
  function EventOf(tapMode: bool, packet: seq<byte>): (e: Event)
    requires |packet| >= if tapMode then 34 else 20
    ensures e.Packet? || e.Frame?
  {
    if tapMode then Frame(Proto(packet), packet[..6], AddressAt(packet, 30)) else Packet(AddressAt(packet, 16))
  }

  lemma AddressForm(head: seq<byte>, a: byte, b: byte, c: byte, d: byte, rest: seq<byte>)
    ensures AddressAt(head + [a, b, c, d] + rest, |head|)
         == Address((a * 0x100_0000 + b * 0x1_0000 + c * 0x100 + d) as bv32)
  {
  }

  /** An IPv4 packet has its destination behind sixteen bytes, the highest byte first. */
  lemma PacketForm(head: seq<byte>, a: byte, b: byte, c: byte, d: byte, rest: seq<byte>)
    requires |head| == 16
    ensures EventOf(false, head + [a, b, c, d] + rest)
         == Packet(Address((a * 0x100_0000 + b * 0x1_0000 + c * 0x100 + d) as bv32))
  {
    AddressForm(head, a, b, c, d, rest);
    hide AddressAt;
  }

  /** An Ethernet frame starts with the MAC address it goes to, and has its protocol, the high byte
      first, behind that of the sender; then comes the packet. */
  lemma FrameForm(dst: seq<byte>, src: seq<byte>, high: byte, low: byte,
                  head: seq<byte>, a: byte, b: byte, c: byte, d: byte, rest: seq<byte>)
    requires |dst| == 6 && |src| == 6 && |head| == 16
    ensures EventOf(true, dst + src + [high, low] + head + [a, b, c, d] + rest)
         == Frame(high * 256 + low, dst, Address((a * 0x100_0000 + b * 0x1_0000 + c * 0x100 + d) as bv32))
  {
    var front := dst + src + [high, low] + head;
    var packet := front + [a, b, c, d] + rest;
    AddressForm(front, a, b, c, d, rest);
    hide AddressAt;
    assert front[..6] == dst && front[12] == high && front[13] == low;
    assert packet[..6] == front[..6];
  }

  // Where frames go.

  /** A frame that is looked up: IPv4 to an address below the multicast range. */
  predicate LooksUp(proto: nat, ip: Address) {
    proto == 0x0800 && ip.word < 0xE000_0000
  }

  /** Other frames leave the server as it is. They go to everybody when they are ARP, RARP, IPX or
      PPPoE, or IPv4 to a multicast or reserved address other than the first of its range, and
      nowhere otherwise. */
  lemma FrameGoes(c: Config, s: State, proto: nat, mac: seq<byte>, ip: Address)
    requires c.onlyAcc == 0
    ensures LooksUp(proto, ip) ==> Dest(c, s, Frame(proto, mac, ip)) == Lookup(c, s, ip, mac)
    ensures !LooksUp(proto, ip) ==>
              Step(c, s, Frame(proto, mac, ip)) == s && Dest(c, s, Frame(proto, mac, ip)) ==
                if proto == 0x0806 || proto == 0x8035 || proto == 0x8137 || proto == 0x8863 || proto == 0x8864
                then 0xFFFF_FFFF
                else if proto == 0x0800 && ip.word != 0xE000_0000 && ip.word != 0xF000_0000 then 0xFFFF_FFFF
                else 0
  {
    hide Lookup, Cached;
  }

  predicate SameDest(c: Config, s: State, t: State, e: Event)
    requires e.Packet? || e.Frame?
  {
    Dest(c, s, e) == Dest(c, t, e)
  }

  /** Where a frame goes depends on the server exactly when it is looked up. */
  lemma {:induction false} FrameDependsIff(c: Config, proto: nat, mac: seq<byte>, ip: Address)
    requires c.onlyAcc == 0
    ensures (exists s, t :: !SameDest(c, s, t, Frame(proto, mac, ip))) <==> LooksUp(proto, ip)
  {
    var e := Frame(proto, mac, ip);
    if LooksUp(proto, ip) {
      var s, t := State([], [], map[ip := 1], 0, {}), State([], [], map[ip := 2], 0, {});
      FrameGoes(c, s, proto, mac, ip);
      FrameGoes(c, t, proto, mac, ip);
      assert !SameDest(c, s, t, e);
    } else {
      forall s, t ensures SameDest(c, s, t, e) {
        FrameGoes(c, s, proto, mac, ip);
        FrameGoes(c, t, proto, mac, ip);
      }
    }
  }

  // The gateway.

  /** The gateway set last, or 0. */
  function LastGateway(es: seq<Event>): int {
    if es == [] then 0
    else match es[|es| - 1]
         case SetGateway(id) => id
         case _ => LastGateway(es[..|es| - 1])
  }

  lemma {:induction false} GatewayIsLast(c: Config, infos: seq<NodeInfo>, es: seq<Event>)
    ensures Run(c, Init(c, infos), es).gateway == LastGateway(es)
    decreases |es|
  {
    hide TableRoutes, Table, Cached, OnlineTable, OnlinePeers, Notified;
    if es != [] {
      GatewayIsLast(c, infos, es[..|es| - 1]);
    }
  }

  /** The MAC address that the lookup of a packet or a frame passes on. */
  function MacOf(e: Event): seq<byte> {
    if e.Frame? then e.mac else NO_MAC
  }

  /** In gateway mode everything goes to the gateway set last, and nothing is cached. */
  lemma {:induction false} GatewayMode(c: Config, infos: seq<NodeInfo>, es: seq<Event>, e: Event)
    requires c.onlyAcc != 0 && (e.Packet? || e.Frame?)
    ensures var s := Run(c, Init(c, infos), es); Dest(c, s, e) == LastGateway(es) && Step(c, s, e) == s
    ensures c.onlyAcc == 1 ==> Lookup(c, Run(c, Init(c, infos), es), e.ip, MacOf(e)) == LastGateway(es)
  {
    hide Run, Init, Cached, Uncached;
    GatewayIsLast(c, infos, es);
  }

  /** A packet or a frame that is looked up. */
  predicate IsLookup(e: Event) {
    e.Packet? || (e.Frame? && LooksUp(e.proto, e.ip))
  }

  /** Outside gateway mode, an address that is not cached and that no entry matches goes to the gateway
      set last, unless the server is itself a gateway; then it goes nowhere. */
  lemma {:induction false} UnmatchedGoes(c: Config, infos: seq<NodeInfo>, es: seq<Event>, e: Event)
    requires c.onlyAcc == 0 && IsLookup(e)
    requires var s := Run(c, Init(c, infos), es);
             e.ip !in s.cache && forall i :: 0 <= i < |s.cpes| ==> !NodeMatches(c, s.cpes[i], e.ip, MacOf(e))
    ensures var s := Run(c, Init(c, infos), es);
            Dest(c, s, e) == if c.gateWay == 0 then LastGateway(es) else 0
  {
    var s := Run(c, Init(c, infos), es);
    hide Run, Init, NodeMatches;
    GatewayIsLast(c, infos, es);
    ScanIsFirst(c, s.cpes, e.ip, MacOf(e), |s.cpes|);
  }

  /** A lookup caches what the scan found for an address that was not cached, unless that is 0 or the
      gateway; it changes nothing else. */
  lemma {:induction false} LookupStores(c: Config, s: State, e: Event)
    requires c.onlyAcc == 0 && IsLookup(e)
    ensures var found := Scan(c, s.cpes, e.ip, MacOf(e));
            Step(c, s, e) ==
              if e.ip !in s.cache && found.Some? && found.value != 0 && found.value != s.gateway
              then s.(cache := s.cache[e.ip := found.value]) else s
  {
    hide Scan;
  }

  /** What is cached is where the address goes, whatever the MAC address. */
  lemma {:induction false} CachedGoes(c: Config, s: State, e: Event)
    requires c.onlyAcc == 0 && IsLookup(e) && e.ip in s.cache
    ensures Dest(c, s, e) == s.cache[e.ip]
  {
    hide Scan, Uncached;
  }

  /** What is not cached goes where the scan finds it. */
  lemma {:induction false} ScannedGoes(c: Config, s: State, e: Event)
    requires c.onlyAcc == 0 && IsLookup(e) && e.ip !in s.cache && Scan(c, s.cpes, e.ip, MacOf(e)).Some?
    ensures Dest(c, s, e) == Scan(c, s.cpes, e.ip, MacOf(e)).value
  {
    hide Scan;
  }
}
