/** Which routes are installed, and where the addresses they cover go. */
module RouteLaws {

  import opened Wire
  import opened Masks
  import opened Routing
  import opened Succession
  import CacheLaws
  import Codec
  import Text

  // The routes track the table.

  lemma {:induction false} StepRoutes(c: Config, s: State, e: Event)
    requires s.routes == TableRoutes(c, s.cpes) && s.cpes == Table(c, s.infos) && !e.Online?
    ensures var t := Step(c, s, e); t.routes == TableRoutes(c, t.cpes) && t.cpes == Table(c, t.infos)
  {
  }

  lemma {:induction false} RunRoutes(c: Config, infos: seq<NodeInfo>, es: seq<Event>)
    requires NoOnline(es)
    ensures var t := Run(c, Init(c, infos), es); t.routes == TableRoutes(c, t.cpes) && t.cpes == Table(c, t.infos)
    decreases |es|
  {
    if es != [] {
      RunRoutes(c, infos, es[..|es| - 1]);
      StepRoutes(c, Run(c, Init(c, infos), es[..|es| - 1]), es[|es| - 1]);
    }
  }

  /** The network of a route: its base without host bits. */
  function Network(r: Route): bv32 {
    r.base.word & r.mask
  }

  /** The addresses a route sends into the tunnel. */
  predicate Covers(r: Route, ip: Address) {
    Matches(ip.word, Network(r), r.mask)
  }

  /** The addresses the scan's test for a route accepts. */
  predicate Tests(r: Route, ip: Address) {
    Matches(ip.word, r.base.word, r.mask)
  }

  /** A route whose base has no host bits. */
  predicate IsAligned(r: Route) {
    Tests(r, r.base)
  }

  lemma OwnNetwork(r: Route)
    ensures Covers(r, r.base)
    ensures IsAligned(r) ==> Network(r) == r.base.word
  {
  }

  /** The scan's test accepts all a route covers exactly when the route's base has no host bits. */
  lemma CoveredIffAligned(r: Route)
    ensures IsAligned(r) <==> forall ip :: Covers(r, ip) ==> Tests(r, ip)
  {
    hide Matches, Network;
    OwnNetwork(r);
  }

  lemma PrefixMatches(c: Config, node: CpeNode, r: Route, ip: Address, mac: seq<byte>)
    requires HasPrefix(c, node, r) && Tests(r, ip)
    ensures NodeMatches(c, node, ip, mac)
  {
    hide Matches;
    var i :| 0 <= i < |Nets(node.subnet)| && Prefix(c, Nets(node.subnet)[i]) == Some(r);
    assert NetMatches(c, Nets(node.subnet)[i], ip);
  }

  lemma {:induction false} InstalledFound(c: Config, cpes: seq<CpeNode>, r: Route, ip: Address, mac: seq<byte>)
    requires r in TableRoutes(c, cpes) && Tests(r, ip)
    ensures Scan(c, cpes, ip, mac).Some?
  {
    hide Tests, NodeMatches;
    var i :| 0 <= i < |cpes| && HasPrefix(c, cpes[i], r);
    PrefixMatches(c, cpes[i], r, ip, mac);
    ScanFinds(c, cpes, ip, mac, i);
  }

  lemma {:induction false} ScanWhence(c: Config, cpes: seq<CpeNode>, ip: Address, mac: seq<byte>) returns (i: nat)
    requires Scan(c, cpes, ip, mac).Some?
    ensures i < |cpes| && NodeMatches(c, cpes[i], ip, mac) && Scan(c, cpes, ip, mac) == Some(cpes[i].nodeID)
  {
    hide NodeMatches;
    if NodeMatches(c, cpes[0], ip, mac) {
      i := 0;
    } else {
      i := ScanWhence(c, cpes[1..], ip, mac);
      i := i + 1;
    }
  }

  // Where covered addresses go.

  /** A packet to an address goes to a node of the table that matches the address. */
  ghost predicate Resolves(c: Config, s: State, ip: Address) {
    exists i :: 0 <= i < |s.cpes| && NodeMatches(c, s.cpes[i], ip, NO_MAC) && Dest(c, s, Packet(ip)) == s.cpes[i].nodeID
  }

  /** Over every run, an address covered by an aligned installed route is resolved to a node of the
      table that matches it, never to the fallback. */
  lemma {:induction false} CoveredResolves(c: Config, infos: seq<NodeInfo>, es: seq<Event>, r: Route, ip: Address)
    requires TunOnly(es) && c.onlyAcc == 0
    requires r in Run(c, Init(c, infos), es).routes && IsAligned(r) && Covers(r, ip)
    ensures Resolves(c, Run(c, Init(c, infos), es), ip)
  {
    hide Matches, Network, NodeMatches;
    var s := Run(c, Init(c, infos), es);
    RunRoutes(c, infos, es);
    CacheLaws.RunAgrees(c, infos, es);
    CoveredIffAligned(r);
    InstalledFound(c, s.cpes, r, ip, NO_MAC);
    var i := ScanWhence(c, s.cpes, ip, NO_MAC);
    CacheLaws.CachedIsUncached(c, s, ip);
  }

  lemma {:induction false} OneTable(c: Config, infos: seq<NodeInfo>, es: seq<Event>)
    requires NoOnline(es)
    ensures CacheLaws.Tables(c, infos, es) == [Run(c, Init(c, infos), es).cpes]
    decreases |es|
  {
    if es != [] {
      OneTable(c, infos, es[..|es| - 1]);
    }
  }

  /** A node of the table that matches the address, by some MAC address at least. */
  ghost predicate Reached(c: Config, cpes: seq<CpeNode>, ip: Address, id: int) {
    exists i, mac :: 0 <= i < |cpes| && NodeMatches(c, cpes[i], ip, mac) && cpes[i].nodeID == id
  }

  lemma {:induction false} ScanReaches(c: Config, cpes: seq<CpeNode>, ip: Address, mac: seq<byte>)
    requires Scan(c, cpes, ip, mac).Some?
    ensures Reached(c, cpes, ip, Scan(c, cpes, ip, mac).value)
  {
    hide NodeMatches;
    var i := ScanWhence(c, cpes, ip, mac);
  }

  lemma {:induction false} CachedReached(c: Config, infos: seq<NodeInfo>, es: seq<Event>, ip: Address)
    requires NoOnline(es) && ip in Run(c, Init(c, infos), es).cache
    ensures var s := Run(c, Init(c, infos), es); Reached(c, s.cpes, ip, s.cache[ip])
  {
    var s := Run(c, Init(c, infos), es);
    CacheLaws.CacheHistory(c, infos, es);
    OneTable(c, infos, es);
    hide Run, Init, Scan;
    var i, mac :| 0 <= i < |[s.cpes]| && Scan(c, [s.cpes][i], ip, mac) == Some(s.cache[ip]);
    ScanReaches(c, s.cpes, ip, mac);
  }

  /** Over every run without online notifications, TAP frames included, a lookup of an address that an
      aligned installed route covers gives a node of the current table that matches the address. */
  lemma {:induction false} CoveredReached(
    c: Config, infos: seq<NodeInfo>, es: seq<Event>, r: Route, ip: Address, mac: seq<byte>)
    requires NoOnline(es) && c.onlyAcc == 0
    requires r in Run(c, Init(c, infos), es).routes && IsAligned(r) && Covers(r, ip)
    ensures var s := Run(c, Init(c, infos), es); Reached(c, s.cpes, ip, Lookup(c, s, ip, mac))
  {
    hide Matches, Network, NodeMatches, Reached;
    var s := Run(c, Init(c, infos), es);
    RunRoutes(c, infos, es);
    CoveredIffAligned(r);
    if ip in s.cache {
      CachedReached(c, infos, es, ip);
    } else {
      InstalledFound(c, s.cpes, r, ip, mac);
      ScanReaches(c, s.cpes, ip, mac);
    }
  }

  lemma MisalignedNeverTests(r: Route, ip: Address)
    requires !IsAligned(r)
    ensures !Tests(r, ip)
  {
  }

  lemma NetworkCovered(r: Route)
    ensures Covers(r, Address(Network(r)))
  {
  }

  lemma MisalignedMoves(r: Route)
    requires !IsAligned(r)
    ensures Address(Network(r)) != r.base
  {
  }

  /** A covered address other than a given one, when the base has host bits. */
  lemma OtherCovered(r: Route, not: Address) returns (ip: Address)
    requires !IsAligned(r)
    ensures Covers(r, ip) && ip != not
  {
    hide Covers, Network, IsAligned;
    OwnNetwork(r);
    NetworkCovered(r);
    MisalignedMoves(r);
    ip := if r.base != not then r.base else Address(Network(r));
  }

  function Fallback(c: Config, gateway: int): int {
    if c.gateWay == 0 then gateway else 0
  }

  /** With one peer whose only prefix has a base with host bits, the prefix is installed, and covers
      an address that no entry matches and that goes to the fallback. */
  lemma {:induction false} MisalignedFallsBack(c: Config, info: NodeInfo, r: Route) returns (ip: Address)
    requires c.onlyAcc == 0 && info.nodeID != c.self && info.macAddr != NO_MAC
    requires Nets(info.subNet) == [info.subNet] && Prefix(c, info.subNet) == Some(r) && !IsAligned(r)
    ensures var s := Init(c, [info]);
            && r in s.routes && Covers(r, ip) && Scan(c, s.cpes, ip, NO_MAC) == None
            && Dest(c, s, Packet(ip)) == Fallback(c, s.gateway) && !Resolves(c, s, ip)
  {
    var s := Init(c, [info]);
    ip := OtherCovered(r, c.inet(info.virtualIP));
    MisalignedNeverTests(r, ip);
    hide Covers, Matches, IsAligned, Prefix, Nets;
    var node := Node(c, info);
    assert s.cpes == [node];
    assert Nets(node.subnet)[0] == info.subNet;
    assert HasPrefix(c, s.cpes[0], r);
    assert !NetMatches(c, info.subNet, ip);
    assert !NodeMatches(c, s.cpes[0], ip, NO_MAC);
    ScanIsFirst(c, s.cpes, ip, NO_MAC, 1);
  }

  /** Some peer list can install the route: a text that is one valid prefix gives it. */
  ghost predicate Installable(c: Config, r: Route) {
    exists net :: Nets(net) == [net] && Prefix(c, net) == Some(r)
  }

  /** In every run in which the route is installed, every address it covers is resolved. */
  ghost predicate AlwaysResolved(c: Config, r: Route) {
    forall infos, es, ip :: ResolvedIn(c, infos, es, r, ip)
  }

  ghost predicate ResolvedIn(c: Config, infos: seq<NodeInfo>, es: seq<Event>, r: Route, ip: Address) {
    (TunOnly(es) && r in Run(c, Init(c, infos), es).routes && Covers(r, ip))
    ==> Resolves(c, Run(c, Init(c, infos), es), ip)
  }

  /** The addresses a route covers are resolved in all runs exactly when its base has no host bits. */
  lemma {:induction false} ResolvedIffAligned(c: Config, r: Route)
    requires c.onlyAcc == 0 && Installable(c, r)
    ensures AlwaysResolved(c, r) <==> IsAligned(r)
  {
    hide Covers, IsAligned, Resolves, Prefix, Nets;
    if IsAligned(r) {
      forall infos, es, ip ensures ResolvedIn(c, infos, es, r, ip) {
        if TunOnly(es) && r in Run(c, Init(c, infos), es).routes && Covers(r, ip) {
          CoveredResolves(c, infos, es, r, ip);
        }
      }
    } else {
      var net :| Nets(net) == [net] && Prefix(c, net) == Some(r);
      var info := NodeInfo(c.self + 1, [], net, 32, []);
      var ip := MisalignedFallsBack(c, info, r);
      assert Run(c, Init(c, [info]), []) == Init(c, [info]);
      assert !ResolvedIn(c, [info], [], r, ip);
    }
  }

  lemma {:induction false} CStringClean(s: seq<byte>)
    ensures 0 !in Text.CString(s)
  {
    if s != [] && s[0] != 0 {
      CStringClean(s[1..]);
    }
  }

  lemma {:induction false} TokensFromString(s: seq<byte>, delims: seq<byte>)
    ensures forall i :: 0 <= i < |Text.Tokens(s, delims)| ==> forall b :: b in Text.Tokens(s, delims)[i] ==> b in s
    decreases |s|
  {
    if s != [] {
      if s[0] in delims {
        TokensFromString(s[1..], delims);
      } else {
        var n := Text.Span(s, delims);
        TokensFromString(s[n..], delims);
      }
    }
  }

  /** Every route that a run installs is such a route. */
  lemma {:induction false} PrefixInstallable(c: Config, node: CpeNode, r: Route)
    requires HasPrefix(c, node, r)
    ensures Installable(c, r)
  {
    hide Prefix;
    var i :| 0 <= i < |Nets(node.subnet)| && Prefix(c, Nets(node.subnet)[i]) == Some(r);
    var s := Text.CString(node.subnet);
    var net := Nets(node.subnet)[i];
    CStringClean(node.subnet);
    TokensFromString(s, [COMMA]);
    Text.TokensClean(s, [COMMA]);
    Text.CStringFree(net);
    Text.TokensWord(net, [COMMA]);
    assert Nets(net) == [net];
  }

  /** The text of an address and a prefix length is one prefix, that of the address and the length. */
  lemma {:induction false} PrefixOfText(c: Config, host: seq<byte>, n: nat)
    requires host != [] && Text.Free(host, [0, COMMA, SLASH]) && n <= 32
    ensures var net := host + [SLASH] + Text.Decimal(n);
            Nets(net) == [net] && Prefix(c, net) == Some(Route(c.inet(host), PrefixMask(Length(n))))
  {
    var d := Text.Decimal(n);
    var net := host + [SLASH] + d;
    Text.DecimalReads(n);
    Text.DecimalStrtol(n);
    Text.CStringFree(net);
    Text.TokensWord(net, [COMMA]);
    assert Text.Free(host, [SLASH]) && Text.Free(d, [SLASH]);
    Text.TokensWord(host, [SLASH]);
    Text.TokensWord(d, [SLASH]);
    Text.TokensCut(host, SLASH, d, [SLASH]);
    hide PrefixMask;
    assert Text.Tokens(Text.CString(net), [SLASH]) == [host, d];
  }

  /** The text "10.0.0.1". */
  const HOST: seq<byte> := [49, 48, 46, 48, 46, 48, 46, 49]

  lemma HostMisaligned()
    ensures !IsAligned(Route(Address(0x0A00_0001), PrefixMask(Length(24))))
  {
  }

  /** An input for which a covered address goes to the fallback: a peer with subnet 10.0.0.1/24. */
  lemma {:induction false} MisalignedExample(c: Config) returns (ip: Address)
    requires c.onlyAcc == 0 && c.self != 5 && c.inet(HOST) == Address(0x0A00_0001)
    ensures var info := NodeInfo(5, [], HOST + [SLASH] + Text.Decimal(24), 24, []);
            var s := Init(c, [info]);
            && Route(Address(0x0A00_0001), PrefixMask(Length(24))) in s.routes
            && Covers(Route(Address(0x0A00_0001), PrefixMask(Length(24))), ip)
            && Dest(c, s, Packet(ip)) == Fallback(c, s.gateway) && !Resolves(c, s, ip)
  {
    var r := Route(Address(0x0A00_0001), PrefixMask(Length(24)));
    var info := NodeInfo(5, [], HOST + [SLASH] + Text.Decimal(24), 24, []);
    HostMisaligned();
    PrefixOfText(c, HOST, 24);
    hide PrefixMask, Covers, IsAligned, Prefix, Nets, Text.Decimal;
    ip := MisalignedFallsBack(c, info, r);
  }

  // With online notifications, routes of earlier tables can stay behind.

  /** The routes of the peer lists of a run, the newest last, each marked when an online notification
      replaced its table, so that the next mesh notification cannot delete them. */
  function Installs(c: Config, infos: seq<NodeInfo>, es: seq<Event>): (ts: seq<(set<Route>, bool)>)
    ensures ts != []
    decreases |es|
  {
    if es == [] then [(TableRoutes(c, Table(c, infos)), false)]
    else NextInstalls(c, Installs(c, infos, es[..|es| - 1]), es[|es| - 1])
  }

  function NextInstalls(c: Config, ts: seq<(set<Route>, bool)>, e: Event): (r: seq<(set<Route>, bool)>)
    requires ts != []
    ensures r != []
  {
    match e
    case Mesh(bytes) =>
      if Notified(bytes).None? then ts else ts + [(TableRoutes(c, Table(c, Notified(bytes).value)), false)]
    case Online(_, _) => Marked(ts)
    case _ => ts
  }

  ghost predicate RoutesAre(c: Config, s: State, ts: seq<(set<Route>, bool)>) {
    && ts != []
    && (forall r :: r in s.routes <==> Stays(ts, r))
    && TableRoutes(c, s.cpes) == if ts[|ts| - 1].1 then {} else ts[|ts| - 1].0
  }

  lemma NoPrefix(c: Config, node: CpeNode, r: Route)
    requires node.subnet == []
    ensures !HasPrefix(c, node, r)
  {
    assert Nets([]) == [];
  }

  lemma {:induction false} NoOnlineRoutes(c: Config, peers: seq<(int, Address)>)
    ensures TableRoutes(c, OnlineTable(peers)) == {}
  {
    hide HasPrefix;
    forall r ensures !TableHas(c, OnlineTable(peers), r) {
      forall i | 0 <= i < |peers| ensures !HasPrefix(c, OnlineTable(peers)[i], r) {
        NoPrefix(c, OnlineTable(peers)[i], r);
      }
    }
  }

  lemma {:induction false} StepStays(c: Config, s: State, ts: seq<(set<Route>, bool)>, e: Event)
    requires RoutesAre(c, s, ts)
    ensures RoutesAre(c, Step(c, s, e), NextInstalls(c, ts, e))
  {
    hide TableRoutes, TableHas, Stays, OnlineTable, OnlinePeers, Table, Marked;
    match e
    case Mesh(bytes) =>
      if Notified(bytes).Some? {
        var t := TableRoutes(c, Table(c, Notified(bytes).value));
        forall r ensures r in s.routes - TableRoutes(c, s.cpes) + t <==> Stays(ts + [(t, false)], r) {
          ReplacedStays(ts, t, r);
        }
      }
    case Online(bytes, left) =>
      NoOnlineRoutes(c, OnlinePeers(c, bytes, left));
      forall r ensures r in s.routes <==> Stays(Marked(ts), r) {
        MarkedStays(ts, r);
      }
    case _ =>
  }

  /** Over every run, online notifications included, a route is installed exactly when the newest
      table that has it is the current one, or an online notification came before that table's
      routes could be deleted. */
  lemma {:induction false} RouteHistory(c: Config, infos: seq<NodeInfo>, es: seq<Event>)
    ensures RoutesAre(c, Run(c, Init(c, infos), es), Installs(c, infos, es))
    decreases |es|
  {
    if es == [] {
      var ts := Installs(c, infos, []);
      forall r ensures r in Init(c, infos).routes <==> Stays(ts, r) {
        if r in Init(c, infos).routes {
          assert StaysFrom(ts, 0, r);
        }
      }
    } else {
      hide Step, NextInstalls, RoutesAre;
      var front := es[..|es| - 1];
      RouteHistory(c, infos, front);
      StepStays(c, Run(c, Init(c, infos), front), Installs(c, infos, front), es[|es| - 1]);
    }
  }

  /** After an online notification the routes are those of the table only if there are none. */
  lemma {:induction false} OnlineLeavesRoutes(c: Config, s: State, bytes: seq<byte>, left: Codec.Msg)
    ensures var t := Step(c, s, Online(bytes, left));
            t.routes == s.routes && (t.routes == TableRoutes(c, t.cpes) <==> s.routes == {})
  {
    NoOnlineRoutes(c, OnlinePeers(c, bytes, left));
    hide OnlinePeers, TableRoutes, TableHas, OnlineTable;
  }
}
