/** When the address cache agrees with the scan of the peer table. */
module CacheLaws {

  import opened Wire
  import opened Codec
  import opened CodecLaws
  import opened Routing
  import NotificationLaws
  import Schemas
  import Text

  // The cache agrees with the scan.

  ghost predicate CacheAgrees(c: Config, s: State) {
    forall ip :: ip in s.cache ==> Scan(c, s.cpes, ip, NO_MAC) == Some(s.cache[ip])
  }

  /** While the cache agrees with the table, looking up through it makes no difference. */
  lemma CachedIsUncached(c: Config, s: State, ip: Address)
    requires CacheAgrees(c, s)
    ensures Lookup(c, s, ip, NO_MAC) == Uncached(c, s.cpes, s.gateway, ip, NO_MAC)
  {
  }

  lemma StepAgrees(c: Config, s: State, e: Event)
    requires CacheAgrees(c, s) && !e.Online? && !e.Frame?
    ensures CacheAgrees(c, Step(c, s, e))
  {
    if e.Packet? {
      CachedIsUncached(c, s, e.ip);
      if c.onlyAcc == 0 {
        forall ip | ip in Cached(c, s, e.ip, NO_MAC)
          ensures Scan(c, s.cpes, ip, NO_MAC) == Some(Cached(c, s, e.ip, NO_MAC)[ip])
        {
          assert ip == e.ip || ip in s.cache;
        }
      }
    }
  }

  lemma {:induction false} RunAgrees(c: Config, infos: seq<NodeInfo>, es: seq<Event>)
    requires TunOnly(es)
    ensures CacheAgrees(c, Run(c, Init(c, infos), es))
    decreases |es|
  {
    if es != [] {
      RunAgrees(c, infos, es[..|es| - 1]);
      StepAgrees(c, Run(c, Init(c, infos), es[..|es| - 1]), es[|es| - 1]);
    }
  }

  /** The same server without a cache. */
  function PlainStep(c: Config, s: State, e: Event): State {
    if e.Packet? || e.Frame? then s else Step(c, s, e).(cache := map[])
  }

  function PlainDest(c: Config, s: State, e: Event): int
    requires e.Packet? || e.Frame?
  {
    Dest(c, s.(cache := map[]), e)
  }

  function PlainRun(c: Config, s: State, es: seq<Event>): State
    decreases |es|
  {
    if es == [] then s else PlainStep(c, PlainRun(c, s, es[..|es| - 1]), es[|es| - 1])
  }

  function PlainDests(c: Config, s: State, es: seq<Event>): seq<int>
    decreases |es|
  {
    if es == [] then []
    else
      var before := PlainRun(c, s, es[..|es| - 1]);
      var e := es[|es| - 1];
      PlainDests(c, s, es[..|es| - 1]) + if e.Packet? || e.Frame? then [PlainDest(c, before, e)] else []
  }

  lemma PlainStepSame(c: Config, s: State, e: Event)
    ensures PlainStep(c, s.(cache := map[]), e) == Step(c, s, e).(cache := map[])
  {
  }

  lemma {:induction false} PlainRunSame(c: Config, infos: seq<NodeInfo>, es: seq<Event>)
    ensures PlainRun(c, Init(c, infos), es) == Run(c, Init(c, infos), es).(cache := map[])
    decreases |es|
  {
    if es != [] {
      PlainRunSame(c, infos, es[..|es| - 1]);
      PlainStepSame(c, Run(c, Init(c, infos), es[..|es| - 1]), es[|es| - 1]);
    }
  }

  /** Over every run the cached server sends every packet where the cacheless one does. */
  lemma {:induction false} CacheInvisible(c: Config, infos: seq<NodeInfo>, es: seq<Event>)
    requires TunOnly(es)
    ensures Dests(c, Init(c, infos), es) == PlainDests(c, Init(c, infos), es)
    decreases |es|
  {
    if es != [] {
      var front := es[..|es| - 1];
      CacheInvisible(c, infos, front);
      RunAgrees(c, infos, front);
      PlainRunSame(c, infos, front);
      if es[|es| - 1].Packet? {
        CachedIsUncached(c, Run(c, Init(c, infos), front), es[|es| - 1].ip);
      }
    }
  }

  // Online notifications replace the table and leave the cache.

  /** The tables current since the last mesh notification, the newest last. */
  function Tables(c: Config, infos: seq<NodeInfo>, es: seq<Event>): seq<seq<CpeNode>>
    decreases |es|
  {
    if es == [] then [Table(c, infos)] else NextTables(c, Tables(c, infos, es[..|es| - 1]), es[|es| - 1])
  }

  function NextTables(c: Config, ts: seq<seq<CpeNode>>, e: Event): seq<seq<CpeNode>> {
    match e
    case Mesh(bytes) => if Notified(bytes).None? then ts else [Table(c, Notified(bytes).value)]
    case Online(bytes, left) => ts + [OnlineTable(OnlinePeers(c, bytes, left))]
    case _ => ts
  }

  ghost predicate FoundInSome(c: Config, tables: seq<seq<CpeNode>>, ip: Address, id: int) {
    exists i, mac :: 0 <= i < |tables| && Scan(c, tables[i], ip, mac) == Some(id)
  }

  ghost predicate History(c: Config, s: State, ts: seq<seq<CpeNode>>) {
    && ts != [] && ts[|ts| - 1] == s.cpes
    && forall ip :: ip in s.cache ==> FoundInSome(c, ts, ip, s.cache[ip])
  }

  /** With frames and online notifications too, every cached id was found by the scan of some table current
      since the last mesh notification, so a fallback is never cached. */
  lemma {:induction false} CacheHistory(c: Config, infos: seq<NodeInfo>, es: seq<Event>)
    ensures History(c, Run(c, Init(c, infos), es), Tables(c, infos, es))
    decreases |es|
  {
    if es != [] {
      var front := es[..|es| - 1];
      CacheHistory(c, infos, front);
      StepHistory(c, Run(c, Init(c, infos), front), Tables(c, infos, front), es[|es| - 1]);
    }
  }

  lemma StepHistory(c: Config, s: State, ts: seq<seq<CpeNode>>, e: Event)
    requires History(c, s, ts)
    ensures History(c, Step(c, s, e), NextTables(c, ts, e))
  {
    match e
    case Packet(ip) => if c.onlyAcc == 0 { LookupHistory(c, s, ts, ip, NO_MAC); }
    case Frame(proto, mac, ip) => if c.onlyAcc == 0 { LookupHistory(c, s, ts, ip, mac); }
    case Online(bytes, left) => OnlineHistory(c, s, ts, OnlineTable(OnlinePeers(c, bytes, left)));
    case _ =>
  }

  lemma OnlineHistory(c: Config, s: State, ts: seq<seq<CpeNode>>, t: seq<CpeNode>)
    requires History(c, s, ts)
    ensures History(c, s.(cpes := t), ts + [t])
  {
    forall ip | ip in s.cache ensures FoundInSome(c, ts + [t], ip, s.cache[ip]) {
      var i, mac :| 0 <= i < |ts| && Scan(c, ts[i], ip, mac) == Some(s.cache[ip]);
      assert (ts + [t])[i] == ts[i];
    }
  }

  lemma LookupHistory(c: Config, s: State, ts: seq<seq<CpeNode>>, ip: Address, mac: seq<byte>)
    requires History(c, s, ts) && c.onlyAcc == 0
    ensures History(c, s.(cache := Cached(c, s, ip, mac)), ts)
  {
    var m := Cached(c, s, ip, mac);
    forall a | a in m ensures FoundInSome(c, ts, a, m[a]) {
      if a !in s.cache {
        assert a == ip && Scan(c, ts[|ts| - 1], ip, mac) == Some(m[ip]);
      }
    }
  }

  /** The first online peer with an address. */
  function FirstPeer(peers: seq<(int, Address)>, ip: Address): Option<int> {
    if peers == [] then None
    else if peers[0].1 == ip then Some(peers[0].0)
    else FirstPeer(peers[1..], ip)
  }

  lemma {:induction false} OnlineScan(c: Config, peers: seq<(int, Address)>, ip: Address)
    ensures Scan(c, OnlineTable(peers), ip, NO_MAC) == FirstPeer(peers, ip)
    decreases |peers|
  {
    if peers != [] {
      var t := OnlineTable(peers);
      assert t[1..] == OnlineTable(peers[1..]);
      assert Nets([]) == [];
      OnlineScan(c, peers[1..], ip);
    }
  }

  /** After an online notification the cache agrees exactly when the notification names, for every
      cached address, the cached id first. */
  lemma {:induction false} OnlineAgrees(c: Config, s: State, bytes: seq<byte>, left: Msg)
    ensures CacheAgrees(c, Step(c, s, Online(bytes, left)))
       <==> forall ip :: ip in s.cache ==> FirstPeer(OnlinePeers(c, bytes, left), ip) == Some(s.cache[ip])
  {
    var peers := OnlinePeers(c, bytes, left);
    hide OnlinePeers;
    forall ip ensures Scan(c, OnlineTable(peers), ip, NO_MAC) == FirstPeer(peers, ip) {
      OnlineScan(c, peers, ip);
    }
  }

  lemma {:induction false} RunTwo(c: Config, s: State, e: Event, f: Event)
    ensures Run(c, s, [e, f]) == Step(c, Step(c, s, e), f)
  {
    hide Step;
    RunMore(c, s, [], e);
    RunMore(c, s, [e], f);
    assert [] + [e] == [e] && [e] + [f] == [e, f];
  }

  /** The text "7". */
  const SEVEN: seq<byte> := [55]

  lemma SevenReads()
    ensures Text.Strtol(SEVEN, 10) % TWO32 == 7
  {
    Text.DecimalStrtol(7);
  }

  /** A run after which a cached lookup differs from the scan: a peer's address is looked up, and
      the peer comes back online under another id. */
  lemma {:induction false} OnlineGoesStale(c: Config, name: seq<byte>, left: Msg)
    requires c.onlyAcc == 0 && |name| < 100
    ensures Typed(Schemas.UserListOnEdge(), NotificationLaws.OneNode(SEVEN, name))
    ensures var ip := c.inet(name);
            var bytes := Ser(Schemas.UserListOnEdge(), NotificationLaws.OneNode(SEVEN, name));
            var s := Run(c, Init(c, [NodeInfo(5, name, [], 32, [])]), [Packet(ip), Online(bytes, left)]);
            Lookup(c, s, ip, NO_MAC) == 5 && Uncached(c, s.cpes, s.gateway, ip, NO_MAC) == 7
  {
    SevenReads();
    NotificationLaws.OneNodeNotified(c, SEVEN, name, left);
    var bytes := Ser(Schemas.UserListOnEdge(), NotificationLaws.OneNode(SEVEN, name));
    StaleAfter(c, name, bytes, left);
  }

  lemma {:induction false} StaleAfter(c: Config, name: seq<byte>, bytes: seq<byte>, left: Msg)
    requires c.onlyAcc == 0 && OnlinePeers(c, bytes, left) == [(7, c.inet(name))]
    ensures var ip := c.inet(name);
            var s := Run(c, Init(c, [NodeInfo(5, name, [], 32, [])]), [Packet(ip), Online(bytes, left)]);
            Lookup(c, s, ip, NO_MAC) == 5 && Uncached(c, s.cpes, s.gateway, ip, NO_MAC) == 7
  {
    var ip, infos := c.inet(name), [NodeInfo(5, name, [], 32, [])];
    var s0 := Init(c, infos);
    RunTwo(c, s0, Packet(ip), Online(bytes, left));
    hide Run, TableRoutes, TableHas, Nets, OnlinePeers;
    assert s0.cpes[0].virtualIP == ip;
    OnlineScan(c, [(7, ip)], ip);
  }
}
