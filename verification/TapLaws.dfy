/** When the address cache agrees with the scan in TAP mode, where the scan also looks at the MAC
    address of a frame and the cache does not. */
module TapLaws {

  import opened Wire
  import opened Routing
  import CacheLaws
  import Text

  const MAC_LENGTH: nat := 6

  /** A node matches by its address or one of its prefixes. */
  predicate IpMatches(c: Config, node: CpeNode, ip: Address) {
    ip == node.virtualIP || exists i :: 0 <= i < |Nets(node.subnet)| && NetMatches(c, Nets(node.subnet)[i], ip)
  }

  /** What the scan finds for an address when no MAC address matches. */
  function Unmarked(c: Config, cpes: seq<CpeNode>, ip: Address): Option<int> {
    if cpes == [] then None
    else if IpMatches(c, cpes[0], ip) then Some(cpes[0].nodeID)
    else Unmarked(c, cpes[1..], ip)
  }

  lemma {:induction false} UnmarkedIsFirst(c: Config, cpes: seq<CpeNode>, ip: Address, i: nat)
    requires i <= |cpes| && forall j :: 0 <= j < i ==> !IpMatches(c, cpes[j], ip)
    ensures i == |cpes| ==> Unmarked(c, cpes, ip) == None
    ensures i < |cpes| && IpMatches(c, cpes[i], ip) ==> Unmarked(c, cpes, ip) == Some(cpes[i].nodeID)
    decreases i
  {
    hide IpMatches;
    if i > 0 {
      UnmarkedIsFirst(c, cpes[1..], ip, i - 1);
    }
  }

  /** An entry that a frame can reach by its MAC address: no earlier entry has the same one, and
      neither it nor an earlier one matches the address. */
  predicate ByMac(c: Config, cpes: seq<CpeNode>, ip: Address, j: int) {
    && 0 <= j < |cpes| && |cpes[j].macAddr| == MAC_LENGTH
    && (forall k :: 0 <= k <= j ==> !IpMatches(c, cpes[k], ip))
    && (forall k :: 0 <= k < j ==> cpes[k].macAddr != cpes[j].macAddr)
  }

  /** Those entries all have the same id. */
  predicate MacsConcur(c: Config, cpes: seq<CpeNode>, ip: Address, id: int) {
    forall j :: 0 <= j < |cpes| && ByMac(c, cpes, ip, j) ==> cpes[j].nodeID == id
  }

  ghost predicate HasMac(c: Config, cpes: seq<CpeNode>, ip: Address, mac: seq<byte>) {
    exists j :: ByMac(c, cpes, ip, j) && cpes[j].macAddr == mac
  }

  /** Every MAC address there is belongs to such an entry. */
  ghost predicate AllMacs(c: Config, cpes: seq<CpeNode>, ip: Address) {
    forall mac: seq<byte> :: |mac| == MAC_LENGTH ==> HasMac(c, cpes, ip, mac)
  }

  lemma {:induction false} FirstMatch(c: Config, cpes: seq<CpeNode>, ip: Address, mac: seq<byte>) returns (i: nat)
    ensures i <= |cpes| && (forall j :: 0 <= j < i ==> !NodeMatches(c, cpes[j], ip, mac))
    ensures i < |cpes| ==> NodeMatches(c, cpes[i], ip, mac)
  {
    hide NodeMatches;
    i := 0;
    while i < |cpes| && !NodeMatches(c, cpes[i], ip, mac)
      invariant i <= |cpes| && forall j :: 0 <= j < i ==> !NodeMatches(c, cpes[j], ip, mac)
    {
      i := i + 1;
    }
  }

  lemma MatchesSplit(c: Config, node: CpeNode, ip: Address, mac: seq<byte>)
    ensures NodeMatches(c, node, ip, mac) <==> IpMatches(c, node, ip) || (c.tapMode && mac == node.macAddr)
  {
  }

  /** A frame is decided by the entry with its MAC address, or as if it had none. */
  lemma {:induction false} ScanOfFrame(c: Config, cpes: seq<CpeNode>, ip: Address, mac: seq<byte>)
    requires c.tapMode && |mac| == MAC_LENGTH
    ensures HasMac(c, cpes, ip, mac) ==>
              exists j :: ByMac(c, cpes, ip, j) && cpes[j].macAddr == mac
                       && Scan(c, cpes, ip, mac) == Some(cpes[j].nodeID)
    ensures !HasMac(c, cpes, ip, mac) ==> Scan(c, cpes, ip, mac) == Unmarked(c, cpes, ip)
  {
    if j :| ByMac(c, cpes, ip, j) && cpes[j].macAddr == mac {
      ScanByMac(c, cpes, ip, j);
    } else {
      ScanWithoutMac(c, cpes, ip, mac);
    }
  }

  lemma {:induction false} ScanByMac(c: Config, cpes: seq<CpeNode>, ip: Address, j: nat)
    requires c.tapMode && ByMac(c, cpes, ip, j)
    ensures Scan(c, cpes, ip, cpes[j].macAddr) == Some(cpes[j].nodeID)
  {
    hide NodeMatches, IpMatches;
    forall k | 0 <= k <= j ensures NodeMatches(c, cpes[k], ip, cpes[j].macAddr) <==> k == j {
      MatchesSplit(c, cpes[k], ip, cpes[j].macAddr);
    }
    ScanIsFirst(c, cpes, ip, cpes[j].macAddr, j);
  }

  lemma {:induction false} ScanWithoutMac(c: Config, cpes: seq<CpeNode>, ip: Address, mac: seq<byte>)
    requires c.tapMode && |mac| == MAC_LENGTH && !HasMac(c, cpes, ip, mac)
    ensures Scan(c, cpes, ip, mac) == Unmarked(c, cpes, ip)
  {
    hide NodeMatches, IpMatches;
    var i := FirstMatch(c, cpes, ip, mac);
    forall k | 0 <= k < |cpes|
      ensures NodeMatches(c, cpes[k], ip, mac) <==> IpMatches(c, cpes[k], ip) || mac == cpes[k].macAddr
    {
      MatchesSplit(c, cpes[k], ip, mac);
    }
    assert i < |cpes| ==> IpMatches(c, cpes[i], ip) || ByMac(c, cpes, ip, i);
    ScanIsFirst(c, cpes, ip, mac, i);
    UnmarkedIsFirst(c, cpes, ip, i);
  }

  /** What a frame without a MAC address of the table amounts to, the fallback included. */
  function Outcome(c: Config, cpes: seq<CpeNode>, gateway: int, ip: Address): int {
    match Unmarked(c, cpes, ip)
    case Some(id) => id
    case None => if c.gateWay == 0 then gateway else 0
  }

  /** The table finds one id for an address, whatever the MAC address. */
  ghost predicate Settled(c: Config, cpes: seq<CpeNode>, ip: Address, id: int) {
    MacsConcur(c, cpes, ip, id) && (AllMacs(c, cpes, ip) || Unmarked(c, cpes, ip) == Some(id))
  }

  ghost predicate SettledOutcome(c: Config, cpes: seq<CpeNode>, gateway: int, ip: Address, id: int) {
    MacsConcur(c, cpes, ip, id) && (AllMacs(c, cpes, ip) || Outcome(c, cpes, gateway, ip) == id)
  }

  /** The scan finds the same node for every frame to an address exactly when the entries that frames
      can reach by MAC address agree with the one they reach without. */
  lemma {:induction false} ScanIffSettled(c: Config, cpes: seq<CpeNode>, ip: Address, id: int)
    requires c.tapMode
    ensures (forall mac: seq<byte> :: |mac| == MAC_LENGTH ==> Scan(c, cpes, ip, mac) == Some(id))
       <==> Settled(c, cpes, ip, id)
  {
    hide ByMac, Scan, Unmarked;
    forall mac: seq<byte> | |mac| == MAC_LENGTH
      ensures Settled(c, cpes, ip, id) ==> Scan(c, cpes, ip, mac) == Some(id)
      ensures !HasMac(c, cpes, ip, mac) ==> Scan(c, cpes, ip, mac) == Unmarked(c, cpes, ip)
    {
      ScanOfFrame(c, cpes, ip, mac);
      MacRange(c, cpes, ip);
    }
    forall j | 0 <= j < |cpes| && ByMac(c, cpes, ip, j)
      ensures |cpes[j].macAddr| == MAC_LENGTH && Scan(c, cpes, ip, cpes[j].macAddr) == Some(cpes[j].nodeID)
    {
      ScanByMac(c, cpes, ip, j);
      MacRange(c, cpes, ip);
    }
  }

  lemma MacRange(c: Config, cpes: seq<CpeNode>, ip: Address)
    ensures forall j :: ByMac(c, cpes, ip, j) ==> 0 <= j < |cpes| && |cpes[j].macAddr| == MAC_LENGTH
  {
  }

  /** The same with the fallback. */
  lemma {:induction false} UncachedIffSettled(c: Config, cpes: seq<CpeNode>, gateway: int, ip: Address, id: int)
    requires c.tapMode && c.onlyAcc != 1
    ensures (forall mac: seq<byte> :: |mac| == MAC_LENGTH ==> Uncached(c, cpes, gateway, ip, mac) == id)
       <==> SettledOutcome(c, cpes, gateway, ip, id)
  {
    hide ByMac, Scan, Unmarked;
    forall mac: seq<byte> | |mac| == MAC_LENGTH
      ensures SettledOutcome(c, cpes, gateway, ip, id) ==> Uncached(c, cpes, gateway, ip, mac) == id
      ensures !HasMac(c, cpes, ip, mac) ==> Uncached(c, cpes, gateway, ip, mac) == Outcome(c, cpes, gateway, ip)
    {
      ScanOfFrame(c, cpes, ip, mac);
      MacRange(c, cpes, ip);
    }
    forall j | 0 <= j < |cpes| && ByMac(c, cpes, ip, j)
      ensures |cpes[j].macAddr| == MAC_LENGTH && Uncached(c, cpes, gateway, ip, cpes[j].macAddr) == cpes[j].nodeID
    {
      ScanByMac(c, cpes, ip, j);
      MacRange(c, cpes, ip);
    }
  }

  // A table with fewer entries than there are MAC addresses does not hold all of them.

  function Pow256(n: nat): nat {
    if n == 0 then 1 else 256 * Pow256(n - 1)
  }

  /** What follows the byte b in the texts that begin with it. */
  function Tails(ms: seq<seq<byte>>, b: int): seq<seq<byte>> {
    if ms == [] then []
    else (if ms[0] != [] && ms[0][0] == b then [ms[0][1..]] else []) + Tails(ms[1..], b)
  }

  lemma {:induction false} TailsHave(ms: seq<seq<byte>>, m: seq<byte>)
    requires m in ms && m != []
    ensures m[1..] in Tails(ms, m[0])
  {
    if ms[0] != m {
      TailsHave(ms[1..], m);
    }
  }

  function TailsBelow(ms: seq<seq<byte>>, k: nat): nat {
    if k == 0 then 0 else TailsBelow(ms, k - 1) + |Tails(ms, k - 1)|
  }

  lemma {:induction false} TailsStep(ms: seq<seq<byte>>, k: nat)
    requires ms != []
    ensures TailsBelow(ms, k) <= TailsBelow(ms[1..], k) + if ms[0] != [] && ms[0][0] < k then 1 else 0
    decreases k
  {
    if k > 0 {
      TailsStep(ms, k - 1);
    }
  }

  lemma {:induction false} TailsAreFew(ms: seq<seq<byte>>, k: nat)
    ensures TailsBelow(ms, k) <= |ms|
    decreases |ms|
  {
    if ms == [] {
      NoTails(k);
    } else {
      TailsStep(ms, k);
      TailsAreFew(ms[1..], k);
    }
  }

  lemma {:induction false} NoTails(k: nat)
    ensures TailsBelow([], k) == 0
  {
    if k > 0 {
      NoTails(k - 1);
    }
  }

  lemma {:induction false} RareByte(ms: seq<seq<byte>>, k: nat, p: nat) returns (b: nat)
    requires TailsBelow(ms, k) < k * p
    ensures b < k && |Tails(ms, b)| < p
    decreases k
  {
    if |Tails(ms, k - 1)| < p {
      b := k - 1;
    } else {
      assert k * p == (k - 1) * p + p;
      b := RareByte(ms, k - 1, p);
    }
  }

  /** A text of n bytes that is not among the given ones. */
  lemma {:induction false} FreshText(ms: seq<seq<byte>>, n: nat) returns (m: seq<byte>)
    requires |ms| < Pow256(n)
    ensures |m| == n && m !in ms
    decreases n
  {
    if n == 0 {
      m := [];
    } else {
      TailsAreFew(ms, 256);
      var b := RareByte(ms, 256, Pow256(n - 1));
      var t := FreshText(Tails(ms, b), n - 1);
      m := [b as byte] + t;
      assert m[1..] == t;
      if m in ms {
        TailsHave(ms, m);
      }
    }
  }

  function Macs(cpes: seq<CpeNode>): (ms: seq<seq<byte>>)
    ensures |ms| == |cpes|
  {
    seq(|cpes|, i requires 0 <= i < |cpes| => cpes[i].macAddr)
  }

  lemma {:induction false} NotAllMacs(c: Config, cpes: seq<CpeNode>, ip: Address)
    requires |cpes| < Pow256(MAC_LENGTH)
    ensures !AllMacs(c, cpes, ip)
  {
    hide IpMatches, Pow256;
    var mac := FreshText(Macs(cpes), MAC_LENGTH);
    forall j | 0 <= j < |cpes| ensures cpes[j].macAddr != mac {
      assert Macs(cpes)[j] == cpes[j].macAddr;
    }
    assert !HasMac(c, cpes, ip, mac);
  }

  // The cache.

  /** Every frame to a cached address would find the cached id. */
  ghost predicate FramesAgree(c: Config, s: State) {
    forall ip, mac: seq<byte> :: ip in s.cache && |mac| == MAC_LENGTH ==> Scan(c, s.cpes, ip, mac) == Some(s.cache[ip])
  }

  /** A frame whose lookup is stored in the cache. */
  predicate Stores(c: Config, s: State, e: Event) {
    && e.Frame? && c.onlyAcc == 0 && e.proto == ETH_P_IP && IsUnicast(e.ip) && e.ip !in s.cache
    && var id := Lookup(c, s, e.ip, e.mac); id != 0 && id != s.gateway
  }

  lemma StoredFrame(c: Config, s: State, e: Event)
    requires e.Frame?
    ensures Step(c, s, e)
         == if Stores(c, s, e) then s.(cache := s.cache[e.ip := Lookup(c, s, e.ip, e.mac)]) else s
  {
  }

  /** After a frame the cache agrees with all frames exactly when it did before and, if the frame's
      lookup is stored, the table settles the address on the id that is stored. */
  lemma {:induction false} FrameAgrees(c: Config, s: State, e: Event)
    requires c.tapMode && e.Frame?
    ensures FramesAgree(c, Step(c, s, e))
       <==> FramesAgree(c, s) && (Stores(c, s, e) ==> Settled(c, s.cpes, e.ip, Lookup(c, s, e.ip, e.mac)))
  {
    StoredFrame(c, s, e);
    if Stores(c, s, e) {
      StoreAgrees(c, s, e.ip, Lookup(c, s, e.ip, e.mac));
    }
  }

  lemma {:induction false} StoreAgrees(c: Config, s: State, ip: Address, id: int)
    requires c.tapMode && ip !in s.cache
    ensures FramesAgree(c, s.(cache := s.cache[ip := id])) <==> FramesAgree(c, s) && Settled(c, s.cpes, ip, id)
  {
    hide Scan, Settled;
    ScanIffSettled(c, s.cpes, ip, id);
    var t := s.(cache := s.cache[ip := id]);
    assert t.cache[ip] == id && forall a :: a in s.cache ==> a in t.cache && t.cache[a] == s.cache[a];
  }

  /** A cached lookup equals the uncached one for every frame to an address exactly when the table,
      with the fallback, settles the address on the cached id. */
  lemma {:induction false} LookupIffSettled(c: Config, s: State, ip: Address)
    requires c.tapMode && c.onlyAcc != 1 && ip in s.cache
    ensures (forall mac: seq<byte> :: |mac| == MAC_LENGTH ==>
              Lookup(c, s, ip, mac) == Uncached(c, s.cpes, s.gateway, ip, mac))
       <==> SettledOutcome(c, s.cpes, s.gateway, ip, s.cache[ip])
  {
    hide Scan, SettledOutcome, Uncached;
    UncachedIffSettled(c, s.cpes, s.gateway, ip, s.cache[ip]);
    assert forall mac :: Lookup(c, s, ip, mac) == s.cache[ip];
  }

  /** While all frames agree with the cache, looking up through it makes no difference. */
  lemma {:induction false} FramesUncached(c: Config, s: State, ip: Address, mac: seq<byte>)
    requires FramesAgree(c, s) && |mac| == MAC_LENGTH
    ensures Lookup(c, s, ip, mac) == Uncached(c, s.cpes, s.gateway, ip, mac)
  {
    hide Scan;
  }

  // Over runs.

  /** A run of a TAP device without online notifications. */
  predicate TapOnly(es: seq<Event>) {
    forall i :: 0 <= i < |es| ==> !es[i].Online? && !es[i].Packet?
  }

  /** Every lookup stored since the last mesh notification was settled by the table. */
  ghost predicate StoresSettled(c: Config, infos: seq<NodeInfo>, es: seq<Event>)
    decreases |es|
  {
    es == [] ||
    var front, e := es[..|es| - 1], es[|es| - 1];
    var s := Run(c, Init(c, infos), front);
    match e
    case Mesh(bytes) => Notified(bytes).Some? || StoresSettled(c, infos, front)
    case Frame(_, _, _) =>
      && StoresSettled(c, infos, front)
      && (Stores(c, s, e) ==> Settled(c, s.cpes, e.ip, Lookup(c, s, e.ip, e.mac)))
    case _ => StoresSettled(c, infos, front)
  }

  lemma StepAgrees(c: Config, s: State, e: Event)
    requires c.tapMode && !e.Online? && !e.Packet? && !e.Frame?
    ensures FramesAgree(c, Step(c, s, e)) <==> FramesAgree(c, s) || (e.Mesh? && Notified(e.bytes).Some?)
  {
    hide Scan, TableRoutes, Table;
  }

  /** Over every run of a TAP device, the cache agrees with all frames exactly when every lookup
      stored since the last mesh notification was settled by the table. */
  lemma {:induction false} TapRunAgrees(c: Config, infos: seq<NodeInfo>, es: seq<Event>)
    requires c.tapMode && TapOnly(es)
    ensures FramesAgree(c, Run(c, Init(c, infos), es)) <==> StoresSettled(c, infos, es)
    decreases |es|
  {
    if es != [] {
      hide Step, Scan, Settled, FramesAgree, Stores, Lookup;
      var front, e := es[..|es| - 1], es[|es| - 1];
      TapRunAgrees(c, infos, front);
      var s := Run(c, Init(c, infos), front);
      if e.Frame? {
        FrameAgrees(c, s, e);
      } else {
        StepAgrees(c, s, e);
      }
    }
  }

  /** A run of a TAP device after which a cached lookup differs from the scan: the scan tells two
      nodes apart by their MAC addresses, the cache does not. */
  lemma {:induction false} FrameGoesStale(c: Config, name: seq<byte>, mac: seq<byte>, mac': seq<byte>, ip: Address)
    requires c.onlyAcc == 0 && c.tapMode && mac != mac' && c.inet(name) != ip && IsUnicast(ip)
    ensures var infos := [NodeInfo(5, name, [], 32, mac), NodeInfo(7, name, [], 32, mac')];
            var s := Run(c, Init(c, infos), [Frame(ETH_P_IP, mac, ip)]);
            Lookup(c, s, ip, mac') == 5 && Uncached(c, s.cpes, s.gateway, ip, mac') == 7
  {
    var infos := [NodeInfo(5, name, [], 32, mac), NodeInfo(7, name, [], 32, mac')];
    var s := Init(c, infos);
    RunMore(c, s, [], Frame(ETH_P_IP, mac, ip));
    assert [] + [Frame(ETH_P_IP, mac, ip)] == [Frame(ETH_P_IP, mac, ip)];
    hide Run, TableRoutes, TableHas, IsUnicast;
    assert Nets([]) == [];
    assert NodeMatches(c, s.cpes[0], ip, mac) && !NodeMatches(c, s.cpes[0], ip, mac');
    assert NodeMatches(c, s.cpes[1..][0], ip, mac') && s.cpes[1..][0].nodeID == 7;
    assert Scan(c, s.cpes, ip, mac') == Scan(c, s.cpes[1..], ip, mac') == Some(7);
    assert Run(c, s, [Frame(ETH_P_IP, mac, ip)]).cpes == s.cpes;
  }
}
