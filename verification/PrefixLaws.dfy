/** Subnet lists in literal characters, and the routes they install. */
module PrefixLaws {

  import opened Wire
  import opened Masks
  import opened Routing
  import RouteLaws
  import Text
  import TextForms

  /** The list is cut at commas (44). */
  lemma {:induction false} NetsOfTwo(a: seq<byte>, b: seq<byte>)
    requires a != [] && b != [] && 44 !in a && 44 !in b && 0 !in a && 0 !in b
    ensures Nets(a + [44] + b) == [a, b] && Nets(a) == [a]
  {
    TextForms.CommaCuts(a, b);
    Text.CStringFree(a);
    Text.TokensWord(a, [44]);
  }

  /** A part is an address, a slash (47) and a prefix length, which is read as a 32-bit number and must
      be at most 32. */
  lemma {:induction false} PrefixForm(c: Config, host: seq<byte>, n: nat)
    requires host != [] && 0 !in host && 47 !in host
    ensures Prefix(c, host + [47] + Text.Decimal(n))
         == if n % 0x1_0000_0000 <= 32
            then Some(Route(c.inet(host), PrefixMask(Length(n % 0x1_0000_0000)))) else None
  {
    var d := Text.Decimal(n);
    var net := host + [47] + d;
    Text.DecimalReads(n);
    Text.DecimalStrtol(n);
    Text.CStringFree(net);
    Text.TokensWord(host, [47]);
    Text.TokensWord(d, [47]);
    Text.TokensCut(host, 47, d, [47]);
    hide PrefixMask, Text.Decimal, Text.Strtol, Text.Tokens;
    assert Text.Tokens(Text.CString(net), [47]) == [host, d];
  }

  /** A part without a slash, or with two of them between words, is no prefix. */
  lemma {:induction false} NoPrefixForm(c: Config, a: seq<byte>, b: seq<byte>, d: seq<byte>)
    requires a != [] && b != [] && d != [] && 0 !in a + b + d && 47 !in a + b + d
    ensures Prefix(c, a) == None && Prefix(c, a + [47] + (b + [47] + d)) == None
  {
    var net := a + [47] + (b + [47] + d);
    assert forall x :: x in a || x in b || x in d ==> x in a + b + d;
    Text.CStringFree(a);
    Text.CStringFree(net);
    Text.TokensWord(a, [47]);
    Text.TokensWord(b, [47]);
    Text.TokensWord(d, [47]);
    Text.TokensCut(b, 47, d, [47]);
    Text.TokensCut(a, 47, b + [47] + d, [47]);
    hide Text.Tokens, Text.Strtol, PrefixMask;
    assert |Text.Tokens(Text.CString(net), [47])| == 3;
  }

  /** In every run without online notifications, a route is installed exactly when the subnet list of
      some peer record other than the server's own has it as a valid prefix. */
  lemma {:induction false} InstalledAre(c: Config, infos: seq<NodeInfo>, es: seq<Event>, r: Route)
    requires NoOnline(es)
    ensures var s := Run(c, Init(c, infos), es);
            r in s.routes <==> exists i, j :: FromRecord(c, s.infos, i, j, r)
  {
    RouteLaws.RunRoutes(c, infos, es);
    var s := Run(c, Init(c, infos), es);
    hide Run, Init, Prefix, Nets;
    assert forall i :: 0 <= i < |s.cpes| ==>
      s.cpes[i].nodeID == s.infos[i].nodeID && s.cpes[i].subnet == s.infos[i].subNet;
    if r in s.routes {
      var i :| 0 <= i < |s.cpes| && s.cpes[i].nodeID != c.self && HasPrefix(c, s.cpes[i], r);
      var j :| 0 <= j < |Nets(s.cpes[i].subnet)| && Prefix(c, Nets(s.cpes[i].subnet)[j]) == Some(r);
      assert FromRecord(c, s.infos, i, j, r);
    }
    if i, j :| FromRecord(c, s.infos, i, j, r) {
      assert HasPrefix(c, s.cpes[i], r);
    }
  }

  /** The j-th part of the subnet list of record i, which is another node's, is the prefix r. */
  ghost predicate FromRecord(c: Config, infos: seq<NodeInfo>, i: int, j: int, r: Route) {
    && 0 <= i < |infos| && infos[i].nodeID != c.self
    && 0 <= j < |Nets(infos[i].subNet)| && Prefix(c, Nets(infos[i].subNet)[j]) == Some(r)
  }
}
