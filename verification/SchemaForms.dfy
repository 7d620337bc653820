/** What each of the ten message types writes, field by field, in the numbers of the generated code:
    which tag byte stands in front of which field, and which field holds which kind of value. */
module SchemaForms {

  import opened Wire
  import opened Codec
  import opened Schemas
  import opened WireForm

  function Joined(parts: seq<seq<byte>>): seq<byte> {
    if parts == [] then [] else parts[0] + Joined(parts[1..])
  }

  /** The parts of a message are the bytes of its fields, in order. */
  ghost predicate AreParts(d: Desc, m: Msg, parts: seq<seq<byte>>)
    requires Typed(d, m)
  {
    |parts| == |d.fields| && forall i :: 0 <= i < |parts| ==> parts[i] == SerValue(d.fields[i], m.vals[i])
  }

  lemma {:induction false} SerJoined(d: Desc, m: Msg, parts: seq<seq<byte>>, i: nat)
    requires Typed(d, m) && AreParts(d, m, parts) && i <= |parts|
    ensures SerFrom(d, m, i) == Joined(parts[i..])
    decreases |parts| - i
  {
    hide SerValue;
    if i < |parts| {
      SerJoined(d, m, parts, i + 1);
      assert parts[i..][1..] == parts[i + 1..];
    }
  }

  lemma {:induction false} SerParted(d: Desc, m: Msg, parts: seq<seq<byte>>)
    requires Typed(d, m) && AreParts(d, m, parts)
    ensures Ser(d, m) == Joined(parts) + m.unknown
  {
    SerJoined(d, m, parts, 0);
    assert parts[0..] == parts;
  }

  lemma {:induction false} NetInfoBytes(
    id: int, ip: seq<byte>, subnet: seq<byte>, mask: int, mac: seq<byte>, meta: seq<byte>, u: seq<byte>)
    ensures var m := Msg([Num(id), Str(ip), Str(subnet), Num(mask), Str(mac), Str(meta)], u);
            && (Typed(NetInfo(), m) <==>
                  -0x8000_0000 <= id < 0x8000_0000 && -0x8000_0000 <= mask < 0x8000_0000 && Kept(NetInfo(), u))
            && (Typed(NetInfo(), m) ==>
                  Ser(NetInfo(), m) == Joined([
                    NumberBytes(8, id), StringBytes(18, ip), StringBytes(26, subnet), NumberBytes(32, mask),
                    StringBytes(42, mac), StringBytes(50, meta)]) + u)
  {
    var d, m := NetInfo(), Msg([Num(id), Str(ip), Str(subnet), Num(mask), Str(mac), Str(meta)], u);
    hide SerValue, NumberBytes, StringBytes, PartBytes, PartsBytes, OptionBytes, Joined, Ser, Kept;
    if Typed(d, m) {
      assert Fits(d.fields[0].kind, m.vals[0]);
      assert Fits(d.fields[3].kind, m.vals[3]);
      var parts := [NumberBytes(8, id), StringBytes(18, ip), StringBytes(26, subnet), NumberBytes(32, mask),
        StringBytes(42, mac), StringBytes(50, meta)];
      SerNumber(d.fields[0], id);
      SerString(d.fields[1], ip);
      SerString(d.fields[2], subnet);
      SerNumber(d.fields[3], mask);
      SerString(d.fields[4], mac);
      SerString(d.fields[5], meta);
      SerParted(d, m, parts);
    }
  }

  lemma {:induction false} NodeInfoListBytes(list: seq<Msg>, u: seq<byte>)
    ensures var m := Msg([Subs(list)], u);
            && (Typed(NodeInfoList(), m) <==>
                  (forall i :: 0 <= i < |list| ==> Typed(NetInfo(), list[i])) && Kept(NodeInfoList(), u))
            && (Typed(NodeInfoList(), m) ==>
                  Ser(NodeInfoList(), m) == Joined([
                    PartsBytes(10, NetInfo(), list)]) + u)
  {
    var d, m := NodeInfoList(), Msg([Subs(list)], u);
    hide SerValue, NumberBytes, StringBytes, PartBytes, PartsBytes, OptionBytes, Joined, Ser, Kept;
    if Typed(d, m) {
      assert Fits(d.fields[0].kind, m.vals[0]);
      var parts := [PartsBytes(10, NetInfo(), list)];
      SerList(d.fields[0], list);
      SerParted(d, m, parts);
    }
  }

  lemma {:induction false} LoginBytes(
    uid: seq<byte>, token: seq<byte>, netinfo: Option<Msg>, vender: seq<byte>, meta: seq<byte>, u: seq<byte>)
    ensures var m := Msg([Str(uid), Str(token), Sub(netinfo), Str(vender), Str(meta)], u);
            && (Typed(Login(), m) <==>
                  (netinfo.Some? ==> Typed(NetInfo(), netinfo.value)) && Kept(Login(), u))
            && (Typed(Login(), m) ==>
                  Ser(Login(), m) == Joined([
                    StringBytes(10, uid), StringBytes(18, token), OptionBytes(26, NetInfo(), netinfo),
                    StringBytes(34, vender), StringBytes(42, meta)]) + u)
  {
    var d, m := Login(), Msg([Str(uid), Str(token), Sub(netinfo), Str(vender), Str(meta)], u);
    hide SerValue, NumberBytes, StringBytes, PartBytes, PartsBytes, OptionBytes, Joined, Ser, Kept;
    if Typed(d, m) {
      assert Fits(d.fields[2].kind, m.vals[2]);
      var parts := [StringBytes(10, uid), StringBytes(18, token), OptionBytes(26, NetInfo(), netinfo),
        StringBytes(34, vender), StringBytes(42, meta)];
      SerString(d.fields[0], uid);
      SerString(d.fields[1], token);
      SerOption(d.fields[2], netinfo);
      SerString(d.fields[3], vender);
      SerString(d.fields[4], meta);
      SerParted(d, m, parts);
    }
  }

  lemma {:induction false} LoginResBytes(
    uid: seq<byte>, resCode: int, gatewayId: int, publicIp: seq<byte>, meta: seq<byte>, u: seq<byte>)
    ensures var m := Msg([Str(uid), Num(resCode), Num(gatewayId), Str(publicIp), Str(meta)], u);
            && (Typed(LoginRes(), m) <==>
                  -0x8000_0000 <= resCode < 0x8000_0000 && -0x8000_0000 <= gatewayId < 0x8000_0000 &&
                  Kept(LoginRes(), u))
            && (Typed(LoginRes(), m) ==>
                  Ser(LoginRes(), m) == Joined([
                    StringBytes(10, uid), NumberBytes(16, resCode), NumberBytes(24, gatewayId),
                    StringBytes(34, publicIp), StringBytes(42, meta)]) + u)
  {
    var d, m := LoginRes(), Msg([Str(uid), Num(resCode), Num(gatewayId), Str(publicIp), Str(meta)], u);
    hide SerValue, NumberBytes, StringBytes, PartBytes, PartsBytes, OptionBytes, Joined, Ser, Kept;
    if Typed(d, m) {
      assert Fits(d.fields[1].kind, m.vals[1]);
      assert Fits(d.fields[2].kind, m.vals[2]);
      var parts := [StringBytes(10, uid), NumberBytes(16, resCode), NumberBytes(24, gatewayId),
        StringBytes(34, publicIp), StringBytes(42, meta)];
      SerString(d.fields[0], uid);
      SerNumber(d.fields[1], resCode);
      SerNumber(d.fields[2], gatewayId);
      SerString(d.fields[3], publicIp);
      SerString(d.fields[4], meta);
      SerParted(d, m, parts);
    }
  }

  lemma {:induction false} CpeNodeChangeNotifyBytes(uid: seq<byte>, data: seq<byte>, u: seq<byte>)
    ensures var m := Msg([Str(uid), Str(data)], u);
            && (Typed(CpeNodeChangeNotify(), m) <==>
                  Kept(CpeNodeChangeNotify(), u))
            && (Typed(CpeNodeChangeNotify(), m) ==>
                  Ser(CpeNodeChangeNotify(), m) == Joined([
                    StringBytes(10, uid), StringBytes(18, data)]) + u)
  {
    var d, m := CpeNodeChangeNotify(), Msg([Str(uid), Str(data)], u);
    hide SerValue, NumberBytes, StringBytes, PartBytes, PartsBytes, OptionBytes, Joined, Ser, Kept;
    if Typed(d, m) {
      var parts := [StringBytes(10, uid), StringBytes(18, data)];
      SerString(d.fields[0], uid);
      SerString(d.fields[1], data);
      SerParted(d, m, parts);
    }
  }

  lemma {:induction false} CustemorInfoBytes(id: seq<byte>, ip: seq<byte>, vender: seq<byte>, u: seq<byte>)
    ensures var m := Msg([Str(id), Str(ip), Str(vender)], u);
            && (Typed(CustemorInfo(), m) <==>
                  Kept(CustemorInfo(), u))
            && (Typed(CustemorInfo(), m) ==>
                  Ser(CustemorInfo(), m) == Joined([
                    StringBytes(10, id), StringBytes(18, ip), StringBytes(26, vender)]) + u)
  {
    var d, m := CustemorInfo(), Msg([Str(id), Str(ip), Str(vender)], u);
    hide SerValue, NumberBytes, StringBytes, PartBytes, PartsBytes, OptionBytes, Joined, Ser, Kept;
    if Typed(d, m) {
      var parts := [StringBytes(10, id), StringBytes(18, ip), StringBytes(26, vender)];
      SerString(d.fields[0], id);
      SerString(d.fields[1], ip);
      SerString(d.fields[2], vender);
      SerParted(d, m, parts);
    }
  }

  lemma {:induction false} CustemorPEListBytes(
    id: seq<byte>, ip: seq<byte>, port: int, group: int, list: seq<Msg>, u: seq<byte>)
    ensures var m := Msg([Str(id), Str(ip), Num(port), Num(group), Subs(list)], u);
            && (Typed(CustemorPEList(), m) <==>
                  -0x8000_0000 <= port < 0x8000_0000 && -0x8000_0000 <= group < 0x8000_0000 &&
                  (forall i :: 0 <= i < |list| ==> Typed(CustemorInfo(), list[i])) && Kept(CustemorPEList(), u))
            && (Typed(CustemorPEList(), m) ==>
                  Ser(CustemorPEList(), m) == Joined([
                    StringBytes(10, id), StringBytes(18, ip), NumberBytes(24, port), NumberBytes(32, group),
                    PartsBytes(42, CustemorInfo(), list)]) + u)
  {
    var d, m := CustemorPEList(), Msg([Str(id), Str(ip), Num(port), Num(group), Subs(list)], u);
    hide SerValue, NumberBytes, StringBytes, PartBytes, PartsBytes, OptionBytes, Joined, Ser, Kept;
    if Typed(d, m) {
      assert Fits(d.fields[2].kind, m.vals[2]);
      assert Fits(d.fields[3].kind, m.vals[3]);
      assert Fits(d.fields[4].kind, m.vals[4]);
      var parts := [StringBytes(10, id), StringBytes(18, ip), NumberBytes(24, port), NumberBytes(32, group),
        PartsBytes(42, CustemorInfo(), list)];
      SerString(d.fields[0], id);
      SerString(d.fields[1], ip);
      SerNumber(d.fields[2], port);
      SerNumber(d.fields[3], group);
      SerList(d.fields[4], list);
      SerParted(d, m, parts);
    }
  }

  lemma {:induction false} UserListOnEdgeBytes(list: seq<Msg>, u: seq<byte>)
    ensures var m := Msg([Subs(list)], u);
            && (Typed(UserListOnEdge(), m) <==>
                  (forall i :: 0 <= i < |list| ==> Typed(CustemorPEList(), list[i])) && Kept(UserListOnEdge(), u))
            && (Typed(UserListOnEdge(), m) ==>
                  Ser(UserListOnEdge(), m) == Joined([
                    PartsBytes(10, CustemorPEList(), list)]) + u)
  {
    var d, m := UserListOnEdge(), Msg([Subs(list)], u);
    hide SerValue, NumberBytes, StringBytes, PartBytes, PartsBytes, OptionBytes, Joined, Ser, Kept;
    if Typed(d, m) {
      assert Fits(d.fields[0].kind, m.vals[0]);
      var parts := [PartsBytes(10, CustemorPEList(), list)];
      SerList(d.fields[0], list);
      SerParted(d, m, parts);
    }
  }

  lemma {:induction false} KeepAliveBytes(uid: seq<byte>, sequence: int, tick: int, meta: seq<byte>, u: seq<byte>)
    ensures var m := Msg([Str(uid), Num(sequence), Num(tick), Str(meta)], u);
            && (Typed(KeepAlive(), m) <==>
                  0 <= sequence < 0x1_0000_0000_0000_0000 && 0 <= tick < 0x1_0000_0000_0000_0000 &&
                  Kept(KeepAlive(), u))
            && (Typed(KeepAlive(), m) ==>
                  Ser(KeepAlive(), m) == Joined([
                    StringBytes(10, uid), NumberBytes(16, sequence), NumberBytes(24, tick),
                    StringBytes(34, meta)]) + u)
  {
    var d, m := KeepAlive(), Msg([Str(uid), Num(sequence), Num(tick), Str(meta)], u);
    hide SerValue, NumberBytes, StringBytes, PartBytes, PartsBytes, OptionBytes, Joined, Ser, Kept;
    if Typed(d, m) {
      assert Fits(d.fields[1].kind, m.vals[1]);
      assert Fits(d.fields[2].kind, m.vals[2]);
      var parts := [StringBytes(10, uid), NumberBytes(16, sequence), NumberBytes(24, tick), StringBytes(34, meta)];
      SerString(d.fields[0], uid);
      SerNumber(d.fields[1], sequence);
      SerNumber(d.fields[2], tick);
      SerString(d.fields[3], meta);
      SerParted(d, m, parts);
    }
  }

  lemma {:induction false} KeepAliveResBytes(
    uid: seq<byte>, resCode: int, sequence: int, tick: int, meta: seq<byte>, u: seq<byte>)
    ensures var m := Msg([Str(uid), Num(resCode), Num(sequence), Num(tick), Str(meta)], u);
            && (Typed(KeepAliveRes(), m) <==>
                  0 <= resCode < 0x1_0000_0000 && 0 <= sequence < 0x1_0000_0000_0000_0000 &&
                  0 <= tick < 0x1_0000_0000_0000_0000 && Kept(KeepAliveRes(), u))
            && (Typed(KeepAliveRes(), m) ==>
                  Ser(KeepAliveRes(), m) == Joined([
                    StringBytes(10, uid), NumberBytes(16, resCode), NumberBytes(24, sequence),
                    NumberBytes(32, tick), StringBytes(42, meta)]) + u)
  {
    var d, m := KeepAliveRes(), Msg([Str(uid), Num(resCode), Num(sequence), Num(tick), Str(meta)], u);
    hide SerValue, NumberBytes, StringBytes, PartBytes, PartsBytes, OptionBytes, Joined, Ser, Kept;
    if Typed(d, m) {
      assert Fits(d.fields[1].kind, m.vals[1]);
      assert Fits(d.fields[2].kind, m.vals[2]);
      assert Fits(d.fields[3].kind, m.vals[3]);
      var parts := [StringBytes(10, uid), NumberBytes(16, resCode), NumberBytes(24, sequence),
        NumberBytes(32, tick), StringBytes(42, meta)];
      SerString(d.fields[0], uid);
      SerNumber(d.fields[1], resCode);
      SerNumber(d.fields[2], sequence);
      SerNumber(d.fields[3], tick);
      SerString(d.fields[4], meta);
      SerParted(d, m, parts);
    }
  }
}
