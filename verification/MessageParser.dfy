/** The parse loops: fields are assigned as the input pointer advances. */
module MessageParser {

  import opened Wire
  import opened Codec
  import opened CodecLaws
  import opened Messages
  import opened PartialParse

  /** One or more turns of the loop, from the message m in front of the input s: r in front of rest
      if all went well, and else r as parsing leaves it. */
  ghost predicate Turns(d: Desc, m: Msg, s: seq<byte>, ok: bool, r: Msg, rest: seq<byte>) {
    && |m.vals| == |d.fields| == |r.vals|
    && if ok then Stuck(d, r, rest) == Stuck(d, m, s) else Stuck(d, m, s).1 != [] && Leaves(d, m, s, r)
  }

  lemma {:induction false} MoreTurns(
    d: Desc, m: Msg, s: seq<byte>, r: Msg, t: seq<byte>, ok: bool, r': Msg, rest: seq<byte>)
    requires Turns(d, m, s, true, r, t) && Turns(d, r, t, ok, r', rest)
    ensures Turns(d, m, s, ok, r', rest)
  {
    hide Stuck, LeavesField;
  }

  lemma Drops(s: seq<byte>, a: nat, b: nat)
    requires a + b <= |s|
    ensures s[a..][b..] == s[a + b..]
  {
  }

  /** A field that can be read is stored, and the loop goes on behind it. */
  lemma {:induction false} FieldTurn(d: Desc, m: Msg, tag: nat, s: seq<byte>, n: nat)
    requires |m.vals| == |d.fields| && s != [] && ReadTag(s) == Some((tag, n))
    ensures var b := FieldBody(d, m, tag, s[n..]);
            match b
            case None => Stuck(d, m, s) == (m, s)
            case Some((m', k)) => Turns(d, m, s, true, m', s[n + k..])
  {
    hide FieldBody, ReadTag;
    var b := FieldBody(d, m, tag, s[n..]);
    if b.Some? {
      Drops(s, n, b.value.1);
    }
  }

  lemma {:induction false} BodyTyped(d: Desc, m: Msg, tag: nat, s: seq<byte>)
    requires Typed(d, m) && tag < TWO32
    ensures FieldBody(d, m, tag, s).Some? ==> Typed(d, FieldBody(d, m, tag, s).value.0)
  {
    var c := Case(d, tag);
    if c.Some? {
      ValueTyped(d.fields[c.value].kind, m.vals[c.value], s);
    } else if tag / 8 > 0 {
      var p := ReadPayload(tag % 8, s);
      if p.Some? {
        KeptMore(d, m.unknown, Rec(tag / 8, p.value.0));
      }
    }
  }

  method InternalParse(d: Desc, l: Live, data: seq<byte>) returns (ok: bool, r: Live)
    requires Sound(d, l)
    ensures ok == Parse(d, Plain(l), data).Some?
    ensures ok ==> Plain(r) == Parse(d, Plain(l), data).value
    ensures Sound(d, r) && Leaves(d, Plain(l), data, Plain(r))
    decreases |data|, 6
  {
    hide Plain, LeavesField;
    ok, r := true, l;
    var ptr := 0;
    assert data[0..] == data;
    SoundFields(d, l);
    while ok && ptr < |data|
      invariant ptr <= |data|
      invariant Sound(d, r)
      invariant Turns(d, Plain(l), data, ok, Plain(r), data[ptr..])
      decreases ok, |data| - ptr
    {
      ghost var m, s := Plain(r), data[ptr..];
      ok, r, ptr := ParseTurn(d, r, data, ptr);
      MoreTurns(d, Plain(l), data, m, s, ok, Plain(r), data[ptr..]);
    }
    ParseIffNothingLeft(d, Plain(l), data);
  }

  lemma {:induction false} SoundFields(d: Desc, l: Live)
    requires Sound(d, l)
    ensures |l.vals| == |Plain(l).vals| == |d.fields|
  {
  }

  /** One turn of the loop: a tag and what is behind it. */
  method ParseTurn(d: Desc, l: Live, data: seq<byte>, start: nat) returns (ok: bool, r: Live, ptr: nat)
    requires Sound(d, l) && start < |data|
    ensures ptr <= |data| && Sound(d, r) && (ok ==> start < ptr)
    ensures Turns(d, Plain(l), data[start..], ok, Plain(r), data[ptr..])
    decreases |data|, 5
  {
    hide Plain, ReadTag;
    SoundFields(d, l);
    var t := ReadTag(data[start..]);
    if t.None? {
      NoTag(d, Plain(l), data[start..]);
      return false, l, start;
    }
    var (tag, n) := t.value;
    ok, r, ptr := ParseBehindTag(d, l, tag, data, start, n);
  }

  lemma {:induction false} NoTag(d: Desc, m: Msg, s: seq<byte>)
    requires |m.vals| == |d.fields| && s != [] && ReadTag(s).None?
    ensures Turns(d, m, s, false, m, s)
  {
    assert AllBut(m, m, 0);
  }

  /** The switch on the tag of n bytes at start. */
  method ParseBehindTag(d: Desc, l: Live, tag: nat, data: seq<byte>, start: nat, n: nat)
    returns (ok: bool, r: Live, ptr: nat)
    requires Sound(d, l) && start < |data| && ReadTag(data[start..]) == Some((tag, n))
    ensures ptr <= |data| && Sound(d, r) && (ok ==> start < ptr)
    ensures Turns(d, Plain(l), data[start..], ok, Plain(r), data[ptr..])
    decreases |data|, 4
  {
    var c := Case(d, tag);
    if c.Some? && d.fields[c.value].kind.Many? {
      ok, r, ptr := ParseRepeated(d, l, c.value, tag, data, start, n);
    } else if c.Some? {
      ok, r, ptr := ParseSingle(d, l, c.value, tag, data, start, n);
    } else {
      ok, r, ptr := ParseUnknown(d, l, tag, data, start, n);
    }
  }

  /** What storing a value in the field that a tag selects does. */
  lemma {:induction false} CaseStored(d: Desc, m: Msg, i: nat, tag: nat, s: seq<byte>, n: nat)
    requires Typed(d, m) && s != [] && ReadTag(s) == Some((tag, n)) && Case(d, tag) == Some(i)
    ensures var p := ParseValue(d.fields[i].kind, m.vals[i], s[n..]);
            match p
            case None => Stuck(d, m, s) == (m, s)
            case Some((v, k)) => Typed(d, Put(m, i, v)) && Turns(d, m, s, true, Put(m, i, v), s[n + k..])
  {
    hide Stuck, ReadTag;
    FieldTurn(d, m, tag, s, n);
    BodyTyped(d, m, tag, s[n..]);
  }

  lemma {:induction false} CaseFailed(d: Desc, m: Msg, i: nat, tag: nat, s: seq<byte>, n: nat, v: Value)
    requires Typed(d, m) && s != [] && ReadTag(s) == Some((tag, n)) && Case(d, tag) == Some(i)
    requires Stuck(d, m, s) == (m, s) && LeavesValue(d.fields[i].kind, m.vals[i], s[n..], v)
    ensures Typed(d, Put(m, i, v)) && Turns(d, m, s, false, Put(m, i, v), s)
  {
    hide Stuck, ReadTag, Kept;
    var r := Put(m, i, v);
    assert AllBut(m, r, i);
    assert LeavesField(d, m, s, r);
    assert Leaves(d, m, s, r);
  }

  /** One value of the field the tag selected, stored as far as it could be read. */
  method ParseSingle(d: Desc, l: Live, i: nat, tag: nat, data: seq<byte>, start: nat, n: nat)
    returns (ok: bool, r: Live, ptr: nat)
    requires Sound(d, l) && start < |data| && ReadTag(data[start..]) == Some((tag, n))
    requires Case(d, tag) == Some(i)
    ensures ptr <= |data| && Sound(d, r) && (ok ==> start < ptr)
    ensures Turns(d, Plain(l), data[start..], ok, Plain(r), data[ptr..])
    decreases |data|, 2
  {
    SoundField(d, l, i);
    hide *;
    Drops(data, start, n);
    var h, k;
    ok, h, k := ParseOne(d.fields[i].kind, l.vals[i], data[start + n..]);
    Stored(d, l, i, tag, data[start..], n, ok, h, k);
    r, ptr := Store(l, i, h), if ok then start + n + k else start;
    if ok {
      Drops(data, start, n + k);
    }
  }

  /** The message with the value that was read, or with what reading left. */
  lemma {:induction false} Stored(d: Desc, l: Live, i: nat, tag: nat, s: seq<byte>, n: nat, ok: bool, h: Held, k: nat)
    requires Sound(d, l) && |l.vals| == |d.fields| && s != [] && ReadTag(s) == Some((tag, n)) && Case(d, tag) == Some(i)
    requires ok == ParseValue(d.fields[i].kind, PlainHeld(l.vals[i]), s[n..]).Some?
    requires if ok
             then k <= |s| - n && ParseValue(d.fields[i].kind, PlainHeld(l.vals[i]), s[n..]) == Some((PlainHeld(h), k))
             else LeavesValue(d.fields[i].kind, PlainHeld(l.vals[i]), s[n..], PlainHeld(h))
    ensures Sound(d, Store(l, i, h))
    ensures Turns(d, Plain(l), s, ok, Plain(Store(l, i, h)), if ok then s[n + k..] else s)
  {
    SoundField(d, l, i);
    hide *;
    CaseStored(d, Plain(l), i, tag, s, n);
    if !ok {
      CaseFailed(d, Plain(l), i, tag, s, n, PlainHeld(h));
    }
    SoundStore(d, l, i, h);
  }

  lemma {:induction false} SoundField(d: Desc, l: Live, i: nat)
    requires Sound(d, l) && i < |d.fields|
    ensures Typed(d, Plain(l)) && |l.vals| == |d.fields|
    ensures GoodKind(d.fields[i].kind) && Fits(d.fields[i].kind, PlainHeld(l.vals[i]))
  {
  }

  lemma {:induction false} SoundStore(d: Desc, l: Live, i: nat, h: Held)
    requires Sound(d, l) && i < |l.vals| && Typed(d, Put(Plain(l), i, PlainHeld(h)))
    ensures Sound(d, Store(l, i, h))
  {
  }

  method ParseOne(k: Kind, h: Held, s: seq<byte>) returns (ok: bool, r: Held, n: nat)
    requires Fits(k, PlainHeld(h)) && GoodKind(k)
    ensures ok == ParseValue(k, PlainHeld(h), s).Some?
    ensures if ok then 0 < n <= |s| && ParseValue(k, PlainHeld(h), s) == Some((PlainHeld(r), n))
            else LeavesValue(k, PlainHeld(h), s, PlainHeld(r))
    decreases |s|, 1
  {
    if k.Many? {
      ok, r, n := ParseAdded(k, h, s);
    } else {
      ok, r, n := ParseHeld(k, h, s);
    }
  }

  /** The value of a field that is not a list. A sub-message is made before its length is read. */
  method ParseHeld(k: Kind, h: Held, s: seq<byte>) returns (ok: bool, r: Held, n: nat)
    requires !k.Many? && Fits(k, PlainHeld(h)) && GoodKind(k)
    ensures ok == ParseValue(k, PlainHeld(h), s).Some?
    ensures if ok then 0 < n <= |s| && ParseValue(k, PlainHeld(h), s) == Some((PlainHeld(r), n))
            else LeavesValue(k, PlainHeld(h), s, PlainHeld(r))
    decreases |s|, 0
  {
    hide Leaves;
    ok, r, n := false, h, 0;
    if k.One? {
      EmptyTyped(k.desc);
      var sub := if h.m.Some? then h.m.value else Fresh(k.desc);
      r := SubH(Some(sub));
      var b := ReadBytes(s);
      if b.Some? {
        var m;
        ok, m := InternalParse(k.desc, sub, b.value.0);
        r, n := SubH(Some(m)), b.value.1;
      }
    } else if k.Bytes? {
      var b := ReadBytes(s);
      if b.Some? {
        ok, r, n := true, StrH(b.value.0), b.value.1;
      }
    } else {
      var v := ReadVarint64(s);
      if v.Some? {
        ok, n := true, v.value.1;
        r := NumH(if k.Int32? then Signed32(v.value.0) else if k.UInt32? then v.value.0 % TWO32 else v.value.0);
      }
    }
  }

  lemma {:induction false} UnknownFailed(d: Desc, m: Msg, tag: nat, s: seq<byte>, n: nat)
    requires |m.vals| == |d.fields| && s != [] && ReadTag(s) == Some((tag, n)) && Case(d, tag).None?
    requires Stuck(d, m, s) == (m, s)
    ensures Turns(d, m, s, false, m, s)
  {
    hide Stuck, ReadTag;
    assert LeavesField(d, m, s, m);
    assert Leaves(d, m, s, m);
  }

  method ParseUnknown(d: Desc, l: Live, tag: nat, data: seq<byte>, start: nat, n: nat)
    returns (ok: bool, r: Live, ptr: nat)
    requires Sound(d, l) && start < |data| && ReadTag(data[start..]) == Some((tag, n)) && Case(d, tag).None?
    ensures ptr <= |data| && Sound(d, r) && (ok ==> start < ptr)
    ensures Turns(d, Plain(l), data[start..], ok, Plain(r), data[ptr..])
  {
    hide Turns, Stuck, ReadTag, ReadPayload, RecBytes, Kept;
    ghost var m, s := Plain(l), data[start..];
    Drops(data, start, n);
    FieldTurn(d, m, tag, s, n);
    BodyTyped(d, m, tag, s[n..]);
    ok, r, ptr := false, l, start;
    if tag == 0 || tag % 8 == 4 || tag / 8 == 0 {
      UnknownFailed(d, m, tag, s, n);
      return;
    }
    var p := ReadPayload(tag % 8, data[start + n..]);
    if p.None? {
      UnknownFailed(d, m, tag, s, n);
      return;
    }
    var (payload, k) := p.value;
    ok, ptr := true, start + n + k;
    r := l.(unknown := l.unknown + RecBytes(Rec(tag / 8, payload)));
    Drops(data, start, n + k);
    assert Plain(r).vals == Plain(l).vals;
  }

  /** One more message at the end of a list, added before its length is read. */
  method ParseAdded(k: Kind, h: Held, s: seq<byte>) returns (ok: bool, r: Held, n: nat)
    requires k.Many? && Fits(k, PlainHeld(h)) && GoodKind(k)
    ensures ok == ParseValue(k, PlainHeld(h), s).Some?
    ensures if ok then 0 < n <= |s| && ParseValue(k, PlainHeld(h), s) == Some((PlainHeld(r), n))
            else LeavesValue(k, PlainHeld(h), s, PlainHeld(r))
    decreases |s|, 0
  {
    hide Leaves;
    EmptyTyped(k.desc);
    var m := Fresh(k.desc);
    ok, n := false, 0;
    var b := ReadBytes(s);
    if b.Some? {
      ok, m := InternalParse(k.desc, m, b.value.0);
      n := b.value.1;
    }
    r := SubsH(h.ms + [m]);
    assert PlainAll(h.ms + [m]) == PlainAll(h.ms) + [Plain(m)];
  }

  /** A byte below 128 that equals the tag is that tag. */
  lemma OneByteTag(tag: nat, s: seq<byte>)
    requires s != [] && s[0] == tag < 128
    ensures ReadTag(s) == Some((tag, 1))
  {
  }

  lemma {:induction false} SmallTag(d: Desc, l: Live, tag: nat, i: nat)
    requires Sound(d, l) && Case(d, tag) == Some(i)
    ensures tag < 128
  {
  }

  /** A repeated field: while the next byte is the field's tag, its elements are read in a row. */
  method ParseRepeated(d: Desc, l: Live, i: nat, tag: nat, data: seq<byte>, start: nat, n: nat)
    returns (ok: bool, r: Live, ptr: nat)
    requires Sound(d, l) && start < |data| && ReadTag(data[start..]) == Some((tag, n))
    requires Case(d, tag) == Some(i) && d.fields[i].kind.Many?
    ensures ptr <= |data| && Sound(d, r) && (ok ==> start < ptr)
    ensures Turns(d, Plain(l), data[start..], ok, Plain(r), data[ptr..])
    decreases |data|, 3
  {
    SmallTag(d, l, tag, i);
    hide Plain, Turns, ReadTag, Sound;
    ok, r, ptr := ParseSingle(d, l, i, tag, data, start, n);
    while ok && ptr < |data| && data[ptr] == tag
      invariant ptr <= |data| && Sound(d, r) && (ok ==> start < ptr)
      invariant Turns(d, Plain(l), data[start..], ok, Plain(r), data[ptr..])
      decreases ok, |data| - ptr
    {
      ghost var m, s := Plain(r), data[ptr..];
      OneByteTag(tag, s);
      ok, r, ptr := ParseSingle(d, r, i, tag, data, ptr, 1);
      MoreTurns(d, Plain(l), data[start..], m, s, ok, Plain(r), data[ptr..]);
    }
  }
}
