/** Merging, and the message object with its public operations. */
module MessageObject {

  import opened Wire
  import opened Codec
  import opened CodecLaws
  import opened Messages
  import MessageParser
  import PartialParse

  // Merging visits the fields in the order of the size pass.

  ghost predicate MergedUpTo(d: Desc, vals: seq<Held>, x: Msg, y: Msg, k: nat)
    requires Good(d) && Typed(d, x) && Typed(d, y) && k <= |d.sizeOrder|
  {
    && |vals| == |d.fields|
    && (forall j :: 0 <= j < |d.sizeOrder| ==>
          var i := d.sizeOrder[j];
          PlainHeld(vals[i]) == if j < k then MergeValue(d.fields[i].kind, x.vals[i], y.vals[i]) else x.vals[i])
  }

  lemma {:induction false} MergedOneMore(d: Desc, vals: seq<Held>, x: Msg, y: Msg, k: nat, h: Held)
    requires Good(d) && Typed(d, x) && Typed(d, y) && k < |d.sizeOrder| && MergedUpTo(d, vals, x, y, k)
    requires var i := d.sizeOrder[k]; PlainHeld(h) == MergeValue(d.fields[i].kind, x.vals[i], y.vals[i])
    ensures MergedUpTo(d, vals[d.sizeOrder[k] := h], x, y, k + 1)
  {
    hide MergeValue, PlainHeld, Typed;
  }

  lemma {:induction false} MergedAll(d: Desc, l: Live, x: Msg, y: Msg)
    requires Good(d) && Typed(d, x) && Typed(d, y) && MergedUpTo(d, l.vals, x, y, |d.sizeOrder|)
    requires l.unknown == x.unknown + y.unknown
    ensures Plain(l) == Merge(d, x, y)
  {
    hide MergeValue, PlainHeld, Typed;
    forall i | 0 <= i < |d.fields| ensures Plain(l).vals[i] == Merge(d, x, y).vals[i] {
      assert i in d.sizeOrder;
    }
    assert Plain(l).vals == Merge(d, x, y).vals;
  }

  method MergeFields(d: Desc, l: Live, from: Live) returns (r: Live)
    requires Sound(d, l) && Sound(d, from)
    ensures Plain(r) == Merge(d, Plain(l), Plain(from)) && Sound(d, r)
    decreases d, 1
  {
    var vals := l.vals;
    var k := 0;
    ghost var x, y := Plain(l), Plain(from);
    while k < |d.sizeOrder|
      invariant 0 <= k <= |d.sizeOrder| && MergedUpTo(d, vals, x, y, k)
    {
      var i := d.sizeOrder[k];
      var h := MergeHeld(d.fields[i].kind, vals[i], from.vals[i]);
      MergedOneMore(d, vals, x, y, k, h);
      vals := vals[i := h];
      k := k + 1;
    }
    r := Live(vals, l.unknown + from.unknown, l.cachedSize);
    MergedAll(d, r, x, y);
    MergeTyped(d, x, y);
  }

  method MergeHeld(k: Kind, x: Held, y: Held) returns (r: Held)
    requires GoodKind(k) && Fits(k, PlainHeld(x)) && Fits(k, PlainHeld(y))
    ensures PlainHeld(r) == MergeValue(k, PlainHeld(x), PlainHeld(y))
    decreases k
  {
    match y
    case NumH(n) => r := if n != 0 then y else x;
    case StrH(b) => r := if b != [] then y else x;
    case SubH(None) => r := x;
    case SubH(Some(m)) =>
      EmptyTyped(k.desc);
      var sub := MergeFields(k.desc, if x.m.Some? then x.m.value else Fresh(k.desc), m);
      r := SubH(Some(sub));
    case SubsH(ms) => r := MergeList(k, x, ms);
  }

  /** Each element is merged into a new message at the end of the list. */
  method MergeList(k: Kind, x: Held, ms: seq<Live>) returns (r: Held)
    requires k.Many? && Good(k.desc) && Fits(k, PlainHeld(x)) && Fits(k, PlainHeld(SubsH(ms)))
    ensures PlainHeld(r) == MergeValue(k, PlainHeld(x), PlainHeld(SubsH(ms)))
    decreases k, 0
  {
    var all := x.ms;
    ghost var was, plain := PlainAll(x.ms), PlainAll(ms);
    var j := 0;
    while j < |ms|
      invariant 0 <= j <= |ms|
      invariant PlainAll(all) == was + plain[..j]
    {
      MergeIntoEmpty(k.desc, plain[j]);
      var copy := MergeFields(k.desc, Fresh(k.desc), ms[j]);
      PlainMore(all, copy);
      assert plain[..j + 1] == plain[..j] + [plain[j]];
      all := all + [copy];
      j := j + 1;
    }
    assert plain[..|ms|] == plain;
    r := SubsH(all);
  }

  lemma {:induction false} PlainMore(ms: seq<Live>, l: Live)
    ensures PlainAll(ms + [l]) == PlainAll(ms) + [Plain(l)]
  {
  }

  /** A message of a given type. */
  class Message {
    const desc: Desc
    var live: Live

    ghost predicate Valid()
      reads this
    {
      Sound(desc, live)
    }

    ghost function Value(): Msg
      reads this
    {
      Plain(live)
    }

    constructor (d: Desc)
      requires Good(d)
      ensures Valid() && desc == d && Value() == Empty(d)
    {
      desc, live := d, Fresh(d);
      EmptyTyped(d);
    }

    method Clear()
      requires Valid()
      modifies this
      ensures Valid() && Value() == Empty(desc)
    {
      live := Fresh(desc);
      EmptyTyped(desc);
    }

    method MergeFrom(from: Message)
      requires Valid() && from.Valid() && from != this && from.desc == desc
      modifies this
      ensures Valid() && Value() == Merge(desc, old(Value()), from.Value())
    {
      live := MergeFields(desc, live, from.live);
    }

    method CopyFrom(from: Message)
      requires Valid() && from.Valid() && from.desc == desc
      modifies this
      ensures Valid() && Value() == old(from.Value())
    {
      if from == this {
        return;
      }
      Clear();
      MergeFrom(from);
      MergeIntoEmpty(desc, from.Value());
    }

    /** The fields are those parsed; malformed input leaves what stood in front of the fault. */
    method ParseFromString(data: seq<byte>) returns (ok: bool)
      requires Valid()
      modifies this
      ensures Valid()
      ensures ok == Parse(desc, Empty(desc), data).Some?
      ensures ok ==> Value() == Parse(desc, Empty(desc), data).value
      ensures PartialParse.Leaves(desc, Empty(desc), data, Value())
    {
      Clear();
      ok, live := MessageParser.InternalParse(desc, live, data);
    }

    method ByteSizeLong() returns (total: nat)
      requires Valid()
      modifies this
      ensures Valid() && Value() == old(Value())
      ensures total == Size(desc, Value()) && Cached(desc, live)
    {
      total, live := Messages.ByteSizeLong(desc, live);
    }

    /** The sizes are cached first; only the caches change. */
    method SerializeToString() returns (s: seq<byte>)
      requires Valid() && Size(desc, Value()) <= MAX_SIZE
      modifies this
      ensures Valid() && Value() == old(Value())
      ensures s == Ser(desc, Value())
    {
      var total := ByteSizeLong();
      SizeIsLength(desc, Value());
      s := InternalSerialize(desc, live, []);
    }
  }
}
