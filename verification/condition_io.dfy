/** The streams and the condition objects that write to them and read from them. */
module ConditionIO {
  import opened Basics
  import opened ConditionStream

  /** PropStream: a cursor over bytes that are not its own. */
  class PropStream {
    const data: seq<Byte>
    var p: nat

    constructor (data: seq<Byte>)
      ensures Valid() && Rest() == data
    {
      this.data, p := data, 0;
      new;
      assert data[0..] == data;
    }

    ghost predicate Valid()
      reads this
    {
      p <= |data|
    }

    /** What is still to be read. */
    ghost function Rest(): seq<Byte>
      requires Valid()
      reads this
    {
      data[p..]
    }

    /** PropStream::getType for a type of `n` bytes; a read that does not fit moves nothing. */
    method GetType(n: nat) returns (ok: bool, bs: seq<Byte>)
      requires Valid()
      modifies this`p
      ensures Valid() && p >= old(p) && ok == (n <= |old(Rest())|)
      ensures ok ==> bs == old(Rest())[..n] && |bs| == n && Rest() == old(Rest())[n..]
      ensures !ok ==> Rest() == old(Rest())
    {
      if |data| - p < n {
        return false, [];
      }
      bs := data[p..p + n];
      p := p + n;
      return true, bs;
    }

    method GetByte() returns (ok: bool, b: Byte)
      requires Valid()
      modifies this`p
      ensures Valid() && p >= old(p) && ok == (old(Rest()) != [])
      ensures ok ==> b == old(Rest())[0] && Rest() == old(Rest())[1..]
      ensures !ok ==> Rest() == old(Rest())
    {
      var bs;
      ok, bs := GetType(1);
      b := if ok then bs[0] else 0;
    }

    method GetLong() returns (ok: bool, w: Word)
      requires Valid()
      modifies this`p
      ensures Valid() && p >= old(p) && ok == (4 <= |old(Rest())|)
      ensures ok ==> w == FromLong(old(Rest())[..4]) && Rest() == old(Rest())[4..]
      ensures !ok ==> Rest() == old(Rest())
    {
      var bs;
      ok, bs := GetType(4);
      w := if ok then FromLong(bs) else 0;
    }

    /** An attribute that must come next, and its word. */
    method ExpectLong(attr: Byte) returns (ok: bool, w: Word)
      requires Valid()
      modifies this`p
      ensures Valid() && p >= old(p) && ok == Expect(attr, old(Rest())).Some?
      ensures ok ==> Expect(attr, old(Rest())) == Some((w, Rest()))
    {
      var b;
      w := 0;
      ok, b := GetByte();
      if !ok || b != attr {
        return false, w;
      }
      ok, w := GetLong();
      if ok {
        assert old(Rest())[1..][..4] == old(Rest())[1..5] && old(Rest())[1..][4..] == old(Rest())[5..];
      }
    }
  }

  /** PropWriteStream: a buffer that doubles when it is full. */
  class PropWriteStream {
    var buffer: array<Byte>
    var bufferSize: nat
    var size: nat

    ghost predicate Valid()
      reads this
    {
      buffer.Length == bufferSize > 0 && size <= bufferSize
    }

    ghost function Contents(): seq<Byte>
      requires Valid()
      reads this, buffer
    {
      buffer[..size]
    }

    constructor ()
      ensures Valid() && fresh(buffer) && Contents() == []
    {
      bufferSize, size := 32, 0;
      buffer := new Byte[32](i => 0);
    }

    /** PropWriteStream::reserve: there is room for `length` more bytes, and nothing written is lost. */
    method Reserve(length: nat)
      requires Valid()
      modifies this
      ensures Valid() && (buffer == old(buffer) || fresh(buffer)) && size == old(size)
      ensures bufferSize - size >= length && Contents() == old(Contents())
    {
      if bufferSize - size >= length {
        return;
      }
      var newSize := bufferSize * 2;
      while newSize - size < length
        invariant newSize >= bufferSize > 0
        decreases length + size - newSize
      {
        newSize := newSize * 2;
      }
      var previous := buffer;
      var newBuffer := new Byte[newSize](i requires 0 <= i < newSize reads this, previous => if i < previous.Length then previous[i] else 0);
      buffer, bufferSize := newBuffer, newSize;
    }

    /** PropWriteStream::addType, given the bytes of the value. */
    method AddType(bs: seq<Byte>)
      requires Valid()
      modifies this, buffer
      ensures Valid() && (buffer == old(buffer) || fresh(buffer))
      ensures Contents() == old(Contents()) + bs
    {
      Reserve(|bs|);
      forall i | 0 <= i < |bs| {
        buffer[size + i] := bs[i];
      }
      size := size + |bs|;
    }

    method AddByte(b: Byte)
      requires Valid()
      modifies this, buffer
      ensures Valid() && (buffer == old(buffer) || fresh(buffer))
      ensures Contents() == old(Contents()) + [b]
    {
      AddType([b]);
    }

    method AddAttr(attr: Byte, w: Word)
      requires Valid()
      modifies this, buffer
      ensures Valid() && (buffer == old(buffer) || fresh(buffer))
      ensures Contents() == old(Contents()) + Attr(attr, w)
    {
      AddByte(attr);
      AddType(Long(w));
    }
  }

  class Condition {
    var conditionType: Word
    var id: Int8
    var ticks: Int32
    var buff: bool
    var subId: Word
    var more: More

    ghost function Saved(): Value
      reads this
    {
      Value(conditionType, id, ticks, buff, subId, more)
    }

    constructor (v: Value)
      ensures Saved() == v
    {
      conditionType, id, ticks, buff, subId, more := v.conditionType, v.id, v.ticks, v.buff, v.subId, v.more;
    }

    /** Condition::serialize of the class. */
    method Serialize(w: PropWriteStream)
      requires w.Valid()
      modifies w, w.buffer
      ensures w.Valid() && (w.buffer == old(w.buffer) || fresh(w.buffer))
      ensures w.Contents() == old(w.Contents()) + Encode(Saved())
    {
      hide Header, Body;
      ghost var start := w.Contents();
      SerializeHeader(w);
      SerializeMore(w);
      assert start + Header(Saved()) + Body(more) == start + (Header(Saved()) + Body(more));
    }

    method SerializeMore(w: PropWriteStream)
      requires w.Valid()
      modifies w, w.buffer
      ensures w.Valid() && (w.buffer == old(w.buffer) || fresh(w.buffer))
      ensures w.Contents() == old(w.Contents()) + Body(more)
    {
      hide Attr, Numbers, OutfitList;
      match more {
        case Generic =>
        case Regeneration(_, _, _, _) => SerializeRegeneration(w);
        case Soul(_, _) => SerializeSoul(w);
        case Attributes(_, _, _, _) => SerializeAttributes(w);
        case Outfits(outfits) => SerializeOutfits(w, outfits);
        case Speed(_, _, _, _, _, _) => SerializeSpeed(w);
      }
    }

    method SerializeRegeneration(w: PropWriteStream)
      requires w.Valid() && more.Regeneration?
      modifies w, w.buffer
      ensures w.Valid() && (w.buffer == old(w.buffer) || fresh(w.buffer))
      ensures w.Contents() == old(w.Contents()) + Body(more)
    {
      hide Attr;
      w.AddAttr(HEALTHTICKS, more.healthTicks);
      w.AddAttr(HEALTHGAIN, more.healthGain);
      w.AddAttr(MANATICKS, more.manaTicks);
      w.AddAttr(MANAGAIN, more.manaGain);
      Written4(old(w.Contents()), Attr(HEALTHTICKS, more.healthTicks), Attr(HEALTHGAIN, more.healthGain),
               Attr(MANATICKS, more.manaTicks), Attr(MANAGAIN, more.manaGain));
    }

    method SerializeSoul(w: PropWriteStream)
      requires w.Valid() && more.Soul?
      modifies w, w.buffer
      ensures w.Valid() && (w.buffer == old(w.buffer) || fresh(w.buffer))
      ensures w.Contents() == old(w.Contents()) + Body(more)
    {
      hide Attr;
      w.AddAttr(SOULGAIN, more.soulGain);
      w.AddAttr(SOULTICKS, more.soulTicks);
    }

    method SerializeAttributes(w: PropWriteStream)
      requires w.Valid() && more.Attributes?
      modifies w, w.buffer
      ensures w.Valid() && (w.buffer == old(w.buffer) || fresh(w.buffer))
      ensures w.Contents() == old(w.Contents()) + Body(more)
    {
      hide Numbers;
      SerializeNumbers(w, SKILLS, more.skills);
      SerializeNumbers(w, STATS, more.stats);
    }

    method SerializeSpeed(w: PropWriteStream)
      requires w.Valid() && more.Speed?
      modifies w, w.buffer
      ensures w.Valid() && (w.buffer == old(w.buffer) || fresh(w.buffer))
      ensures w.Contents() == old(w.Contents()) + Body(more)
    {
      hide Attr, OutfitList;
      SerializeOutfits(w, more.outfits);
      w.AddAttr(SPEEDDELTA, Unsigned(more.speedDelta));
      w.AddAttr(FORMULA_MINA, more.mina);
      w.AddAttr(FORMULA_MINB, more.minb);
      w.AddAttr(FORMULA_MAXA, more.maxa);
      w.AddAttr(FORMULA_MAXB, more.maxb);
      Written6(old(w.Contents()), OutfitList(more.outfits), Attr(SPEEDDELTA, Unsigned(more.speedDelta)), Attr(FORMULA_MINA, more.mina),
               Attr(FORMULA_MINB, more.minb), Attr(FORMULA_MAXA, more.maxa), Attr(FORMULA_MAXB, more.maxb));
    }

    method SerializeHeader(w: PropWriteStream)
      requires w.Valid()
      modifies w, w.buffer
      ensures w.Valid() && (w.buffer == old(w.buffer) || fresh(w.buffer))
      ensures w.Contents() == old(w.Contents()) + Header(Saved())
    {
      hide Attr;
      w.AddAttr(TYPE, conditionType);
      w.AddAttr(ID, Unsigned(id));
      w.AddAttr(TICKS, Unsigned(ticks));
      w.AddByte(BUFF);
      w.AddByte(if buff then 1 else 0);
      w.AddAttr(SUBID, subId);
      Written6(old(w.Contents()), Attr(TYPE, conditionType), Attr(ID, Unsigned(id)), Attr(TICKS, Unsigned(ticks)),
               [BUFF], [if buff then 1 else 0], Attr(SUBID, subId));
      HeaderOf(Saved());
    }

    method SerializeNumbers(w: PropWriteStream, attr: Byte, list: seq<Int32>)
      requires w.Valid()
      modifies w, w.buffer
      ensures w.Valid() && (w.buffer == old(w.buffer) || fresh(w.buffer))
      ensures w.Contents() == old(w.Contents()) + Numbers(attr, list)
    {
      hide Attr;
      for i := 0 to |list|
        invariant w.Valid() && (w.buffer == old(w.buffer) || fresh(w.buffer))
        invariant w.Contents() + Numbers(attr, list[i..]) == old(w.Contents()) + Numbers(attr, list)
      {
        assert list[i..][1..] == list[i + 1..];
        w.AddAttr(attr, Unsigned(list[i]));
      }
    }

    method SerializeOutfits(w: PropWriteStream, outfits: seq<Outfit>)
      requires w.Valid()
      modifies w, w.buffer
      ensures w.Valid() && (w.buffer == old(w.buffer) || fresh(w.buffer))
      ensures w.Contents() == old(w.Contents()) + OutfitList(outfits)
    {
      hide OutfitBytes;
      for i := 0 to |outfits|
        invariant w.Valid() && (w.buffer == old(w.buffer) || fresh(w.buffer))
        invariant w.Contents() + OutfitList(outfits[i..]) == old(w.Contents()) + OutfitList(outfits)
      {
        assert outfits[i..][1..] == outfits[i + 1..];
        ghost var before := w.Contents();
        w.AddByte(OUTFIT);
        w.AddType(OutfitBytes(outfits[i]));
        Written3(before, [OUTFIT], OutfitBytes(outfits[i]), OutfitList(outfits[i + 1..]));
      }
    }

    /** unserializeProp of the class. */
    method UnserializeProp(attr: Byte, s: PropStream) returns (ok: bool)
      requires s.Valid()
      modifies this, s`p
      ensures s.Valid() && Read(ok, Saved(), s.Rest()) == Prop(attr, old(Saved()), old(s.Rest()))
    {
      hide FromLong;
      if TakesOutfit(more, attr) {
        var bs;
        ok, bs := s.GetType(10);
        if ok {
          more := more.(outfits := more.outfits + [FromOutfit(bs)]);
        }
        return;
      }
      if attr == BUFF {
        var value;
        ok, value := s.GetByte();
        if ok {
          buff := value != 0;
        }
        return;
      }
      if TakesWord(more, attr) {
        var value;
        ok, value := s.GetLong();
        if ok {
          SetField(attr, value);
        }
        return;
      }
      return attr == END;
    }

    method SetField(attr: Byte, value: Word)
      requires TakesWord(more, attr)
      modifies this
      ensures Saved() == SetWord(old(Saved()), attr, value)
    {
      match attr {
        case 1 => conditionType := value;
        case 2 => id := Narrow(value);
        case 3 => ticks := Signed(value);
        case 27 => subId := value;
        case _ => more := SetMore(more, attr, value);
      }
    }

    /** Condition::unserialize */
    method Unserialize(s: PropStream) returns (ok: bool)
      requires s.Valid()
      modifies this, s`p
      ensures s.Valid() && Read(ok, Saved(), s.Rest()) == Props(old(Saved()), old(s.Rest()))
    {
      hide Prop;
      var more, attr := s.GetByte();
      while more && attr != END
        invariant s.Valid()
        invariant more ==> Props(Saved(), [attr] + s.Rest()) == Props(old(Saved()), old(s.Rest()))
        invariant !more ==> s.Rest() == [] && Props(Saved(), []) == Props(old(Saved()), old(s.Rest()))
        decreases |s.Rest()|, more
      {
        assert ([attr] + s.Rest())[1..] == s.Rest();
        PropShrinks(attr, Saved(), s.Rest());
        ok := UnserializeProp(attr, s);
        if !ok {
          return false;
        }
        ghost var rest := s.Rest();
        more, attr := s.GetByte();
        if more { assert [attr] + s.Rest() == rest; }
      }
      if more { assert ([attr] + s.Rest())[1..] == s.Rest(); }
      return true;
    }

    /** Condition::createCondition on a stream. */
    static method CreateCondition(s: PropStream) returns (c: Condition?)
      requires s.Valid()
      modifies s`p
      ensures s.Valid() && s.p >= old(s.p) && (c != null ==> fresh(c))
      ensures Create(old(s.Rest())) == if c == null then None else Some((c.Saved(), s.Rest()))
    {
      hide Expect, Blank;
      var ok, t, i, k, b, sub;
      ok, t := s.ExpectLong(TYPE);
      if !ok { return null; }
      ok, i := s.ExpectLong(ID);
      if !ok { return null; }
      ok, k := s.ExpectLong(TICKS);
      if !ok { return null; }
      ghost var rest := s.Rest();
      ok, b := s.GetByte();
      if !ok || b != BUFF { return null; }
      ok, b := s.GetByte();
      if !ok { return null; }
      assert rest[1..][1..] == rest[2..];
      ok, sub := s.ExpectLong(SUBID);
      if !ok { return null; }
      var blank := Blank(t);
      if blank == None { return null; }
      c := new Condition(Value(t, Narrow(i), Signed(k), b != 0, sub, blank.value));
    }
  }

  lemma Written3(start: seq<Byte>, a: seq<Byte>, b: seq<Byte>, c: seq<Byte>)
    ensures start + a + b + c == start + (a + b + c)
  {
  }

  lemma Written4(start: seq<Byte>, a: seq<Byte>, b: seq<Byte>, c: seq<Byte>, d: seq<Byte>)
    ensures start + a + b + c + d == start + (a + b + c + d)
  {
  }

  lemma Written6(start: seq<Byte>, a: seq<Byte>, b: seq<Byte>, c: seq<Byte>, d: seq<Byte>, e: seq<Byte>, f: seq<Byte>)
    ensures start + a + b + c + d + e + f == start + (a + b + c + d + e + f)
  {
  }

  lemma HeaderOf(v: Value)
    ensures Header(v) == Attr(TYPE, v.conditionType) + Attr(ID, Unsigned(v.id)) + Attr(TICKS, Unsigned(v.ticks))
                         + [BUFF] + [if v.buff then 1 else 0] + Attr(SUBID, v.subId)
  {
    hide Attr;
    var a := Attr(TYPE, v.conditionType) + Attr(ID, Unsigned(v.id)) + Attr(TICKS, Unsigned(v.ticks));
    assert a + [BUFF, if v.buff then 1 else 0] == a + [BUFF] + [if v.buff then 1 else 0];
  }

  // ---------------------------------------------------------------- a player's conditions

  const CONDITION_MUTED := 0x10000
  const CONDITION_GAMEMASTER := 0x400000

  /** The conditions that are saved: persistent ones, and two types whatever they are. */
  predicate IsSaved(v: Value) {
    (v.ticks > 0 && v.id != CONDITIONID_COMBAT) || v.conditionType in {CONDITION_GAMEMASTER, CONDITION_MUTED}
  }

  /** Conditions of an equipment slot, of an outfit or without an id are saved while they last; those of
      combat, those that last forever and those whose time is over only if they mute or mark a gamemaster. */
  lemma SavedIff(v: Value)
    ensures v.conditionType in {65536, 4194304} ==> IsSaved(v)
    ensures v.conditionType !in {65536, 4194304} && (v.ticks <= 0 || v.id == 0) ==> !IsSaved(v)
    ensures v.ticks >= 1 && v.id != 0 ==> IsSaved(v)
  {
  }

  ghost function Values(list: seq<Condition>): seq<Value>
    reads list
  {
    if list == [] then [] else Values(list[..|list| - 1]) + [list[|list| - 1].Saved()]
  }

  ghost function Chosen(vs: seq<Value>): seq<Value> {
    if vs == [] then []
    else
      var v := vs[|vs| - 1];
      Chosen(vs[..|vs| - 1]) + (if IsSaved(v) then [v] else [])
  }

  /** The loop that saves a player's conditions. */
  method SaveConditions(list: seq<Condition>, w: PropWriteStream)
    requires w.Valid()
    modifies w, w.buffer
    ensures w.Valid() && (w.buffer == old(w.buffer) || fresh(w.buffer))
    ensures w.Contents() == old(w.Contents()) + EncodeAll(Chosen(Values(list)))
  {
    hide Encode, Chosen, Values;
    ghost var start, vs := w.Contents(), Values(list);
    ValuesAt(list);
    assert Chosen([]) == [] by { ChosenNone(); }
    assert vs[..0] == [];
    for i := 0 to |list|
      invariant w.Valid() && (w.buffer == old(w.buffer) || fresh(w.buffer))
      invariant forall j :: 0 <= j < |list| ==> vs[j] == list[j].Saved()
      invariant w.Contents() == start + EncodeAll(Chosen(vs[..i]))
    {
      ChosenStep(vs, i);
      SaveOne(list[i], w, start, Chosen(vs[..i]));
    }
    assert vs[..|list|] == vs;
  }

  method SaveOne(c: Condition, w: PropWriteStream, ghost start: seq<Byte>, ghost before: seq<Value>)
    requires w.Valid() && w.Contents() == start + EncodeAll(before)
    modifies w, w.buffer
    ensures w.Valid() && (w.buffer == old(w.buffer) || fresh(w.buffer))
    ensures w.Contents() == start + EncodeAll(if IsSaved(c.Saved()) then before + [c.Saved()] else before)
  {
    hide Encode;
    if (c.ticks > 0 && c.id != CONDITIONID_COMBAT) || c.conditionType == CONDITION_GAMEMASTER || c.conditionType == CONDITION_MUTED {
      EncodeAllSnoc(before, c.Saved());
      Written3(start, EncodeAll(before), Encode(c.Saved()), [END]);
      Written3([], EncodeAll(before), Encode(c.Saved()), [END]);
      c.Serialize(w);
      w.AddByte(END);
      assert EncodeAll(before) + Encode(c.Saved()) + [END] == EncodeAll(before) + (Encode(c.Saved()) + [END]);
    }
  }

  lemma ChosenNone()
    ensures Chosen([]) == []
  {
  }

  lemma ChosenStep(vs: seq<Value>, i: nat)
    requires i < |vs|
    ensures Chosen(vs[..i + 1]) == if IsSaved(vs[i]) then Chosen(vs[..i]) + [vs[i]] else Chosen(vs[..i])
  {
    assert vs[..i + 1][..i] == vs[..i];
  }

  lemma NoValues()
    ensures Values([]) == []
  {
  }

  lemma ValuesSnoc(list: seq<Condition>, c: Condition)
    ensures Values(list + [c]) == Values(list) + [c.Saved()]
  {
    assert (list + [c])[..|list|] == list;
  }

  lemma {:induction false} ValuesAt(list: seq<Condition>)
    ensures |Values(list)| == |list| && forall i :: 0 <= i < |list| ==> Values(list)[i] == list[i].Saved()
  {
    if list != [] {
      ValuesAt(list[..|list| - 1]);
    }
  }

  /** What loading gives from here, when `c` was just created. */
  ghost function Remaining(c: Condition?, bs: seq<Byte>): seq<Value>
    reads if c == null then {} else {c}
  {
    if c == null then []
    else
      var r := Props(c.Saved(), bs);
      (if r.ok then [r.value] else []) + ParseAll(r.rest)
  }

  lemma RemainingStep(c: Condition, bs: seq<Byte>)
    ensures var r := Props(c.Saved(), bs);
            |r.rest| <= |bs| && Remaining(c, bs) == (if r.ok then [r.value] else []) + ParseAll(r.rest)
  {
  }

  lemma NoneRemaining(bs: seq<Byte>)
    ensures Remaining(null, bs) == []
  {
  }

  /** The next condition, and what it means for what loading gives. */
  method Next(s: PropStream) returns (c: Condition?)
    requires s.Valid()
    modifies s`p
    ensures s.Valid() && (c != null ==> fresh(c) && |s.Rest()| < |old(s.Rest())|) && |s.Rest()| <= |old(s.Rest())|
    ensures Remaining(c, s.Rest()) == ParseAll(old(s.Rest()))
  {
    hide Props;
    ghost var rest := s.Rest();
    c := Condition.CreateCondition(s);
    if c != null { assert Create(rest).value.1 == s.Rest(); }
  }

  /** The loop that loads them. */
  method LoadConditions(s: PropStream) returns (list: seq<Condition>)
    requires s.Valid()
    modifies s`p
    ensures s.Valid() && Values(list) == ParseAll(old(s.Rest()))
  {
    hide Create, Props, Values, ParseAll, Remaining;
    list := [];
    NoValues();
    var c := Next(s);
    while c != null
      invariant s.Valid() && fresh(list) && c !in list && (c != null ==> fresh(c))
      invariant Values(list) + Remaining(c, s.Rest()) == ParseAll(old(s.Rest()))
      decreases |s.Rest()|, c != null
    {
      RemainingStep(c, s.Rest());
      var ok := c.Unserialize(s);
      if ok {
        ValuesSnoc(list, c);
        list := list + [c];
      }
      c := Next(s);
    }
    NoneRemaining(s.Rest());
  }

  lemma {:induction false} ChosenIn(vs: seq<Value>)
    ensures forall v :: v in Chosen(vs) ==> v in vs && IsSaved(v)
  {
    if vs != [] {
      ChosenIn(vs[..|vs| - 1]);
    }
  }

  lemma AllProper(list: seq<Condition>)
    requires forall c :: c in list && IsSaved(c.Saved()) ==> Proper(c.Saved())
    ensures forall v :: v in Chosen(Values(list)) ==> Proper(v)
  {
    hide Values, Chosen, Proper, IsSaved;
    ValuesAt(list);
    ChosenIn(Values(list));
    forall v | v in Chosen(Values(list))
      ensures Proper(v)
    {
      var i :| 0 <= i < |list| && Values(list)[i] == v;
      assert list[i] in list;
    }
  }

  /** Saving a player and loading it again gives the conditions that are saved, field by field and in
      their order. */
  method SaveAndLoad(list: seq<Condition>) returns (loaded: seq<Condition>)
    requires forall c :: c in list && IsSaved(c.Saved()) ==> Proper(c.Saved())
    ensures Values(loaded) == LoadedAll(Chosen(Values(list)))
  {
    hide Values, Chosen, Proper, EncodeAll, ParseAll, IsSaved;
    ghost var vs := Values(list);
    AllProper(list);
    RoundTripAll(Chosen(vs));
    var w := new PropWriteStream();
    SaveConditions(list, w);
    assert [] + EncodeAll(Chosen(vs)) == EncodeAll(Chosen(vs));
    var s := new PropStream(w.buffer[..w.size]);
    loaded := LoadConditions(s);
    ValuesAt(list);
  }
}
