/** Conditions written to a property stream and read back. */
module ConditionStream {
  import opened Basics

  type Word = n: nat | n < UINT32
  type Int32 = n: int | -0x8000_0000 <= n < 0x8000_0000
  type Int8 = n: int | -0x80 <= n < 0x80

  // ConditionAttr_t
  const TYPE: Byte := 1
  const ID: Byte := 2
  const TICKS: Byte := 3
  const HEALTHTICKS: Byte := 4
  const HEALTHGAIN: Byte := 5
  const MANATICKS: Byte := 6
  const MANAGAIN: Byte := 7
  const SPEEDDELTA: Byte := 11
  const FORMULA_MINA: Byte := 12
  const FORMULA_MINB: Byte := 13
  const FORMULA_MAXA: Byte := 14
  const FORMULA_MAXB: Byte := 15
  const SOULTICKS: Byte := 20
  const SOULGAIN: Byte := 21
  const SKILLS: Byte := 22
  const STATS: Byte := 23
  const OUTFIT: Byte := 24
  const BUFF: Byte := 26
  const SUBID: Byte := 27
  const END: Byte := 254

  const SKILL_COUNT := 7
  const STAT_COUNT := 5

  /** Outfit_t as it lies in memory: 9 bytes of fields and one of padding. */
  datatype Outfit = Outfit(lookType: (Byte, Byte), lookTypeEx: (Byte, Byte),
                           lookHead: Byte, lookBody: Byte, lookLegs: Byte, lookFeet: Byte, lookAddons: Byte, padding: Byte)

  /** The part of a condition that depends on its class; formula values are the words of floats. */
  datatype More =
    | Generic
    | Regeneration(healthTicks: Word, healthGain: Word, manaTicks: Word, manaGain: Word)
    | Soul(soulTicks: Word, soulGain: Word)
    | Attributes(skills: seq<Int32>, stats: seq<Int32>, currentSkill: nat, currentStat: nat)
    | Outfits(outfits: seq<Outfit>)
    | Speed(outfits: seq<Outfit>, speedDelta: Int32, mina: Word, minb: Word, maxa: Word, maxb: Word)

  datatype Value = Value(conditionType: Word, id: Int8, ticks: Int32, buff: bool, subId: Word, more: More)

  /** Condition::createCondition: the class that goes with a type, with its initial values.  Damage
      and light are not modelled. */
  function Blank(conditionType: Word): Option<More> {
    match conditionType
    case 0x10 => Some(Speed([], 0, 0, 0, 0, 0))
    case 0x20 => Some(Speed([], 0, 0, 0, 0, 0))
    case 0x40 => Some(Outfits([]))
    case 0x2000 => Some(Regeneration(1000, 0, 1000, 0))
    case 0x4000 => Some(Soul(0, 0))
    case 0x20000 => Some(Attributes(Zeros(SKILL_COUNT), Zeros(STAT_COUNT), 0, 0))
    case 0x200 => Some(Generic)
    case _ =>
      if conditionType in {0x80, 0x800000, 0x400, 0x10000, 0x1000, 0x800, 0x200000, 0x400000, 0x1000000, 0x2000000} then Some(Generic)
      else None
  }

  function Zeros(n: nat): seq<Int32> {
    seq(n, i => 0)
  }

  /** A condition whose type goes with its class. */
  predicate Proper(v: Value) {
    match v.more
    case Generic => Blank(v.conditionType) == Some(Generic)
    case Regeneration(_, _, _, _) => v.conditionType == 0x2000
    case Soul(_, _) => v.conditionType == 0x4000
    case Attributes(skills, stats, _, _) => v.conditionType == 0x20000 && |skills| == SKILL_COUNT && |stats| == STAT_COUNT
    case Outfits(_) => v.conditionType == 0x40
    case Speed(_, _, _, _, _, _) => v.conditionType in {0x10, 0x20}
  }

  // ---------------------------------------------------------------- words

  function Long(w: Word): (bs: seq<Byte>)
    ensures |bs| == 4
  {
    [w % 0x100, w / 0x100 % 0x100, w / 0x1_0000 % 0x100, w / 0x100_0000]
  }

  function FromLong(bs: seq<Byte>): Word
    requires |bs| == 4
  {
    var (a: nat, b: nat, c: nat, d: nat) := (bs[0], bs[1], bs[2], bs[3]);
    a + 0x100 * b + 0x1_0000 * c + 0x100_0000 * d
  }

  lemma LongRoundTrip(w: Word)
    ensures FromLong(Long(w)) == w
  {
    BytesOf(w);
  }

  lemma BytesOf(w: nat)
    ensures w % 0x100 + 0x100 * (w / 0x100 % 0x100) + 0x1_0000 * (w / 0x1_0000 % 0x100) + 0x100_0000 * (w / 0x100_0000) == w
  {
    var a, b := w / 0x100, w / 0x1_0000;
    assert w == 0x100 * a + w % 0x100;
    assert b == a / 0x100 && a == 0x100 * b + a % 0x100;
    assert w / 0x100_0000 == b / 0x100 && b == 0x100 * (b / 0x100) + b % 0x100;
  }

  /** A signed number as the word that has its bits, and back. */
  function Unsigned(n: Int32): Word { if n < 0 then n + UINT32 else n }
  function Signed(w: Word): Int32 { if w < 0x8000_0000 then w else w - UINT32 }

  /** static_cast to the eight bits of ConditionId_t. */
  function Narrow(w: Word): Int8 { if w % 0x100 < 0x80 then w % 0x100 else w % 0x100 - 0x100 }

  function OutfitBytes(o: Outfit): (bs: seq<Byte>)
    ensures |bs| == 10
  {
    [o.lookType.0, o.lookType.1, o.lookTypeEx.0, o.lookTypeEx.1, o.lookHead, o.lookBody, o.lookLegs, o.lookFeet, o.lookAddons, o.padding]
  }

  function FromOutfit(bs: seq<Byte>): Outfit
    requires |bs| == 10
  {
    Outfit((bs[0], bs[1]), (bs[2], bs[3]), bs[4], bs[5], bs[6], bs[7], bs[8], bs[9])
  }

  // ---------------------------------------------------------------- writing

  function Attr(attr: Byte, w: Word): seq<Byte> { [attr] + Long(w) }

  function Header(v: Value): seq<Byte> {
    Attr(TYPE, v.conditionType) + Attr(ID, Unsigned(v.id)) + Attr(TICKS, Unsigned(v.ticks))
    + [BUFF, if v.buff then 1 else 0] + Attr(SUBID, v.subId)
  }

  function Numbers(attr: Byte, list: seq<Int32>): seq<Byte> {
    if list == [] then [] else Attr(attr, Unsigned(list[0])) + Numbers(attr, list[1..])
  }

  function OutfitList(outfits: seq<Outfit>): seq<Byte> {
    if outfits == [] then [] else [OUTFIT] + OutfitBytes(outfits[0]) + OutfitList(outfits[1..])
  }

  function Body(more: More): seq<Byte> {
    match more
    case Generic => []
    case Regeneration(healthTicks, healthGain, manaTicks, manaGain) =>
      Attr(HEALTHTICKS, healthTicks) + Attr(HEALTHGAIN, healthGain) + Attr(MANATICKS, manaTicks) + Attr(MANAGAIN, manaGain)
    case Soul(soulTicks, soulGain) => Attr(SOULGAIN, soulGain) + Attr(SOULTICKS, soulTicks)
    case Attributes(skills, stats, _, _) => Numbers(SKILLS, skills) + Numbers(STATS, stats)
    case Outfits(outfits) => OutfitList(outfits)
    case Speed(outfits, speedDelta, mina, minb, maxa, maxb) =>
      OutfitList(outfits) + Attr(SPEEDDELTA, Unsigned(speedDelta)) + Attr(FORMULA_MINA, mina) + Attr(FORMULA_MINB, minb)
      + Attr(FORMULA_MAXA, maxa) + Attr(FORMULA_MAXB, maxb)
  }

  /** What Condition::serialize and its overrides write. */
  function Encode(v: Value): seq<Byte> {
    Header(v) + Body(v.more)
  }

  /** The conditions of a player, each closed by the end byte. */
  function EncodeAll(vs: seq<Value>): seq<Byte> {
    if vs == [] then [] else Encode(vs[0]) + [END] + EncodeAll(vs[1..])
  }

  // ---------------------------------------------------------------- reading

  /** What a read leaves: whether it worked, the condition, and the bytes not yet read. */
  datatype Read = Read(ok: bool, value: Value, rest: seq<Byte>)

  /** The attributes of a class that are followed by a word; there is room for so many skills and
      stats only. */
  predicate TakesWord(more: More, attr: Byte) {
    attr in {TYPE, ID, TICKS, SUBID} ||
    match more
    case Regeneration(_, _, _, _) => attr in {HEALTHTICKS, HEALTHGAIN, MANATICKS, MANAGAIN}
    case Soul(_, _) => attr in {SOULGAIN, SOULTICKS}
    case Attributes(skills, stats, currentSkill, currentStat) =>
      (attr == SKILLS && currentSkill < |skills|) || (attr == STATS && currentStat < |stats|)
    case Speed(_, _, _, _, _, _) => attr in {SPEEDDELTA, FORMULA_MINA, FORMULA_MINB, FORMULA_MAXA, FORMULA_MAXB}
    case _ => false
  }

  predicate TakesOutfit(more: More, attr: Byte) {
    attr == OUTFIT && (more.Outfits? || more.Speed?)
  }

  function SetMore(more: More, attr: Byte, w: Word): More
    requires TakesWord(more, attr)
  {
    match more
    case Regeneration(_, _, _, _) =>
      if attr == HEALTHTICKS then more.(healthTicks := w)
      else if attr == HEALTHGAIN then more.(healthGain := w)
      else if attr == MANATICKS then more.(manaTicks := w)
      else if attr == MANAGAIN then more.(manaGain := w)
      else more
    case Soul(_, _) =>
      if attr == SOULGAIN then more.(soulGain := w) else if attr == SOULTICKS then more.(soulTicks := w) else more
    case Attributes(skills, stats, currentSkill, currentStat) =>
      if attr == SKILLS then more.(skills := skills[currentSkill := Signed(w)], currentSkill := currentSkill + 1)
      else if attr == STATS then more.(stats := stats[currentStat := Signed(w)], currentStat := currentStat + 1)
      else more
    case Speed(_, _, _, _, _, _) =>
      if attr == SPEEDDELTA then more.(speedDelta := Signed(w))
      else if attr == FORMULA_MINA then more.(mina := w)
      else if attr == FORMULA_MINB then more.(minb := w)
      else if attr == FORMULA_MAXA then more.(maxa := w)
      else if attr == FORMULA_MAXB then more.(maxb := w)
      else more
    case _ => more
  }

  function SetWord(v: Value, attr: Byte, w: Word): Value
    requires TakesWord(v.more, attr)
  {
    match attr
    case 1 => v.(conditionType := w)
    case 2 => v.(id := Narrow(w))
    case 3 => v.(ticks := Signed(w))
    case 27 => v.(subId := w)
    case _ => v.(more := SetMore(v.more, attr, w))
  }

  /** unserializeProp of the class, with what it falls back on in its base classes. */
  function Prop(attr: Byte, v: Value, bs: seq<Byte>): Read {
    if TakesOutfit(v.more, attr) then
      if |bs| < 10 then Read(false, v, bs)
      else Read(true, v.(more := v.more.(outfits := v.more.outfits + [FromOutfit(bs[..10])])), bs[10..])
    else if attr == BUFF then
      if |bs| < 1 then Read(false, v, bs) else Read(true, v.(buff := bs[0] != 0), bs[1..])
    else if TakesWord(v.more, attr) then
      if |bs| < 4 then Read(false, v, bs) else Read(true, SetWord(v, attr, FromLong(bs[..4])), bs[4..])
    else Read(attr == END, v, bs)
  }

  /** Condition::unserialize: attributes up to the end byte or the end of the stream. */
  function Props(v: Value, bs: seq<Byte>): (r: Read)
    ensures |r.rest| <= |bs|
    decreases |bs|
  {
    if bs == [] then Read(true, v, bs)
    else if bs[0] == END then Read(true, v, bs[1..])
    else
      var r := Prop(bs[0], v, bs[1..]);
      if r.ok then Props(r.value, r.rest) else r
  }

  lemma PropShrinks(attr: Byte, v: Value, bs: seq<Byte>)
    ensures |Prop(attr, v, bs).rest| <= |bs|
  {
  }

  /** A word behind the attribute that must come next. */
  function Expect(attr: Byte, bs: seq<Byte>): Option<(Word, seq<Byte>)> {
    if |bs| < 5 || bs[0] != attr then None else Some((FromLong(bs[1..5]), bs[5..]))
  }

  /** Condition::createCondition on a stream: the five common attributes, in their order. */
  function Create(bs: seq<Byte>): (r: Option<(Value, seq<Byte>)>)
    ensures r.Some? ==> |r.value.1| < |bs|
  {
    var t := Expect(TYPE, bs);
    if t.None? then None else
    var i := Expect(ID, t.value.1);
    if i.None? then None else
    var k := Expect(TICKS, i.value.1);
    if k.None? then None else
    var b := k.value.1;
    if |b| < 2 || b[0] != BUFF then None else
    var s := Expect(SUBID, b[2..]);
    if s.None? || Blank(t.value.0).None? then None
    else Some((Value(t.value.0, Narrow(i.value.0), Signed(k.value.0), b[1] != 0, s.value.0, Blank(t.value.0).value), s.value.1))
  }

  /** Loading a player: conditions as long as one can be created, without those that fail. */
  function ParseAll(bs: seq<Byte>): seq<Value>
    decreases |bs|
  {
    var c := Create(bs);
    if c.None? then []
    else
      var r := Props(c.value.0, c.value.1);
      (if r.ok then [r.value] else []) + ParseAll(r.rest)
  }

  // ---------------------------------------------------------------- the round trip

  /** A condition after loading: its counters stand behind the last skill and stat. */
  function Loaded(v: Value): Value {
    if v.more.Attributes? then v.(more := v.more.(currentSkill := SKILL_COUNT, currentStat := STAT_COUNT)) else v
  }

  lemma CreateHeader(v: Value, rest: seq<Byte>)
    requires Proper(v)
    ensures Blank(v.conditionType).Some?
    ensures Create(Header(v) + rest) == Some((v.(more := Blank(v.conditionType).value), rest))
  {
    hide Expect, Attr, Long, FromLong;
    var b := [BUFF, if v.buff then 1 else 0];
    var r5 := Attr(SUBID, v.subId) + rest;
    var r4 := b + r5;
    var r3 := Attr(TICKS, Unsigned(v.ticks)) + r4;
    var r2 := Attr(ID, Unsigned(v.id)) + r3;
    Nested(Attr(TYPE, v.conditionType), Attr(ID, Unsigned(v.id)), Attr(TICKS, Unsigned(v.ticks)), b, Attr(SUBID, v.subId), rest);
    ExpectAttr(TYPE, v.conditionType, r2);
    ExpectAttr(ID, Unsigned(v.id), r3);
    ExpectAttr(TICKS, Unsigned(v.ticks), r4);
    assert r4[2..] == r5 && r4[0] == BUFF && r4[1] == b[1];
    ExpectAttr(SUBID, v.subId, rest);
  }

  lemma Nested(a: seq<Byte>, b: seq<Byte>, c: seq<Byte>, d: seq<Byte>, e: seq<Byte>, rest: seq<Byte>)
    ensures a + b + c + d + e + rest == a + (b + (c + (d + (e + rest))))
  {
  }

  lemma ExpectAttr(attr: Byte, w: Word, rest: seq<Byte>)
    ensures Expect(attr, Attr(attr, w) + rest) == Some((w, rest))
  {
    var bs := Attr(attr, w) + rest;
    assert bs[1..5] == Long(w) && bs[5..] == rest;
    LongRoundTrip(w);
  }

  /** Reading on past one attribute with its word. */
  lemma ReadWord(v: Value, attr: Byte, w: Word, rest: seq<Byte>)
    requires TakesWord(v.more, attr) && attr !in {BUFF, END, OUTFIT}
    ensures Props(v, Attr(attr, w) + rest) == Props(SetWord(v, attr, w), rest)
  {
    hide SetWord, TakesWord, Long, FromLong;
    var bs := Attr(attr, w) + rest;
    assert bs[1..][..4] == Long(w) && bs[1..][4..] == rest;
    LongRoundTrip(w);
  }

  lemma ReadOutfit(v: Value, o: Outfit, rest: seq<Byte>)
    requires v.more.Outfits? || v.more.Speed?
    ensures Props(v, [OUTFIT] + OutfitBytes(o) + rest) == Props(v.(more := v.more.(outfits := v.more.outfits + [o])), rest)
  {
    var bs := [OUTFIT] + OutfitBytes(o) + rest;
    assert bs[1..][..10] == OutfitBytes(o) && bs[1..][10..] == rest;
  }

  lemma {:induction false} ReadOutfits(v: Value, os: seq<Outfit>, rest: seq<Byte>)
    requires v.more.Outfits? || v.more.Speed?
    ensures Props(v, OutfitList(os) + rest) == Props(v.(more := v.more.(outfits := v.more.outfits + os)), rest)
    decreases |os|
  {
    hide Props;
    if os == [] {
      assert OutfitList(os) + rest == rest && v.more.outfits + os == v.more.outfits;
    } else {
      var o, tail := os[0], OutfitList(os[1..]) + rest;
      assert OutfitList(os) + rest == [OUTFIT] + OutfitBytes(o) + tail;
      ReadOutfit(v, o, tail);
      ReadOutfits(v.(more := v.more.(outfits := v.more.outfits + [o])), os[1..], rest);
      assert v.more.outfits + [o] + os[1..] == v.more.outfits + os;
    }
  }

  lemma {:induction false} ReadSkills(v: Value, skills: seq<Int32>, n: nat, rest: seq<Byte>)
    requires v.more.Attributes? && n <= |skills| == |v.more.skills| && v.more.currentSkill == n
    requires v.more.skills[..n] == skills[..n]
    ensures Props(v, Numbers(SKILLS, skills[n..]) + rest) == Props(v.(more := v.more.(skills := skills, currentSkill := |skills|)), rest)
    decreases |skills| - n
  {
    hide Props;
    if n == |skills| {
      assert v.more.skills == skills && Numbers(SKILLS, skills[n..]) + rest == rest;
    } else {
      var tail := Numbers(SKILLS, skills[n..][1..]) + rest;
      assert Numbers(SKILLS, skills[n..]) + rest == Attr(SKILLS, Unsigned(skills[n])) + tail;
      assert skills[n..][1..] == skills[n + 1..];
      ReadWord(v, SKILLS, Unsigned(skills[n]), tail);
      var w := SetWord(v, SKILLS, Unsigned(skills[n]));
      assert w.more.skills[..n + 1] == skills[..n + 1];
      ReadSkills(w, skills, n + 1, rest);
    }
  }

  lemma {:induction false} ReadStats(v: Value, stats: seq<Int32>, n: nat, rest: seq<Byte>)
    requires v.more.Attributes? && n <= |stats| == |v.more.stats| && v.more.currentStat == n
    requires v.more.stats[..n] == stats[..n]
    ensures Props(v, Numbers(STATS, stats[n..]) + rest) == Props(v.(more := v.more.(stats := stats, currentStat := |stats|)), rest)
    decreases |stats| - n
  {
    hide Props;
    if n == |stats| {
      assert v.more.stats == stats && Numbers(STATS, stats[n..]) + rest == rest;
    } else {
      var tail := Numbers(STATS, stats[n..][1..]) + rest;
      assert Numbers(STATS, stats[n..]) + rest == Attr(STATS, Unsigned(stats[n])) + tail;
      assert stats[n..][1..] == stats[n + 1..];
      ReadWord(v, STATS, Unsigned(stats[n]), tail);
      var w := SetWord(v, STATS, Unsigned(stats[n]));
      assert w.more.stats[..n + 1] == stats[..n + 1];
      ReadStats(w, stats, n + 1, rest);
    }
  }

  lemma ReadEnd(v: Value, rest: seq<Byte>)
    ensures Props(v, [END] + rest) == Read(true, v, rest)
  {
    assert ([END] + rest)[1..] == rest;
  }

  lemma ReadRegeneration(v: Value, m: More, rest: seq<Byte>)
    requires v.more.Regeneration? && m.Regeneration?
    ensures Props(v, Body(m) + rest) == Props(v.(more := m), rest)
  {
    hide Props, Attr;
    var a, b, c, d := Attr(HEALTHTICKS, m.healthTicks), Attr(HEALTHGAIN, m.healthGain), Attr(MANATICKS, m.manaTicks), Attr(MANAGAIN, m.manaGain);
    assert a + b + c + d + rest == a + (b + (c + (d + rest)));
    ReadWord(v, HEALTHTICKS, m.healthTicks, b + (c + (d + rest)));
    var v1 := SetWord(v, HEALTHTICKS, m.healthTicks);
    ReadWord(v1, HEALTHGAIN, m.healthGain, c + (d + rest));
    var v2 := SetWord(v1, HEALTHGAIN, m.healthGain);
    ReadWord(v2, MANATICKS, m.manaTicks, d + rest);
    var v3 := SetWord(v2, MANATICKS, m.manaTicks);
    ReadWord(v3, MANAGAIN, m.manaGain, rest);
  }

  lemma ReadSoul(v: Value, m: More, rest: seq<Byte>)
    requires v.more.Soul? && m.Soul?
    ensures Props(v, Body(m) + rest) == Props(v.(more := m), rest)
  {
    hide Props, Attr;
    var a, b := Attr(SOULGAIN, m.soulGain), Attr(SOULTICKS, m.soulTicks);
    assert a + b + rest == a + (b + rest);
    ReadWord(v, SOULGAIN, m.soulGain, b + rest);
    ReadWord(SetWord(v, SOULGAIN, m.soulGain), SOULTICKS, m.soulTicks, rest);
  }

  lemma ReadAttributes(v: Value, m: More, rest: seq<Byte>)
    requires v.more.Attributes? && m.Attributes? && v.more.currentSkill == v.more.currentStat == 0
    requires |v.more.skills| == |m.skills| == SKILL_COUNT && |v.more.stats| == |m.stats| == STAT_COUNT
    ensures Props(v, Body(m) + rest) == Props(v.(more := Attributes(m.skills, m.stats, SKILL_COUNT, STAT_COUNT)), rest)
  {
    hide Props, Numbers;
    assert m.skills[0..] == m.skills && m.stats[0..] == m.stats;
    assert Numbers(SKILLS, m.skills) + Numbers(STATS, m.stats) + rest == Numbers(SKILLS, m.skills) + (Numbers(STATS, m.stats) + rest);
    ReadSkills(v, m.skills, 0, Numbers(STATS, m.stats) + rest);
    ReadStats(v.(more := v.more.(skills := m.skills, currentSkill := |m.skills|)), m.stats, 0, rest);
  }

  lemma ReadSpeed(v: Value, m: More, rest: seq<Byte>)
    requires v.more.Speed? && m.Speed? && v.more.outfits == []
    ensures Props(v, Body(m) + rest) == Props(v.(more := m), rest)
  {
    hide Props, Attr, OutfitList;
    var o, a, b, c, d, e := OutfitList(m.outfits), Attr(SPEEDDELTA, Unsigned(m.speedDelta)), Attr(FORMULA_MINA, m.mina),
                            Attr(FORMULA_MINB, m.minb), Attr(FORMULA_MAXA, m.maxa), Attr(FORMULA_MAXB, m.maxb);
    NestedMore(o, a, b, c, d, e, rest);
    ReadOutfits(v, m.outfits, a + (b + (c + (d + (e + rest)))));
    var v0 := v.(more := v.more.(outfits := v.more.outfits + m.outfits));
    assert v0.more.outfits == m.outfits;
    ReadWord(v0, SPEEDDELTA, Unsigned(m.speedDelta), b + (c + (d + (e + rest))));
    var v1 := SetWord(v0, SPEEDDELTA, Unsigned(m.speedDelta));
    ReadWord(v1, FORMULA_MINA, m.mina, c + (d + (e + rest)));
    var v2 := SetWord(v1, FORMULA_MINA, m.mina);
    ReadWord(v2, FORMULA_MINB, m.minb, d + (e + rest));
    var v3 := SetWord(v2, FORMULA_MINB, m.minb);
    ReadWord(v3, FORMULA_MAXA, m.maxa, e + rest);
    var v4 := SetWord(v3, FORMULA_MAXA, m.maxa);
    ReadWord(v4, FORMULA_MAXB, m.maxb, rest);
  }

  lemma NestedMore(o: seq<Byte>, a: seq<Byte>, b: seq<Byte>, c: seq<Byte>, d: seq<Byte>, e: seq<Byte>, rest: seq<Byte>)
    ensures o + a + b + c + d + e + rest == o + (a + (b + (c + (d + (e + rest)))))
  {
  }

  lemma ReadBody(v: Value, rest: seq<Byte>)
    requires Proper(v)
    ensures Blank(v.conditionType).Some?
    ensures Props(v.(more := Blank(v.conditionType).value), Body(v.more) + rest) == Props(Loaded(v), rest)
  {
    hide Props;
    var blank := v.(more := Blank(v.conditionType).value);
    match v.more {
      case Generic => assert Body(v.more) + rest == rest;
      case Regeneration(_, _, _, _) => ReadRegeneration(blank, v.more, rest);
      case Soul(_, _) => ReadSoul(blank, v.more, rest);
      case Attributes(_, _, _, _) => ReadAttributes(blank, v.more, rest);
      case Outfits(outfits) =>
        ReadOutfits(blank, outfits, rest);
        assert [] + outfits == outfits;
      case Speed(_, _, _, _, _, _) => ReadSpeed(blank, v.more, rest);
    }
  }

  /** What is written and closed by the end byte is read back, field by field, and nothing beyond it is
      consumed. */
  lemma RoundTrip(v: Value, rest: seq<Byte>)
    requires Proper(v)
    ensures var c := Create(Encode(v) + [END] + rest);
            c.Some? && Props(c.value.0, c.value.1) == Read(true, Loaded(v), rest)
  {
    hide Props, Create, Header, Body, Blank;
    assert Encode(v) + [END] + rest == Header(v) + (Body(v.more) + ([END] + rest));
    CreateHeader(v, Body(v.more) + ([END] + rest));
    ReadBody(v, [END] + rest);
    ReadEnd(Loaded(v), rest);
  }

  lemma {:induction false} EncodeAllSnoc(vs: seq<Value>, v: Value)
    ensures EncodeAll(vs + [v]) == EncodeAll(vs) + (Encode(v) + [END])
  {
    hide Encode;
    if vs == [] {
      assert vs + [v] == [v] && [v][1..] == [] && EncodeAll([v]) == Encode(v) + [END] + [];
    } else {
      assert (vs + [v])[1..] == vs[1..] + [v];
      EncodeAllSnoc(vs[1..], v);
    }
  }

  function LoadedAll(vs: seq<Value>): seq<Value> {
    if vs == [] then [] else [Loaded(vs[0])] + LoadedAll(vs[1..])
  }

  /** And so for any list of conditions one behind the other. */
  lemma {:induction false} RoundTripAll(vs: seq<Value>)
    requires forall v :: v in vs ==> Proper(v)
    ensures ParseAll(EncodeAll(vs)) == LoadedAll(vs)
  {
    hide Props, Create, Header, Body, Proper;
    if vs == [] {
      NothingToCreate();
    } else {
      RoundTrip(vs[0], EncodeAll(vs[1..]));
      RoundTripAll(vs[1..]);
    }
  }

  lemma NothingToCreate()
    ensures Create([]) == None
  {
  }

  // ---------------------------------------------------------------- the bytes themselves

  /** Words lie in the stream with their low byte first. */
  lemma LongBytes(b: Byte)
    ensures Long(b) == [b, 0, 0, 0] && Long(5000) == [0x88, 0x13, 0, 0] && Long(Unsigned(-1)) == [255, 255, 255, 255]
  {
  }

  /** Five seconds of haste by 220, and then the end byte. */
  lemma HasteBytes()
    ensures EncodeAll([Value(0x10, -1, 5000, false, 7, Speed([], 220, 1, 2, 3, 4))]) ==
            ([1, 16, 0, 0, 0] + [2, 255, 255, 255, 255] + [3, 0x88, 0x13, 0, 0] + [26, 0] + [27, 7, 0, 0, 0])
            + ([11, 220, 0, 0, 0] + [12, 1, 0, 0, 0] + [13, 2, 0, 0, 0] + [14, 3, 0, 0, 0] + [15, 4, 0, 0, 0]) + [254]
  {
    hide Long, Attr;
    var haste := Value(0x10, -1, 5000, false, 7, Speed([], 220, 1, 2, 3, 4));
    AttrBytes(TYPE, 16);
    AttrBytes(ID, 0);
    AttrBytes(TICKS, 0);
    AttrBytes(SUBID, 7);
    AttrBytes(SPEEDDELTA, 220);
    AttrBytes(FORMULA_MINA, 1);
    AttrBytes(FORMULA_MINB, 2);
    AttrBytes(FORMULA_MAXA, 3);
    AttrBytes(FORMULA_MAXB, 4);
    assert Header(haste) == [1, 16, 0, 0, 0] + [2, 255, 255, 255, 255] + [3, 0x88, 0x13, 0, 0] + [26, 0] + [27, 7, 0, 0, 0];
    assert Body(haste.more) == [11, 220, 0, 0, 0] + [12, 1, 0, 0, 0] + [13, 2, 0, 0, 0] + [14, 3, 0, 0, 0] + [15, 4, 0, 0, 0];
    assert EncodeAll([haste]) == Encode(haste) + [END] + EncodeAll([]);
  }

  lemma AttrBytes(attr: Byte, b: Byte)
    ensures Attr(attr, b) == [attr, b, 0, 0, 0]
    ensures Attr(attr, 5000) == [attr, 0x88, 0x13, 0, 0] && Attr(attr, Unsigned(-1)) == [attr, 255, 255, 255, 255]
  {
    LongBytes(b);
  }

  /** What the other classes write of their own. */
  lemma BodyBytes()
    ensures Body(Regeneration(1, 2, 3, 4)) == [4, 1, 0, 0, 0] + [5, 2, 0, 0, 0] + [6, 3, 0, 0, 0] + [7, 4, 0, 0, 0]
    ensures Body(Soul(1, 2)) == [21, 2, 0, 0, 0] + [20, 1, 0, 0, 0]
    ensures Body(Attributes([-1], [2], 0, 0)) == [22, 255, 255, 255, 255] + [23, 2, 0, 0, 0]
    ensures Body(Outfits([Outfit((1, 2), (3, 4), 5, 6, 7, 8, 9, 10)])) == [24, 1, 2, 3, 4, 5, 6, 7, 8, 9, 10]
    ensures Body(Generic) == []
  {
    hide Long, Attr;
    AttrBytes(HEALTHTICKS, 1);
    AttrBytes(HEALTHGAIN, 2);
    AttrBytes(MANATICKS, 3);
    AttrBytes(MANAGAIN, 4);
    AttrBytes(SOULTICKS, 1);
    AttrBytes(SOULGAIN, 2);
    AttrBytes(SKILLS, 1);
    AttrBytes(STATS, 2);
    assert Numbers(SKILLS, []) == [] && Numbers(STATS, []) == [] && OutfitList([]) == [];
  }

  /** Which types make which class; damage, light and unknown types make none here. */
  lemma ClassOf(t: Word)
    ensures Blank(t).Some? && Blank(t).value.Speed? <==> t in {16, 32}
    ensures Blank(t).Some? && Blank(t).value.Outfits? <==> t == 64
    ensures Blank(t).Some? && Blank(t).value.Regeneration? <==> t == 8192
    ensures Blank(t).Some? && Blank(t).value.Soul? <==> t == 16384
    ensures Blank(t).Some? && Blank(t).value.Attributes? <==> t == 131072
    ensures Blank(t).Some? && Blank(t).value.Generic? <==>
              t in {128, 512, 1024, 2048, 4096, 65536, 2097152, 4194304, 8388608, 16777216, 33554432}
  {
  }
}
