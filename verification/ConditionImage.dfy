/** What a condition looks like in the database: its attributes in order, and what reading attributes back makes of them. */
module ConditionImage {
  import opened Bytes
  import opened PropStreams

  const ATTR_TYPE: byte := 1
  const ATTR_ID: byte := 2
  const ATTR_TICKS: byte := 3
  const ATTR_HEALTHTICKS: byte := 4
  const ATTR_HEALTHGAIN: byte := 5
  const ATTR_MANATICKS: byte := 6
  const ATTR_MANAGAIN: byte := 7
  const ATTR_DELAYED: byte := 8
  const ATTR_OWNER: byte := 9
  const ATTR_INTERVALDATA: byte := 10
  const ATTR_SPEEDDELTA: byte := 11
  const ATTR_FORMULA_MINA: byte := 12
  const ATTR_FORMULA_MINB: byte := 13
  const ATTR_FORMULA_MAXA: byte := 14
  const ATTR_FORMULA_MAXB: byte := 15
  const ATTR_LIGHTCOLOR: byte := 16
  const ATTR_LIGHTLEVEL: byte := 17
  const ATTR_LIGHTTICKS: byte := 18
  const ATTR_LIGHTINTERVAL: byte := 19
  const ATTR_SOULTICKS: byte := 20
  const ATTR_SOULGAIN: byte := 21
  const ATTR_SKILLS: byte := 22
  const ATTR_STATS: byte := 23
  const ATTR_OUTFIT: byte := 24
  const ATTR_PERIODDAMAGE: byte := 25
  const ATTR_BUFF: byte := 26
  const ATTR_SUBID: byte := 27
  const ATTR_END: byte := 254

  const POISON: int32 := 0x1
  const FIRE: int32 := 0x2
  const ENERGY: int32 := 0x4
  const PHYSICAL: int32 := 0x8
  const HASTE: int32 := 0x10
  const PARALYZE: int32 := 0x20
  const OUTFIT: int32 := 0x40
  const INVISIBLE: int32 := 0x80
  const LIGHT: int32 := 0x100
  const MANASHIELD: int32 := 0x200
  const INFIGHT: int32 := 0x400
  const DRUNK: int32 := 0x800
  const EXHAUST: int32 := 0x1000
  const REGENERATION: int32 := 0x2000
  const SOUL: int32 := 0x4000
  const DROWN: int32 := 0x8000
  const MUTED: int32 := 0x1_0000
  const ATTRIBUTES: int32 := 0x2_0000
  const FREEZING: int32 := 0x4_0000
  const DAZZLED: int32 := 0x8_0000
  const CURSED: int32 := 0x10_0000
  const PACIFIED: int32 := 0x20_0000
  const GAMEMASTER: int32 := 0x40_0000
  const HUNTING: int32 := 0x80_0000

  const COMBAT: int32 := 0
  const FOREVER: int32 := -1

  const SKILLS: nat := 7
  const STATS: nat := 5

  datatype Interval = Interval(timeLeft: int32, value: int32, interval: int32)

  /** `Outfit_t`, ten bytes in memory: two shorts, five bytes and one byte the compiler adds. */
  datatype Outfit = Outfit(lookType: uint16, lookTypeEx: uint16,
                           head: byte, body: byte, legs: byte, feet: byte, addons: byte, padding: byte)

  const OUTFIT_SIZE: nat := 10
  const INTERVAL_SIZE: nat := 12

  /** The serialized fields of each class. Floats are their bit patterns. */
  datatype Body =
    | Plain
    | Attributes(skills: seq<int32>, stats: seq<int32>, currentSkill: nat, currentStat: nat)
    | Regeneration(healthTicks: uint32, healthGain: uint32, manaTicks: uint32, manaGain: uint32)
    | Soul(soulGain: uint32, soulTicks: uint32)
    | Damage(delayed: bool, periodDamage: int32, owner: uint32, damageList: seq<Interval>)
    | Outfits(outfits: seq<Outfit>)
    | Speed(outfits: seq<Outfit>, speedDelta: int32, mina: uint32, minb: uint32, maxa: uint32, maxb: uint32)
    | Light(color: uint32, level: uint32, lightTicks: uint32, lightInterval: uint32)
  {
    predicate Sound() {
      Attributes? ==> |skills| == SKILLS && |stats| == STATS && currentSkill <= SKILLS && currentStat <= STATS
    }

    /** The bytes `unserializeProp` of this class reads for an attribute, if it takes the attribute at all. */
    function Width(code: byte): int {
      if code == ATTR_TYPE || code == ATTR_ID || code == ATTR_TICKS || code == ATTR_BUFF || code == ATTR_SUBID then 4
      else if code == ATTR_END then 0
      else match this
        case Plain => -1
        case Attributes(_, _, i, j) =>
          if (code == ATTR_SKILLS && i < SKILLS) || (code == ATTR_STATS && j < STATS) then 4 else -1
        case Regeneration(_, _, _, _) => if ATTR_HEALTHTICKS <= code <= ATTR_MANAGAIN then 4 else -1
        case Soul(_, _) => if code == ATTR_SOULGAIN || code == ATTR_SOULTICKS then 4 else -1
        case Damage(_, _, _, _) =>
          if code == ATTR_DELAYED then 1
          else if code == ATTR_PERIODDAMAGE || code == ATTR_OWNER then 4
          else if code == ATTR_INTERVALDATA then INTERVAL_SIZE
          else -1
        case Outfits(_) => if code == ATTR_OUTFIT then OUTFIT_SIZE else -1
        case Speed(_, _, _, _, _, _) =>
          if code == ATTR_OUTFIT then OUTFIT_SIZE else if ATTR_SPEEDDELTA <= code <= ATTR_FORMULA_MAXB then 4 else -1
        case Light(_, _, _, _) => if ATTR_LIGHTCOLOR <= code <= ATTR_LIGHTINTERVAL then 4 else -1
    }
  }

  datatype Value = Value(kind: int32, id: int32, ticks: int32, buff: bool, subId: uint32, body: Body)

  function IntervalImage(i: Interval): (b: seq<byte>)
    ensures |b| == INTERVAL_SIZE
  {
    I32(i.timeLeft) + I32(i.value) + I32(i.interval)
  }

  function FromInterval(b: seq<byte>): Interval
    requires |b| == INTERVAL_SIZE
  {
    Interval(FromI32(b[..4]), FromI32(b[4..8]), FromI32(b[8..]))
  }

  function OutfitImage(o: Outfit): (b: seq<byte>)
    ensures |b| == OUTFIT_SIZE
  {
    U16(o.lookType) + U16(o.lookTypeEx) + [o.head, o.body, o.legs, o.feet, o.addons, o.padding]
  }

  function FromOutfit(b: seq<byte>): Outfit
    requires |b| == OUTFIT_SIZE
  {
    Outfit(FromU16(b[..2]), FromU16(b[2..4]), b[4], b[5], b[6], b[7], b[8], b[9])
  }

  lemma IntervalBack(i: Interval)
    ensures FromInterval(IntervalImage(i)) == i
  {
    hide I32, FromI32;
    var b := IntervalImage(i);
    assert b[..4] == I32(i.timeLeft) && b[4..8] == I32(i.value) && b[8..] == I32(i.interval);
    I32Back(i.timeLeft);
    I32Back(i.value);
    I32Back(i.interval);
  }

  lemma OutfitBack(o: Outfit)
    ensures FromOutfit(OutfitImage(o)) == o
  {
    hide U16, FromU16;
    var b := OutfitImage(o);
    assert b[..2] == U16(o.lookType) && b[2..4] == U16(o.lookTypeEx);
    U16Back(o.lookType);
    U16Back(o.lookTypeEx);
  }

  // ---------------------------------------------------------------- writing

  datatype Prop = Prop(code: byte, image: seq<byte>)

  function Wire(ps: seq<Prop>): seq<byte> {
    if ps == [] then [] else [ps[0].code] + ps[0].image + Wire(ps[1..])
  }

  function Listed(code: byte, xs: seq<int32>): (ps: seq<Prop>)
    ensures |ps| == |xs|
  {
    if xs == [] then [] else [Prop(code, I32(xs[0]))] + Listed(code, xs[1..])
  }

  function IntervalProps(xs: seq<Interval>): seq<Prop> {
    if xs == [] then [] else [Prop(ATTR_INTERVALDATA, IntervalImage(xs[0]))] + IntervalProps(xs[1..])
  }

  function OutfitProps(xs: seq<Outfit>): seq<Prop> {
    if xs == [] then [] else [Prop(ATTR_OUTFIT, OutfitImage(xs[0]))] + OutfitProps(xs[1..])
  }

  function Header(v: Value): seq<Prop> {
    [Prop(ATTR_TYPE, I32(v.kind)), Prop(ATTR_ID, I32(v.id)), Prop(ATTR_TICKS, I32(v.ticks)),
     Prop(ATTR_BUFF, I32(if v.buff then 1 else 0)), Prop(ATTR_SUBID, U32(v.subId))]
  }

  /** The attributes of the class, in the order of its `serialize`. */
  function Details(b: Body): seq<Prop> {
    match b
    case Plain => []
    case Attributes(skills, stats, _, _) => Listed(ATTR_SKILLS, skills) + Listed(ATTR_STATS, stats)
    case Regeneration(ht, hg, mt, mg) =>
      [Prop(ATTR_HEALTHTICKS, U32(ht)), Prop(ATTR_HEALTHGAIN, U32(hg)), Prop(ATTR_MANATICKS, U32(mt)), Prop(ATTR_MANAGAIN, U32(mg))]
    case Soul(gain, ticks) => [Prop(ATTR_SOULGAIN, U32(gain)), Prop(ATTR_SOULTICKS, U32(ticks))]
    case Damage(delayed, period, owner, list) =>
      [Prop(ATTR_DELAYED, [if delayed then 1 else 0]), Prop(ATTR_PERIODDAMAGE, I32(period)), Prop(ATTR_OWNER, U32(owner))]
      + IntervalProps(list)
    case Outfits(outfits) => OutfitProps(outfits)
    case Speed(outfits, delta, mina, minb, maxa, maxb) =>
      OutfitProps(outfits)
      + [Prop(ATTR_SPEEDDELTA, I32(delta)), Prop(ATTR_FORMULA_MINA, U32(mina)), Prop(ATTR_FORMULA_MINB, U32(minb)),
         Prop(ATTR_FORMULA_MAXA, U32(maxa)), Prop(ATTR_FORMULA_MAXB, U32(maxb))]
    case Light(color, level, ticks, interval) =>
      [Prop(ATTR_LIGHTCOLOR, U32(color)), Prop(ATTR_LIGHTLEVEL, U32(level)),
       Prop(ATTR_LIGHTTICKS, U32(ticks)), Prop(ATTR_LIGHTINTERVAL, U32(interval))]
  }

  /** The bytes `serialize` appends. */
  function Image(v: Value): seq<byte> {
    Wire(Header(v)) + Wire(Details(v.body))
  }

  /** The column byte for byte: the five base attributes and what each class adds, every number behind its code. */
  lemma ImageBytes(v: Value)
    ensures Wire(Header(v)) == [1] + I32(v.kind) + [2] + I32(v.id) + [3] + I32(v.ticks)
                               + [26] + I32(if v.buff then 1 else 0) + [27] + U32(v.subId)
    ensures match v.body
            case Plain => Wire(Details(v.body)) == []
            case Attributes(skills, stats, _, _) =>
              Details(v.body) == Listed(22, skills) + Listed(23, stats)
            case Regeneration(ht, hg, mt, mg) =>
              Wire(Details(v.body)) == [4] + U32(ht) + [5] + U32(hg) + [6] + U32(mt) + [7] + U32(mg)
            case Soul(gain, ticks) => Wire(Details(v.body)) == [21] + U32(gain) + [20] + U32(ticks)
            case Damage(delayed, period, owner, list) =>
              Wire(Details(v.body)) == [8, if delayed then 1 else 0] + [25] + I32(period) + [9] + U32(owner) + Wire(IntervalProps(list))
            case Outfits(outfits) => Details(v.body) == OutfitProps(outfits)
            case Speed(outfits, delta, mina, minb, maxa, maxb) =>
              Details(v.body) == OutfitProps(outfits) + [Prop(11, I32(delta)), Prop(12, U32(mina)), Prop(13, U32(minb)),
                                                         Prop(14, U32(maxa)), Prop(15, U32(maxb))]
            case Light(color, level, ticks, interval) =>
              Wire(Details(v.body)) == [16] + U32(color) + [17] + U32(level) + [18] + U32(ticks) + [19] + U32(interval)
  {
    hide I32, U32, IntervalProps, OutfitProps, Listed, Wire, Header, Details;
    HeaderBytes(v);
    DetailBytes(v.body);
  }

  lemma WireCons(q: Prop, ps: seq<Prop>)
    ensures Wire([q] + ps) == [q.code] + q.image + Wire(ps)
  {
    assert ([q] + ps)[1..] == ps;
  }

  lemma WireOfFour(a: Prop, b: Prop, c: Prop, d: Prop)
    ensures Wire([a, b, c, d]) == [a.code] + a.image + [b.code] + b.image + [c.code] + c.image + [d.code] + d.image
  {
    hide Wire;
    assert [a, b, c, d] == [a] + ([b] + ([c] + ([d] + [])));
    WireCons(d, []);
    WireCons(c, [d] + []);
    WireCons(b, [c] + ([d] + []));
    WireCons(a, [b] + ([c] + ([d] + [])));
    assert Wire([]) == [] by { WireOfNone(); }
  }

  lemma WireOfNone()
    ensures Wire([]) == []
  {
  }

  lemma DetailBytes(b: Body)
    ensures match b
            case Plain => Wire(Details(b)) == []
            case Attributes(skills, stats, _, _) =>
              Details(b) == Listed(22, skills) + Listed(23, stats)
            case Regeneration(ht, hg, mt, mg) =>
              Wire(Details(b)) == [4] + U32(ht) + [5] + U32(hg) + [6] + U32(mt) + [7] + U32(mg)
            case Soul(gain, ticks) => Wire(Details(b)) == [21] + U32(gain) + [20] + U32(ticks)
            case Damage(delayed, period, owner, list) =>
              Wire(Details(b)) == [8, if delayed then 1 else 0] + [25] + I32(period) + [9] + U32(owner) + Wire(IntervalProps(list))
            case Outfits(outfits) => Details(b) == OutfitProps(outfits)
            case Speed(outfits, delta, mina, minb, maxa, maxb) =>
              Details(b) == OutfitProps(outfits) + [Prop(11, I32(delta)), Prop(12, U32(mina)), Prop(13, U32(minb)),
                                                    Prop(14, U32(maxa)), Prop(15, U32(maxb))]
            case Light(color, level, ticks, interval) =>
              Wire(Details(b)) == [16] + U32(color) + [17] + U32(level) + [18] + U32(ticks) + [19] + U32(interval)
  {
    hide I32, U32, IntervalProps, OutfitProps, Listed, Wire;
    WireOfNone();
    var ps := Details(b);
    match b {
      case Regeneration(_, _, _, _) => WireOfFour(ps[0], ps[1], ps[2], ps[3]);
      case Light(_, _, _, _) => WireOfFour(ps[0], ps[1], ps[2], ps[3]);
      case Soul(_, _) =>
        assert ps == [ps[0]] + ([ps[1]] + []);
        WireCons(ps[1], []);
        WireCons(ps[0], [ps[1]] + []);
      case Damage(_, _, _, list) =>
        var rest := IntervalProps(list);
        assert ps == [ps[0]] + ([ps[1]] + ([ps[2]] + rest));
        WireCons(ps[2], rest);
        WireCons(ps[1], [ps[2]] + rest);
        WireCons(ps[0], [ps[1]] + ([ps[2]] + rest));
      case _ =>
    }
  }

  /** The values in a list: each behind the code of the list; intervals as three numbers, outfits as two shorts and six bytes. */
  lemma ListBytes(code: byte, n: int32, ns: seq<int32>, i: Interval, xs: seq<Interval>, o: Outfit, os: seq<Outfit>)
    ensures Wire(Listed(code, [n] + ns)) == [code] + I32(n) + Wire(Listed(code, ns))
    ensures Wire(IntervalProps([i] + xs)) == [10] + I32(i.timeLeft) + I32(i.value) + I32(i.interval) + Wire(IntervalProps(xs))
    ensures Wire(OutfitProps([o] + os)) ==
            [24] + U16(o.lookType) + U16(o.lookTypeEx) + [o.head, o.body, o.legs, o.feet, o.addons, o.padding] + Wire(OutfitProps(os))
  {
    hide I32, U16, Wire;
    assert ([n] + ns)[1..] == ns && ([i] + xs)[1..] == xs && ([o] + os)[1..] == os;
    WireCons(Prop(code, I32(n)), Listed(code, ns));
    WireCons(Prop(10, IntervalImage(i)), IntervalProps(xs));
    WireCons(Prop(24, OutfitImage(o)), OutfitProps(os));
  }

  // ---------------------------------------------------------------- reading

  /** `unserializeProp` once the bytes are there. */
  function Take(v: Value, code: byte, image: seq<byte>): (r: Value)
    requires v.body.Sound() && v.body.Width(code) == |image|
    ensures r.body.Sound()
  {
    if code == ATTR_TYPE then v.(kind := FromI32(image))
    else if code == ATTR_ID then v.(id := FromI32(image))
    else if code == ATTR_TICKS then v.(ticks := FromI32(image))
    else if code == ATTR_BUFF then v.(buff := FromI32(image) != 0)
    else if code == ATTR_SUBID then v.(subId := FromU32(image))
    else if code == ATTR_END then v
    else match v.body
      case Plain => assert false; v
      case Attributes(skills, stats, i, j) =>
        v.(body := if code == ATTR_SKILLS
                   then Attributes(skills[i := FromI32(image)], stats, i + 1, j)
                   else Attributes(skills, stats[j := FromI32(image)], i, j + 1))
      case Regeneration(_, _, _, _) =>
        v.(body := if code == ATTR_HEALTHTICKS then v.body.(healthTicks := FromU32(image))
                   else if code == ATTR_HEALTHGAIN then v.body.(healthGain := FromU32(image))
                   else if code == ATTR_MANATICKS then v.body.(manaTicks := FromU32(image))
                   else v.body.(manaGain := FromU32(image)))
      case Soul(_, _) =>
        v.(body := if code == ATTR_SOULGAIN then v.body.(soulGain := FromU32(image)) else v.body.(soulTicks := FromU32(image)))
      case Damage(_, _, _, list) =>
        if code == ATTR_DELAYED then v.(body := v.body.(delayed := image[0] != 0))
        else if code == ATTR_PERIODDAMAGE then v.(body := v.body.(periodDamage := FromI32(image)))
        else if code == ATTR_OWNER then v.(body := v.body.(owner := FromU32(image)))
        else
          var i := FromInterval(image);
          v.(body := v.body.(damageList := list + [i]), ticks := Longer(v.ticks, i))
      case Outfits(outfits) => v.(body := Outfits(outfits + [FromOutfit(image)]))
      case Speed(outfits, _, _, _, _, _) =>
        v.(body := if code == ATTR_OUTFIT then v.body.(outfits := outfits + [FromOutfit(image)])
                   else if code == ATTR_SPEEDDELTA then v.body.(speedDelta := FromI32(image))
                   else if code == ATTR_FORMULA_MINA then v.body.(mina := FromU32(image))
                   else if code == ATTR_FORMULA_MINB then v.body.(minb := FromU32(image))
                   else if code == ATTR_FORMULA_MAXA then v.body.(maxa := FromU32(image))
                   else v.body.(maxb := FromU32(image)))
      case Light(_, _, _, _) =>
        v.(body := if code == ATTR_LIGHTCOLOR then v.body.(color := FromU32(image))
                   else if code == ATTR_LIGHTLEVEL then v.body.(level := FromU32(image))
                   else if code == ATTR_LIGHTTICKS then v.body.(lightTicks := FromU32(image))
                   else v.body.(lightInterval := FromU32(image)))
  }

  /** Each interval read lengthens the condition, unless it has no end. */
  function Longer(ticks: int32, i: Interval): int32 {
    if ticks == FOREVER then FOREVER else Wrap(ticks + i.interval)
  }

  datatype Loaded = Loaded(ok: bool, v: Value, p: nat)

  /** `unserialize` from position `p`. */
  function Load(v: Value, s: seq<byte>, p: nat): (l: Loaded)
    requires v.body.Sound() && p <= |s|
    ensures p <= l.p <= |s| && l.v.body.Sound()
    decreases |s| - p
  {
    if p == |s| then Loaded(true, v, p)
    else if s[p] == ATTR_END then Loaded(true, v, p + 1)
    else
      var w := v.body.Width(s[p]);
      if w < 0 || |s| - (p + 1) < w then Loaded(false, v, p + 1)
      else Load(Take(v, s[p], s[p + 1..p + 1 + w]), s, p + 1 + w)
  }

  predicate DamageKind(kind: int32) {
    kind == FIRE || kind == ENERGY || kind == POISON || kind == FREEZING || kind == DAZZLED || kind == CURSED
    || kind == DROWN || kind == PHYSICAL
  }

  predicate GenericKind(kind: int32) {
    kind == INVISIBLE || kind == HUNTING || kind == INFIGHT || kind == MUTED || kind == EXHAUST || kind == DRUNK
    || kind == PACIFIED || kind == GAMEMASTER || kind == MANASHIELD
  }

  predicate Known(kind: int32) {
    DamageKind(kind) || GenericKind(kind) || kind == HASTE || kind == PARALYZE || kind == OUTFIT || kind == LIGHT
    || kind == REGENERATION || kind == SOUL || kind == ATTRIBUTES
  }

  function Bit(k: nat): nat {
    if k == 0 then 1 else 2 * Bit(k - 1)
  }

  /** The types known are the single bits from 1 to 2^23. */
  lemma KnownIsABit(kind: int32)
    ensures Known(kind) <==> exists k :: 0 <= k < 24 && kind == Bit(k)
  {
    assert Bit(0) == 0x1 && Bit(1) == 0x2 && Bit(2) == 0x4 && Bit(3) == 0x8 && Bit(4) == 0x10 && Bit(5) == 0x20;
    assert Bit(6) == 0x40 && Bit(7) == 0x80 && Bit(8) == 0x100 && Bit(9) == 0x200 && Bit(10) == 0x400 && Bit(11) == 0x800;
    assert Bit(12) == 0x1000 && Bit(13) == 0x2000 && Bit(14) == 0x4000 && Bit(15) == 0x8000 && Bit(16) == 0x1_0000;
    assert Bit(17) == 0x2_0000 && Bit(18) == 0x4_0000 && Bit(19) == 0x8_0000 && Bit(20) == 0x10_0000;
    assert Bit(21) == 0x20_0000 && Bit(22) == 0x40_0000 && Bit(23) == 0x80_0000;
  }

  /** What the constructor of the class picked by the type sets. */
  function NewBody(kind: int32): (b: Body)
    requires Known(kind)
    ensures b.Sound()
  {
    if DamageKind(kind) then Damage(false, 0, 0, [])
    else if GenericKind(kind) then Plain
    else if kind == HASTE || kind == PARALYZE then Speed([], 0, 0, 0, 0, 0)
    else if kind == OUTFIT then Outfits([])
    else if kind == LIGHT then Light(0, 0, 0, 0)
    else if kind == REGENERATION then Regeneration(1000, 0, 1000, 0)
    else if kind == SOUL then Soul(0, 0)
    else Attributes([0, 0, 0, 0, 0, 0, 0], [0, 0, 0, 0, 0], 0, 0)
  }

  /** A fresh condition of the class; `ConditionDamage` ignores the given ticks. */
  function NewValue(kind: int32, id: int32, ticks: int32, buff: bool, subId: uint32): (v: Value)
    requires Known(kind)
    ensures v.body.Sound()
  {
    Value(kind, id, if DamageKind(kind) then 0 else ticks, buff, subId, NewBody(kind))
  }

  const HEADER_SIZE: nat := 25

  predicate HeaderOk(s: seq<byte>, p: nat) {
    && p + HEADER_SIZE <= |s|
    && s[p] == ATTR_TYPE && s[p + 5] == ATTR_ID && s[p + 10] == ATTR_TICKS && s[p + 15] == ATTR_BUFF && s[p + 20] == ATTR_SUBID
    && Known(FromI32(s[p + 1..p + 5]))
  }

  /** `createCondition` from a stream. */
  function Create(s: seq<byte>, p: nat): (v: Value)
    requires HeaderOk(s, p)
    ensures v.body.Sound()
  {
    NewValue(FromI32(s[p + 1..p + 5]), FromI32(s[p + 6..p + 10]), FromI32(s[p + 11..p + 15]),
             FromI32(s[p + 16..p + 20]) != 0, FromU32(s[p + 21..p + 25]))
  }

  // ---------------------------------------------------------------- one condition, written and read back

  /** The condition belongs to the class its type stands for. */
  predicate Classed(v: Value) {
    && v.body.Sound() && Known(v.kind)
    && match v.body
       case Plain => GenericKind(v.kind)
       case Attributes(_, _, _, _) => v.kind == ATTRIBUTES
       case Regeneration(_, _, _, _) => v.kind == REGENERATION
       case Soul(_, _) => v.kind == SOUL
       case Damage(_, _, _, _) => DamageKind(v.kind)
       case Outfits(_) => v.kind == OUTFIT
       case Speed(_, _, _, _, _, _) => v.kind == HASTE || v.kind == PARALYZE
       case Light(_, _, _, _) => v.kind == LIGHT
  }

  /** The ticks of a damage condition after reading its list. */
  function TicksFrom(ticks: int32, xs: seq<Interval>): int32
    decreases |xs|
  {
    if xs == [] then ticks else TicksFrom(Longer(ticks, xs[0]), xs[1..])
  }

  /** What comes back: everything written, with a damage condition's ticks recounted from its list
      and the read cursors of an attributes condition at their ends. */
  function Restored(v: Value): (r: Value)
    ensures v.body.Sound() ==> r.body.Sound()
  {
    match v.body
    case Damage(_, _, _, list) => v.(ticks := TicksFrom(0, list))
    case Attributes(_, _, _, _) => v.(body := v.body.(currentSkill := SKILLS, currentStat := STATS))
    case _ => v
  }

  predicate Fits(v: Value, ps: seq<Prop>)
    requires v.body.Sound()
    decreases |ps|
  {
    ps != [] ==>
      && ps[0].code != ATTR_END && v.body.Width(ps[0].code) == |ps[0].image|
      && Fits(Take(v, ps[0].code, ps[0].image), ps[1..])
  }

  function TakeAll(v: Value, ps: seq<Prop>): (r: Value)
    requires v.body.Sound() && Fits(v, ps)
    ensures r.body.Sound()
    decreases |ps|
  {
    if ps == [] then v else TakeAll(Take(v, ps[0].code, ps[0].image), ps[1..])
  }

  lemma {:induction false} TakeBoth(v: Value, a: seq<Prop>, b: seq<Prop>)
    requires v.body.Sound() && Fits(v, a) && Fits(TakeAll(v, a), b)
    ensures Fits(v, a + b) && TakeAll(v, a + b) == TakeAll(TakeAll(v, a), b)
    decreases |a|
  {
    hide Take;
    if a == [] {
      assert a + b == b;
    } else {
      assert (a + b)[1..] == a[1..] + b;
      TakeBoth(Take(v, a[0].code, a[0].image), a[1..], b);
    }
  }

  /** Where an attribute starts, one step of the read loop takes it in. */
  lemma LoadStep(v: Value, q: Prop, s: seq<byte>, p: nat)
    requires v.body.Sound() && q.code != ATTR_END && v.body.Width(q.code) == |q.image|
    requires At(s, p, [q.code]) && At(s, p + 1, q.image)
    ensures Load(v, s, p) == Load(Take(v, q.code, q.image), s, p + 1 + |q.image|)
  {
    hide Take;
    hide Body.Width;
    AtByte(s, p, q.code);
  }

  /** The read loop takes in everything that was written as fitting attributes. */
  lemma {:induction false} LoadTakesAll(v: Value, ps: seq<Prop>, s: seq<byte>, p: nat)
    requires v.body.Sound() && Fits(v, ps) && At(s, p, Wire(ps))
    ensures p + |Wire(ps)| <= |s|
    ensures Load(v, s, p) == Load(TakeAll(v, ps), s, p + |Wire(ps)|)
    decreases |ps|
  {
    hide Take, Load;
    hide Body.Width;
    if ps != [] {
      var q := ps[0];
      AtConcat(s, p, [q.code] + q.image, Wire(ps[1..]));
      AtConcat(s, p, [q.code], q.image);
      LoadStep(v, q, s, p);
      LoadTakesAll(Take(v, q.code, q.image), ps[1..], s, p + 1 + |q.image|);
    }
  }

  lemma TakeCons(v: Value, q: Prop, ps: seq<Prop>)
    requires v.body.Sound() && q.code != ATTR_END && v.body.Width(q.code) == |q.image|
    requires Fits(Take(v, q.code, q.image), ps)
    ensures Fits(v, [q] + ps) && TakeAll(v, [q] + ps) == TakeAll(Take(v, q.code, q.image), ps)
  {
    hide Take;
    hide Body.Width;
    assert ([q] + ps)[1..] == ps;
  }

  lemma TakeNone(v: Value)
    requires v.body.Sound()
    ensures Fits(v, []) && TakeAll(v, []) == v
  {
  }

  lemma {:induction false} IntervalsBack(v: Value, xs: seq<Interval>)
    requires v.body.Damage?
    ensures Fits(v, IntervalProps(xs))
    ensures TakeAll(v, IntervalProps(xs)) ==
            v.(body := v.body.(damageList := v.body.damageList + xs), ticks := TicksFrom(v.ticks, xs))
    decreases |xs|
  {
    hide Fits, TakeAll, Longer, IntervalImage, FromInterval;
    TakeNone(v);
    if xs == [] {
      assert v.body.damageList + xs == v.body.damageList;
    } else {
      var q := Prop(ATTR_INTERVALDATA, IntervalImage(xs[0]));
      IntervalBack(xs[0]);
      var w := Take(v, q.code, q.image);
      assert w.body.damageList + xs[1..] == v.body.damageList + xs;
      IntervalsBack(w, xs[1..]);
      TakeCons(v, q, IntervalProps(xs[1..]));
    }
  }

  function WithOutfits(b: Body, xs: seq<Outfit>): Body
    requires b.Outfits? || b.Speed?
  {
    match b
    case Outfits(outfits) => Outfits(outfits + xs)
    case Speed(outfits, _, _, _, _, _) => b.(outfits := outfits + xs)
  }

  lemma {:induction false} OutfitsBack(v: Value, xs: seq<Outfit>)
    requires v.body.Outfits? || v.body.Speed?
    ensures Fits(v, OutfitProps(xs)) && TakeAll(v, OutfitProps(xs)) == v.(body := WithOutfits(v.body, xs))
    decreases |xs|
  {
    hide Fits, TakeAll, OutfitImage, FromOutfit;
    TakeNone(v);
    if xs == [] {
      assert v.body.outfits + xs == v.body.outfits;
    } else {
      var q := Prop(ATTR_OUTFIT, OutfitImage(xs[0]));
      OutfitBack(xs[0]);
      var w := Take(v, q.code, q.image);
      assert w.body.outfits + xs[1..] == v.body.outfits + xs;
      OutfitsBack(w, xs[1..]);
      TakeCons(v, q, OutfitProps(xs[1..]));
    }
  }

  lemma {:induction false} SkillsBack(v: Value, xs: seq<int32>)
    requires v.body.Attributes? && v.body.Sound() && v.body.currentSkill == SKILLS - |xs|
    ensures Fits(v, Listed(ATTR_SKILLS, xs))
    ensures TakeAll(v, Listed(ATTR_SKILLS, xs)) ==
            v.(body := v.body.(skills := v.body.skills[..SKILLS - |xs|] + xs, currentSkill := SKILLS))
    decreases |xs|
  {
    hide Fits, TakeAll, I32, FromI32;
    TakeNone(v);
    if xs == [] {
      assert v.body.skills[..SKILLS] + xs == v.body.skills;
    } else {
      var q := Prop(ATTR_SKILLS, I32(xs[0]));
      I32Back(xs[0]);
      var w := Take(v, q.code, q.image);
      var i := v.body.currentSkill;
      assert w.body.skills[..i + 1] + xs[1..] == v.body.skills[..i] + xs;
      SkillsBack(w, xs[1..]);
      TakeCons(v, q, Listed(ATTR_SKILLS, xs[1..]));
    }
  }

  lemma {:induction false} StatsBack(v: Value, xs: seq<int32>)
    requires v.body.Attributes? && v.body.Sound() && v.body.currentStat == STATS - |xs|
    ensures Fits(v, Listed(ATTR_STATS, xs))
    ensures TakeAll(v, Listed(ATTR_STATS, xs)) ==
            v.(body := v.body.(stats := v.body.stats[..STATS - |xs|] + xs, currentStat := STATS))
    decreases |xs|
  {
    hide Fits, TakeAll, I32, FromI32;
    TakeNone(v);
    if xs == [] {
      assert v.body.stats[..STATS] + xs == v.body.stats;
    } else {
      var q := Prop(ATTR_STATS, I32(xs[0]));
      I32Back(xs[0]);
      var w := Take(v, q.code, q.image);
      var i := v.body.currentStat;
      assert w.body.stats[..i + 1] + xs[1..] == v.body.stats[..i] + xs;
      StatsBack(w, xs[1..]);
      TakeCons(v, q, Listed(ATTR_STATS, xs[1..]));
    }
  }

  /** A condition with a full set of numbers: whatever the reader held before is overwritten. */
  lemma FourBack(v: Value, a: Prop, b: Prop, c: Prop, d: Prop)
    requires v.body.Sound() && a.code != ATTR_END && b.code != ATTR_END && c.code != ATTR_END && d.code != ATTR_END
    requires v.body.Width(a.code) == |a.image|
    requires var w := Take(v, a.code, a.image);
             w.body.Width(b.code) == |b.image|
             && var x := Take(w, b.code, b.image);
             x.body.Width(c.code) == |c.image|
             && var y := Take(x, c.code, c.image);
             y.body.Width(d.code) == |d.image|
    ensures var w := Take(v, a.code, a.image);
            var x := Take(w, b.code, b.image);
            var y := Take(x, c.code, c.image);
            Fits(v, [a, b, c, d]) && TakeAll(v, [a, b, c, d]) == Take(y, d.code, d.image)
  {
    hide Take, Fits, TakeAll;
    hide Body.Width;
    var w := Take(v, a.code, a.image);
    var x := Take(w, b.code, b.image);
    var y := Take(x, c.code, c.image);
    TakeNone(Take(y, d.code, d.image));
    assert [d] + [] == [d] && [c] + [d] == [c, d] && [b] + [c, d] == [b, c, d] && [a] + [b, c, d] == [a, b, c, d];
    TakeCons(y, d, []);
    TakeCons(x, c, [d]);
    TakeCons(w, b, [c, d]);
    TakeCons(v, a, [b, c, d]);
  }

  lemma RegenerationBack(f: Value, b: Body)
    requires f.body.Regeneration? && b.Regeneration?
    ensures Fits(f, Details(b)) && TakeAll(f, Details(b)) == f.(body := b)
  {
    hide U32, FromU32, Fits, TakeAll;
    U32Back(b.healthTicks);
    U32Back(b.healthGain);
    U32Back(b.manaTicks);
    U32Back(b.manaGain);
    var ps := Details(b);
    FourBack(f, ps[0], ps[1], ps[2], ps[3]);
  }

  lemma LightBack(f: Value, b: Body)
    requires f.body.Light? && b.Light?
    ensures Fits(f, Details(b)) && TakeAll(f, Details(b)) == f.(body := b)
  {
    hide U32, FromU32, Fits, TakeAll;
    U32Back(b.color);
    U32Back(b.level);
    U32Back(b.lightTicks);
    U32Back(b.lightInterval);
    var ps := Details(b);
    FourBack(f, ps[0], ps[1], ps[2], ps[3]);
  }

  lemma SoulBack(f: Value, b: Body)
    requires f.body.Soul? && b.Soul?
    ensures Fits(f, Details(b)) && TakeAll(f, Details(b)) == f.(body := b)
  {
    hide U32, FromU32, Fits, TakeAll;
    U32Back(b.soulGain);
    U32Back(b.soulTicks);
    var ps := Details(b);
    var w := Take(f, ps[0].code, ps[0].image);
    TakeNone(Take(w, ps[1].code, ps[1].image));
    TakeCons(w, ps[1], []);
    assert [ps[1]] + [] == [ps[1]] && [ps[0]] + [ps[1]] == ps;
    TakeCons(f, ps[0], [ps[1]]);
  }

  lemma SpeedBack(f: Value, b: Body)
    requires f.body.Speed? && b.Speed? && f.body.outfits == []
    ensures Fits(f, Details(b)) && TakeAll(f, Details(b)) == f.(body := b)
  {
    hide U32, FromU32, I32, FromI32, Fits, TakeAll, OutfitProps;
    OutfitsBack(f, b.outfits);
    assert [] + b.outfits == b.outfits;
    var g := f.(body := WithOutfits(f.body, b.outfits));
    I32Back(b.speedDelta);
    U32Back(b.mina);
    U32Back(b.minb);
    U32Back(b.maxa);
    U32Back(b.maxb);
    var q, a, c, d, e := Prop(ATTR_SPEEDDELTA, I32(b.speedDelta)), Prop(ATTR_FORMULA_MINA, U32(b.mina)),
      Prop(ATTR_FORMULA_MINB, U32(b.minb)), Prop(ATTR_FORMULA_MAXA, U32(b.maxa)), Prop(ATTR_FORMULA_MAXB, U32(b.maxb));
    FourBack(Take(g, q.code, q.image), a, c, d, e);
    assert [q] + [a, c, d, e] == [q, a, c, d, e];
    TakeCons(g, q, [a, c, d, e]);
    TakeBoth(f, OutfitProps(b.outfits), [q, a, c, d, e]);
  }

  lemma DamageBack(f: Value, b: Body)
    requires f.body.Damage? && b.Damage? && f.body.damageList == []
    ensures Fits(f, Details(b)) && TakeAll(f, Details(b)) == f.(body := b, ticks := TicksFrom(f.ticks, b.damageList))
  {
    hide U32, FromU32, I32, FromI32, Fits, TakeAll, IntervalProps, TicksFrom;
    I32Back(b.periodDamage);
    U32Back(b.owner);
    var q, r, t := Prop(ATTR_DELAYED, [if b.delayed then 1 else 0]), Prop(ATTR_PERIODDAMAGE, I32(b.periodDamage)), Prop(ATTR_OWNER, U32(b.owner));
    var g := Take(f, q.code, q.image);
    var h := Take(g, r.code, r.image);
    var k := Take(h, t.code, t.image);
    IntervalsBack(k, b.damageList);
    assert [] + b.damageList == b.damageList;
    var rest := IntervalProps(b.damageList);
    TakeCons(h, t, rest);
    TakeCons(g, r, [t] + rest);
    TakeCons(f, q, [r] + ([t] + rest));
    assert [q] + ([r] + ([t] + rest)) == [q, r, t] + rest;
  }

  lemma AttributesBack(f: Value, b: Body)
    requires f.body.Attributes? && b.Attributes? && f.body.Sound() && b.Sound()
    requires f.body.currentSkill == f.body.currentStat == 0
    ensures Fits(f, Details(b)) && TakeAll(f, Details(b)) == f.(body := Attributes(b.skills, b.stats, SKILLS, STATS))
  {
    hide Fits, TakeAll, Listed;
    SkillsBack(f, b.skills);
    assert f.body.skills[..0] + b.skills == b.skills;
    var g := f.(body := f.body.(skills := b.skills, currentSkill := SKILLS));
    StatsBack(g, b.stats);
    assert f.body.stats[..0] + b.stats == b.stats;
    TakeBoth(f, Listed(ATTR_SKILLS, b.skills), Listed(ATTR_STATS, b.stats));
  }

  /** For every class: its attributes, read into a fresh condition of the class, restore it. */
  lemma DetailsBack(v: Value)
    requires Classed(v)
    ensures var f := NewValue(v.kind, v.id, v.ticks, v.buff, v.subId);
            Fits(f, Details(v.body)) && TakeAll(f, Details(v.body)) == Restored(v)
  {
    hide Fits, TakeAll, TicksFrom;
    var f := NewValue(v.kind, v.id, v.ticks, v.buff, v.subId);
    match v.body {
      case Plain => TakeNone(f);
      case Attributes(_, _, _, _) => AttributesBack(f, v.body);
      case Regeneration(_, _, _, _) => RegenerationBack(f, v.body);
      case Soul(_, _) => SoulBack(f, v.body);
      case Damage(_, _, _, _) => DamageBack(f, v.body);
      case Outfits(outfits) =>
        OutfitsBack(f, outfits);
        assert [] + outfits == outfits;
      case Speed(_, _, _, _, _, _) => SpeedBack(f, v.body);
      case Light(_, _, _, _) => LightBack(f, v.body);
    }
  }

  /** The fixed header, read by `createCondition`, picks the class the condition had. */
  lemma HeaderBack(v: Value, s: seq<byte>, p: nat)
    requires Known(v.kind) && At(s, p, Wire(Header(v)))
    ensures |Wire(Header(v))| == HEADER_SIZE && HeaderOk(s, p)
    ensures Create(s, p) == NewValue(v.kind, v.id, v.ticks, v.buff, v.subId)
  {
    hide Known, NewValue, I32, U32, FromI32, FromU32, At;
    var k, i, t, b, u := I32(v.kind), I32(v.id), I32(v.ticks), I32(if v.buff then 1 else 0), U32(v.subId);
    HeaderBytes(v);
    HeaderAt(s, p, k, i, t, b, u);
    I32Back(v.kind);
    I32Back(v.id);
    I32Back(v.ticks);
    I32Back(if v.buff then 1 else 0);
    U32Back(v.subId);
  }

  function HeaderWire(k: seq<byte>, i: seq<byte>, t: seq<byte>, b: seq<byte>, u: seq<byte>): seq<byte> {
    [ATTR_TYPE] + k + [ATTR_ID] + i + [ATTR_TICKS] + t + [ATTR_BUFF] + b + [ATTR_SUBID] + u
  }

  lemma HeaderBytes(v: Value)
    ensures Wire(Header(v)) == HeaderWire(I32(v.kind), I32(v.id), I32(v.ticks), I32(if v.buff then 1 else 0), U32(v.subId))
  {
    hide I32, U32;
    var ps := Header(v);
    assert ps[1..][1..] == ps[2..] && ps[2..][1..] == ps[3..] && ps[3..][1..] == ps[4..] && ps[4..][1..] == [];
    assert Wire(ps[4..]) == [ATTR_SUBID] + ps[4].image + [];
    assert Wire(ps[3..]) == [ATTR_BUFF] + ps[3].image + Wire(ps[4..]);
    assert Wire(ps[2..]) == [ATTR_TICKS] + ps[2].image + Wire(ps[3..]);
    assert Wire(ps[1..]) == [ATTR_ID] + ps[1].image + Wire(ps[2..]);
  }

  lemma HeaderAt(s: seq<byte>, p: nat, k: seq<byte>, i: seq<byte>, t: seq<byte>, b: seq<byte>, u: seq<byte>)
    requires |k| == |i| == |t| == |b| == |u| == 4 && At(s, p, HeaderWire(k, i, t, b, u))
    ensures |HeaderWire(k, i, t, b, u)| == HEADER_SIZE && p + HEADER_SIZE <= |s|
    ensures s[p] == ATTR_TYPE && s[p + 5] == ATTR_ID && s[p + 10] == ATTR_TICKS && s[p + 15] == ATTR_BUFF && s[p + 20] == ATTR_SUBID
    ensures s[p + 1..p + 5] == k && s[p + 6..p + 10] == i && s[p + 11..p + 15] == t && s[p + 16..p + 20] == b && s[p + 21..p + 25] == u
  {
    hide At;
    var toId := [ATTR_TYPE] + k;
    var toTicks := toId + [ATTR_ID] + i;
    var toBuff := toTicks + [ATTR_TICKS] + t;
    var toSubId := toBuff + [ATTR_BUFF] + b;
    FieldAt(s, p, toSubId, ATTR_SUBID, u);
    FieldAt(s, p, toBuff, ATTR_BUFF, b);
    FieldAt(s, p, toTicks, ATTR_TICKS, t);
    FieldAt(s, p, toId, ATTR_ID, i);
    assert [] + [ATTR_TYPE] + k == toId;
    FieldAt(s, p, [], ATTR_TYPE, k);
  }

  lemma FieldAt(s: seq<byte>, p: nat, before: seq<byte>, code: byte, image: seq<byte>)
    requires At(s, p, before + [code] + image)
    ensures At(s, p, before) && p + |before| + 1 + |image| <= |s|
    ensures s[p + |before|] == code && s[p + |before| + 1..p + |before| + 1 + |image|] == image
  {
    AtConcat(s, p, before + [code], image);
    AtConcat(s, p, before, [code]);
    AtByte(s, p + |before|, code);
  }

  /** Round trip: written and read back, with or without the END byte behind it, a condition of any class
      is restored, and exactly its own bytes are consumed. */
  lemma RoundTrip(v: Value, s: seq<byte>, p: nat)
    requires Classed(v) && At(s, p, Image(v))
    ensures HeaderOk(s, p) && p + HEADER_SIZE <= p + |Image(v)| <= |s|
    ensures var q := p + |Image(v)|;
            (q == |s| ==> Load(Create(s, p), s, p + HEADER_SIZE) == Loaded(true, Restored(v), q))
            && (q < |s| && s[q] == ATTR_END ==> Load(Create(s, p), s, p + HEADER_SIZE) == Loaded(true, Restored(v), q + 1))
  {
    hide Create, HeaderOk, Details, Header, Wire, Fits, TakeAll, NewValue, Classed, Known, Restored, At;
    assert Known(v.kind) by { ClassedIsKnown(v); }
    AtConcat(s, p, Wire(Header(v)), Wire(Details(v.body)));
    HeaderBack(v, s, p);
    DetailsBack(v);
    LoadTakesAll(Create(s, p), Details(v.body), s, p + HEADER_SIZE);
  }

  lemma ClassedIsKnown(v: Value)
    requires Classed(v)
    ensures Known(v.kind) && v.body.Sound()
  {
  }

  // ---------------------------------------------------------------- the ticks of a damage condition

  function IntervalSum(xs: seq<Interval>): int {
    if xs == [] then 0 else xs[0].interval + IntervalSum(xs[1..])
  }

  /** Counting the list up never stops at -1 halfway, or stops where the rest adds nothing (modulo 2^32). */
  predicate Undisturbed(ticks: int32, xs: seq<Interval>)
    decreases |xs|
  {
    xs != [] ==>
      if ticks == FOREVER then Wrap(ticks + IntervalSum(xs)) == ticks
      else Undisturbed(Wrap(ticks + xs[0].interval), xs[1..])
  }

  /** The ticks read back are the sum of the intervals exactly when the count is undisturbed. */
  lemma {:induction false} TicksAreTheSum(ticks: int32, xs: seq<Interval>)
    ensures TicksFrom(ticks, xs) == Wrap(ticks + IntervalSum(xs)) <==> Undisturbed(ticks, xs)
    decreases |xs|
  {
    hide Wrap;
    if xs == [] {
      WrapIsIdentity(ticks);
    } else if ticks == FOREVER {
      NoEndStays(xs);
    } else {
      TicksAreTheSum(Wrap(ticks + xs[0].interval), xs[1..]);
      WrapAbsorbs(ticks + xs[0].interval, IntervalSum(xs[1..]));
    }
  }

  lemma {:induction false} NoEndStays(xs: seq<Interval>)
    ensures TicksFrom(FOREVER, xs) == FOREVER
  {
    if xs != [] {
      NoEndStays(xs[1..]);
    }
  }

  /** It can be disturbed: intervals of -1 and 5 add up to 4 but leave -1, a condition without end. */
  lemma TicksCanStick()
    ensures var xs := [Interval(0, 0, -1), Interval(0, 0, 5)];
            TicksFrom(0, xs) == FOREVER && IntervalSum(xs) == 4 && !Undisturbed(0, xs)
  {
    var xs := [Interval(0, 0, -1), Interval(0, 0, 5)];
    assert xs[1..] == [Interval(0, 0, 5)] && xs[1..][1..] == [];
    WrapIsIdentity(-1);
    WrapIsIdentity(4);
    TicksAreTheSum(0, xs);
  }

  /** In particular for intervals that are not negative and add up to less than 2^31. */
  lemma {:induction false} UsualTicks(ticks: int32, xs: seq<Interval>)
    requires ticks >= 0 && (forall i :: 0 <= i < |xs| ==> xs[i].interval >= 0) && ticks + IntervalSum(xs) < 0x8000_0000
    ensures TicksFrom(ticks, xs) == ticks + IntervalSum(xs) >= ticks
    decreases |xs|
  {
    if xs != [] {
      SumNotNegative(xs[1..]);
      WrapIsIdentity(ticks + xs[0].interval);
      UsualTicks(ticks + xs[0].interval, xs[1..]);
    }
  }

  lemma {:induction false} SumNotNegative(xs: seq<Interval>)
    requires forall i :: 0 <= i < |xs| ==> xs[i].interval >= 0
    ensures IntervalSum(xs) >= 0
  {
    if xs != [] {
      SumNotNegative(xs[1..]);
    }
  }

  // ---------------------------------------------------------------- the whole column

  /** The player saver keeps persistent conditions and the game-master mark. */
  predicate Stored(v: Value) {
    (v.ticks > 0 && v.id != COMBAT) || v.kind == GAMEMASTER
  }

  function Column(vs: seq<Value>): seq<byte> {
    if vs == [] then [] else (if Stored(vs[0]) then Image(vs[0]) + [ATTR_END] else []) + Column(vs[1..])
  }

  /** The loader: conditions until one cannot be created; those that fail to read are dropped. */
  function LoadColumn(s: seq<byte>, p: nat): (vs: seq<Value>)
    requires p <= |s|
    decreases |s| - p
  {
    if !HeaderOk(s, p) then []
    else
      var l := Load(Create(s, p), s, p + HEADER_SIZE);
      (if l.ok then [l.v] else []) + LoadColumn(s, l.p)
  }

  function AllRestored(vs: seq<Value>): seq<Value> {
    if vs == [] then [] else (if Stored(vs[0]) then [Restored(vs[0])] else []) + AllRestored(vs[1..])
  }

  /** Of every list exactly the persistent ones and the game-master mark come back. */
  lemma {:induction false} RestoredAre(vs: seq<Value>, v: Value)
    ensures v in AllRestored(vs) <==>
            exists w :: w in vs && ((w.ticks > 0 && w.id != 0) || w.kind == 0x40_0000) && v == Restored(w)
  {
    hide Restored;
    if vs != [] {
      RestoredAre(vs[1..], v);
      assert forall w :: w in vs <==> w == vs[0] || w in vs[1..];
    }
  }

  /** Every list of conditions: what the saver writes, the loader reads back, condition by condition, to the last byte. */
  lemma {:induction false} ColumnRoundTrip(vs: seq<Value>, s: seq<byte>, p: nat)
    requires forall v :: v in vs ==> Classed(v)
    requires At(s, p, Column(vs)) && p + |Column(vs)| == |s|
    ensures LoadColumn(s, p) == AllRestored(vs)
    decreases |vs|
  {
    hide Image, HeaderOk, LoadColumn, Restored, Classed, At, Stored;
    if vs == [] {
      NoHeaderAtEnd(s, p);
    } else if Stored(vs[0]) {
      AtConcat(s, p, Image(vs[0]) + [ATTR_END], Column(vs[1..]));
      LoadColumnStep(vs[0], s, p);
      ColumnRoundTrip(vs[1..], s, p + |Image(vs[0])| + 1);
    } else {
      assert Column(vs) == Column(vs[1..]);
      ColumnRoundTrip(vs[1..], s, p);
    }
  }

  lemma LoadColumnStep(v: Value, s: seq<byte>, p: nat)
    requires Classed(v) && At(s, p, Image(v) + [ATTR_END])
    ensures p + |Image(v)| + 1 <= |s|
    ensures LoadColumn(s, p) == [Restored(v)] + LoadColumn(s, p + |Image(v)| + 1)
  {
    hide Image, Create, HeaderOk, Load, Restored, Classed, At;
    AtConcat(s, p, Image(v), [ATTR_END]);
    AtByte(s, p + |Image(v)|, ATTR_END);
    RoundTrip(v, s, p);
  }

  lemma NoHeaderAtEnd(s: seq<byte>, p: nat)
    requires p == |s|
    ensures LoadColumn(s, p) == []
  {
  }

  lemma SaveThenLoad(vs: seq<Value>)
    requires forall v :: v in vs ==> Classed(v)
    ensures LoadColumn(Column(vs), 0) == AllRestored(vs)
  {
    hide LoadColumn, Column, AllRestored, Classed;
    assert Column(vs)[0..0 + |Column(vs)|] == Column(vs);
    ColumnRoundTrip(vs, Column(vs), 0);
  }
}
