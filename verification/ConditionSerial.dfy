/** Conditions as objects: serialize, createCondition and unserialize over the property streams. */
module ConditionSerial {
  import opened Bytes
  import opened PropStreams
  import opened ConditionImage

  lemma {:induction false} WireSnoc(ps: seq<Prop>, q: Prop)
    ensures Wire(ps + [q]) == Wire(ps) + [q.code] + q.image
  {
    if ps == [] {
      assert [q][1..] == [];
    } else {
      assert (ps + [q])[1..] == ps[1..] + [q];
      WireSnoc(ps[1..], q);
    }
  }

  lemma WireNone(start: seq<byte>)
    ensures start == start + Wire([])
  {
  }

  /** `addByte` of an attribute code and `addType` of its value; `done` is what this call has written before. */
  method Emit(w: PropWriteStream, code: byte, image: seq<byte>, ghost start: seq<byte>, ghost done: seq<Prop>)
    returns (ghost more: seq<Prop>)
    requires w.Valid() && w.Written() == start + Wire(done)
    modifies w, w.buffer
    ensures w.Valid() && (w.buffer == old(w.buffer) || fresh(w.buffer))
    ensures more == done + [Prop(code, image)] && w.Written() == start + Wire(more)
  {
    hide Wire;
    w.AddType([code]);
    w.AddType(image);
    more := done + [Prop(code, image)];
    WireSnoc(done, Prop(code, image));
  }

  lemma PlainAndOutfits(b: Body)
    ensures b.Plain? ==> Details(b) == []
    ensures b.Outfits? ==> Details(b) == [] + OutfitProps(b.outfits)
  {
  }

  class Condition {
    var kind: int32
    var id: int32
    var ticks: int32
    var buff: bool
    var subId: uint32
    var body: Body

    function Now(): Value
      reads this
    {
      Value(kind, id, ticks, buff, subId, body)
    }

    constructor (kind: int32, id: int32, ticks: int32, buff: bool, subId: uint32)
      requires Known(kind)
      ensures Now() == NewValue(kind, id, ticks, buff, subId)
    {
      this.kind, this.id, this.buff, this.subId, body := kind, id, buff, subId, NewBody(kind);
      this.ticks := if DamageKind(kind) then 0 else ticks;
    }

    // -------------------------------------------------------------- writing

    /** `Condition::serialize`, then the attributes of the class. */
    method Serialize(w: PropWriteStream)
      requires w.Valid()
      modifies w, w.buffer
      ensures w.Valid() && (w.buffer == old(w.buffer) || fresh(w.buffer))
      ensures w.Written() == old(w.Written()) + Image(Now())
    {
      hide Wire, Details, I32, U32;
      SerializeHeader(w);
      ghost var start := w.Written();
      SerializeDetails(w);
      assert w.Written() == old(w.Written()) + Wire(Header(Now())) + Wire(Details(body));
    }

    method SerializeHeader(w: PropWriteStream)
      requires w.Valid()
      modifies w, w.buffer
      ensures w.Valid() && (w.buffer == old(w.buffer) || fresh(w.buffer))
      ensures w.Written() == old(w.Written()) + Wire(Header(Now()))
    {
      hide I32, U32, Wire;
      ghost var start := w.Written();
      WireNone(start);
      ghost var done := Emit(w, ATTR_TYPE, I32(kind), start, []);
      done := Emit(w, ATTR_ID, I32(id), start, done);
      done := Emit(w, ATTR_TICKS, I32(ticks), start, done);
      done := Emit(w, ATTR_BUFF, I32(if buff then 1 else 0), start, done);
      done := Emit(w, ATTR_SUBID, U32(subId), start, done);
      assert done == Header(Now());
    }

    /** The part of `serialize` each class adds. */
    method SerializeDetails(w: PropWriteStream)
      requires w.Valid()
      modifies w, w.buffer
      ensures w.Valid() && (w.buffer == old(w.buffer) || fresh(w.buffer))
      ensures w.Written() == old(w.Written()) + Wire(Details(body))
    {
      hide Wire, Details;
      PlainAndOutfits(body);
      match body {
        case Plain => WireNone(w.Written());
        case Attributes(_, _, _, _) => SerializeAttributes(w);
        case Regeneration(_, _, _, _) => SerializeRegeneration(w);
        case Soul(_, _) => SerializeSoul(w);
        case Damage(_, _, _, _) => SerializeDamage(w);
        case Outfits(outfits) =>
          WireNone(w.Written());
          ghost var done := EmitOutfits(w, outfits, w.Written(), []);
        case Speed(_, _, _, _, _, _) => SerializeSpeed(w);
        case Light(_, _, _, _) => SerializeLight(w);
      }
    }

    method SerializeAttributes(w: PropWriteStream)
      requires w.Valid() && body.Attributes?
      modifies w, w.buffer
      ensures w.Valid() && (w.buffer == old(w.buffer) || fresh(w.buffer))
      ensures w.Written() == old(w.Written()) + Wire(Details(body))
    {
      hide Wire, I32, U32, Listed, IntervalProps, OutfitProps;
      ghost var start := w.Written();
      WireNone(start);
      ghost var done := EmitNumbers(w, ATTR_SKILLS, body.skills, start, []);
      done := EmitNumbers(w, ATTR_STATS, body.stats, start, done);
      assert done == Details(body);
    }

    method SerializeRegeneration(w: PropWriteStream)
      requires w.Valid() && body.Regeneration?
      modifies w, w.buffer
      ensures w.Valid() && (w.buffer == old(w.buffer) || fresh(w.buffer))
      ensures w.Written() == old(w.Written()) + Wire(Details(body))
    {
      hide Wire, I32, U32, Listed, IntervalProps, OutfitProps;
      ghost var start := w.Written();
      WireNone(start);
      ghost var done := Emit(w, ATTR_HEALTHTICKS, U32(body.healthTicks), start, []);
      done := Emit(w, ATTR_HEALTHGAIN, U32(body.healthGain), start, done);
      done := Emit(w, ATTR_MANATICKS, U32(body.manaTicks), start, done);
      done := Emit(w, ATTR_MANAGAIN, U32(body.manaGain), start, done);
      assert done == Details(body);
    }

    method SerializeSoul(w: PropWriteStream)
      requires w.Valid() && body.Soul?
      modifies w, w.buffer
      ensures w.Valid() && (w.buffer == old(w.buffer) || fresh(w.buffer))
      ensures w.Written() == old(w.Written()) + Wire(Details(body))
    {
      hide Wire, I32, U32, Listed, IntervalProps, OutfitProps;
      ghost var start := w.Written();
      WireNone(start);
      ghost var done := Emit(w, ATTR_SOULGAIN, U32(body.soulGain), start, []);
      done := Emit(w, ATTR_SOULTICKS, U32(body.soulTicks), start, done);
      assert done == Details(body);
    }

    method SerializeDamage(w: PropWriteStream)
      requires w.Valid() && body.Damage?
      modifies w, w.buffer
      ensures w.Valid() && (w.buffer == old(w.buffer) || fresh(w.buffer))
      ensures w.Written() == old(w.Written()) + Wire(Details(body))
    {
      hide Wire, I32, U32, Listed, IntervalProps, OutfitProps;
      ghost var start := w.Written();
      WireNone(start);
      ghost var done := Emit(w, ATTR_DELAYED, [if body.delayed then 1 else 0], start, []);
      done := Emit(w, ATTR_PERIODDAMAGE, I32(body.periodDamage), start, done);
      done := Emit(w, ATTR_OWNER, U32(body.owner), start, done);
      done := EmitIntervals(w, body.damageList, start, done);
      assert done == Details(body);
    }

    method SerializeSpeed(w: PropWriteStream)
      requires w.Valid() && body.Speed?
      modifies w, w.buffer
      ensures w.Valid() && (w.buffer == old(w.buffer) || fresh(w.buffer))
      ensures w.Written() == old(w.Written()) + Wire(Details(body))
    {
      hide Wire, I32, U32, Listed, IntervalProps, OutfitProps;
      ghost var start := w.Written();
      WireNone(start);
      ghost var done := EmitOutfits(w, body.outfits, start, []);
      done := Emit(w, ATTR_SPEEDDELTA, I32(body.speedDelta), start, done);
      done := Emit(w, ATTR_FORMULA_MINA, U32(body.mina), start, done);
      done := Emit(w, ATTR_FORMULA_MINB, U32(body.minb), start, done);
      done := Emit(w, ATTR_FORMULA_MAXA, U32(body.maxa), start, done);
      done := Emit(w, ATTR_FORMULA_MAXB, U32(body.maxb), start, done);
      assert done == Details(body);
    }

    method SerializeLight(w: PropWriteStream)
      requires w.Valid() && body.Light?
      modifies w, w.buffer
      ensures w.Valid() && (w.buffer == old(w.buffer) || fresh(w.buffer))
      ensures w.Written() == old(w.Written()) + Wire(Details(body))
    {
      hide Wire, I32, U32, Listed, IntervalProps, OutfitProps;
      ghost var start := w.Written();
      WireNone(start);
      ghost var done := Emit(w, ATTR_LIGHTCOLOR, U32(body.color), start, []);
      done := Emit(w, ATTR_LIGHTLEVEL, U32(body.level), start, done);
      done := Emit(w, ATTR_LIGHTTICKS, U32(body.lightTicks), start, done);
      done := Emit(w, ATTR_LIGHTINTERVAL, U32(body.lightInterval), start, done);
      assert done == Details(body);
    }

    method EmitNumbers(w: PropWriteStream, code: byte, xs: seq<int32>, ghost start: seq<byte>, ghost done: seq<Prop>)
      returns (ghost more: seq<Prop>)
      requires w.Valid() && w.Written() == start + Wire(done)
      modifies w, w.buffer
      ensures w.Valid() && (w.buffer == old(w.buffer) || fresh(w.buffer))
      ensures more == done + Listed(code, xs) && w.Written() == start + Wire(more)
    {
      hide Wire, I32;
      more := done;
      assert xs[0..] == xs;
      for i := 0 to |xs|
        invariant w.Valid() && (w.buffer == old(w.buffer) || fresh(w.buffer))
        invariant w.Written() == start + Wire(more)
        invariant more + Listed(code, xs[i..]) == done + Listed(code, xs)
      {
        assert xs[i..][1..] == xs[i + 1..];
        more := Emit(w, code, I32(xs[i]), start, more);
      }
      assert xs[|xs|..] == [];
    }

    method EmitIntervals(w: PropWriteStream, xs: seq<Interval>, ghost start: seq<byte>, ghost done: seq<Prop>)
      returns (ghost more: seq<Prop>)
      requires w.Valid() && w.Written() == start + Wire(done)
      modifies w, w.buffer
      ensures w.Valid() && (w.buffer == old(w.buffer) || fresh(w.buffer))
      ensures more == done + IntervalProps(xs) && w.Written() == start + Wire(more)
    {
      hide Wire, IntervalImage;
      more := done;
      assert xs[0..] == xs;
      for i := 0 to |xs|
        invariant w.Valid() && (w.buffer == old(w.buffer) || fresh(w.buffer))
        invariant w.Written() == start + Wire(more)
        invariant more + IntervalProps(xs[i..]) == done + IntervalProps(xs)
      {
        assert xs[i..][1..] == xs[i + 1..];
        more := Emit(w, ATTR_INTERVALDATA, IntervalImage(xs[i]), start, more);
      }
      assert xs[|xs|..] == [];
    }

    method EmitOutfits(w: PropWriteStream, xs: seq<Outfit>, ghost start: seq<byte>, ghost done: seq<Prop>)
      returns (ghost more: seq<Prop>)
      requires w.Valid() && w.Written() == start + Wire(done)
      modifies w, w.buffer
      ensures w.Valid() && (w.buffer == old(w.buffer) || fresh(w.buffer))
      ensures more == done + OutfitProps(xs) && w.Written() == start + Wire(more)
    {
      hide Wire, OutfitImage;
      more := done;
      assert xs[0..] == xs;
      for i := 0 to |xs|
        invariant w.Valid() && (w.buffer == old(w.buffer) || fresh(w.buffer))
        invariant w.Written() == start + Wire(more)
        invariant more + OutfitProps(xs[i..]) == done + OutfitProps(xs)
      {
        assert xs[i..][1..] == xs[i + 1..];
        more := Emit(w, ATTR_OUTFIT, OutfitImage(xs[i]), start, more);
      }
      assert xs[|xs|..] == [];
    }

    // -------------------------------------------------------------- reading

    method SetTicks(n: int32)
      modifies `ticks
      ensures ticks == n
    {
      ticks := n;
    }

    method TakeNumber(code: byte, stream: PropStream) returns (ok: bool, image: seq<byte>)
      requires stream.Valid() && body.Sound() && body.Width(code) >= 0
      modifies stream
      ensures stream.Valid() && ok == (body.Width(code) <= |stream.data| - old(stream.p))
      ensures ok ==> |image| == body.Width(code) && stream.p == old(stream.p) + |image| && image == stream.data[old(stream.p)..stream.p]
      ensures !ok ==> stream.p == old(stream.p)
    {
      ok, image := stream.GetType(body.Width(code));
    }

    /** `unserializeProp` of the class, falling back to the base class. */
    method UnserializeProp(code: byte, stream: PropStream) returns (ok: bool)
      requires stream.Valid() && body.Sound()
      modifies this, stream
      ensures stream.Valid() && body.Sound()
      ensures ok == (0 <= old(body).Width(code) <= |stream.data| - old(stream.p))
      ensures ok ==> stream.p == old(stream.p) + old(body).Width(code)
      ensures ok ==> Now() == Take(old(Now()), code, stream.data[old(stream.p)..stream.p])
      ensures !ok ==> Now() == old(Now()) && stream.p == old(stream.p)
    {
      hide FromI32, FromU32, FromInterval, FromOutfit;
      if body.Width(code) < 0 {
        return false;
      }
      var image;
      ok, image := TakeNumber(code, stream);
      if !ok {
        return;
      }
      if code == ATTR_TYPE {
        kind := FromI32(image);
      } else if code == ATTR_ID {
        id := FromI32(image);
      } else if code == ATTR_TICKS {
        ticks := FromI32(image);
      } else if code == ATTR_BUFF {
        buff := FromI32(image) != 0;
      } else if code == ATTR_SUBID {
        subId := FromU32(image);
      } else if code == ATTR_END {
        return;
      } else {
        UnserializeOwn(code, image);
      }
    }

    /** The attributes of the subclass. */
    method UnserializeOwn(code: byte, image: seq<byte>)
      requires body.Sound() && body.Width(code) == |image|
      requires code !in {ATTR_TYPE, ATTR_ID, ATTR_TICKS, ATTR_BUFF, ATTR_SUBID, ATTR_END}
      modifies `body, `ticks
      ensures body.Sound() && Now() == Take(old(Now()), code, image)
    {
      hide FromI32, FromU32, FromInterval, FromOutfit, Wrap;
      match body {
        case Plain => assert false;
        case Attributes(skills, stats, i, j) =>
          if code == ATTR_SKILLS {
            body := body.(skills := skills[i := FromI32(image)], currentSkill := i + 1);
          } else {
            body := body.(stats := stats[j := FromI32(image)], currentStat := j + 1);
          }
        case Regeneration(_, _, _, _) =>
          if code == ATTR_HEALTHTICKS {
            body := body.(healthTicks := FromU32(image));
          } else if code == ATTR_HEALTHGAIN {
            body := body.(healthGain := FromU32(image));
          } else if code == ATTR_MANATICKS {
            body := body.(manaTicks := FromU32(image));
          } else {
            body := body.(manaGain := FromU32(image));
          }
        case Soul(_, _) =>
          if code == ATTR_SOULGAIN {
            body := body.(soulGain := FromU32(image));
          } else {
            body := body.(soulTicks := FromU32(image));
          }
        case Damage(_, _, _, list) =>
          if code == ATTR_DELAYED {
            body := body.(delayed := image[0] != 0);
          } else if code == ATTR_PERIODDAMAGE {
            body := body.(periodDamage := FromI32(image));
          } else if code == ATTR_OWNER {
            body := body.(owner := FromU32(image));
          } else {
            var i := FromInterval(image);
            body := body.(damageList := list + [i]);
            if ticks != FOREVER {
              SetTicks(Wrap(ticks + i.interval));
            }
          }
        case Outfits(outfits) =>
          body := Outfits(outfits + [FromOutfit(image)]);
        case Speed(outfits, _, _, _, _, _) =>
          if code == ATTR_OUTFIT {
            body := body.(outfits := outfits + [FromOutfit(image)]);
          } else if code == ATTR_SPEEDDELTA {
            body := body.(speedDelta := FromI32(image));
          } else if code == ATTR_FORMULA_MINA {
            body := body.(mina := FromU32(image));
          } else if code == ATTR_FORMULA_MINB {
            body := body.(minb := FromU32(image));
          } else if code == ATTR_FORMULA_MAXA {
            body := body.(maxa := FromU32(image));
          } else {
            body := body.(maxb := FromU32(image));
          }
        case Light(_, _, _, _) =>
          if code == ATTR_LIGHTCOLOR {
            body := body.(color := FromU32(image));
          } else if code == ATTR_LIGHTLEVEL {
            body := body.(level := FromU32(image));
          } else if code == ATTR_LIGHTTICKS {
            body := body.(lightTicks := FromU32(image));
          } else {
            body := body.(lightInterval := FromU32(image));
          }
      }
    }

    /** `unserialize`: attributes up to END, the end of the stream, or one that does not fit. */
    method Unserialize(stream: PropStream) returns (ok: bool)
      requires stream.Valid() && body.Sound()
      modifies this, stream
      ensures stream.Valid() && body.Sound() && stream.p >= old(stream.p)
      ensures Loaded(ok, Now(), stream.p) == Load(old(Now()), stream.data, old(stream.p))
    {
      hide Take, Load;
      hide Body.Width;
      var more, code := stream.GetByte();
      LoadUnfolds(old(Now()), stream.data, old(stream.p));
      while more && code != ATTR_END
        invariant stream.Valid() && body.Sound() && stream.p >= old(stream.p)
        invariant more ==> stream.p > 0 && code == stream.data[stream.p - 1]
        invariant !more ==> stream.p == |stream.data|
        invariant Load(old(Now()), stream.data, old(stream.p)) == Load(Now(), stream.data, if more then stream.p - 1 else stream.p)
        decreases |stream.data| - stream.p, more
      {
        ghost var v, q := Now(), stream.p;
        var took := UnserializeProp(code, stream);
        LoadUnfolds(v, stream.data, q - 1);
        if !took {
          return false;
        }
        more, code := stream.GetByte();
      }
      LoadUnfolds(Now(), stream.data, if more then stream.p - 1 else stream.p);
      return true;
    }
  }

  lemma LoadUnfolds(v: Value, s: seq<byte>, p: nat)
    requires v.body.Sound() && p <= |s|
    ensures Load(v, s, p) ==
            if p == |s| then Loaded(true, v, p)
            else if s[p] == ATTR_END then Loaded(true, v, p + 1)
            else
              var w := v.body.Width(s[p]);
              if w < 0 || |s| - (p + 1) < w then Loaded(false, v, p + 1)
              else Load(Take(v, s[p], s[p + 1..p + 1 + w]), s, p + 1 + w)
  {
  }

  /** `createCondition` from a stream: the five base attributes in their order, then the class the type asks for. */
  method CreateCondition(stream: PropStream) returns (c: Condition?)
    requires stream.Valid()
    modifies stream
    ensures stream.Valid() && stream.p >= old(stream.p)
    ensures c == null <==> !HeaderOk(stream.data, old(stream.p))
    ensures c != null ==> fresh(c) && stream.p == old(stream.p) + HEADER_SIZE && c.Now() == Create(stream.data, old(stream.p))
  {
    hide FromI32, FromU32, Known, NewBody, DamageKind;
    var ok, kind := GetAttribute(ATTR_TYPE, stream);
    if !ok {
      return null;
    }
    var id, ticks, buff, subId;
    ok, id := GetAttribute(ATTR_ID, stream);
    if !ok {
      return null;
    }
    ok, ticks := GetAttribute(ATTR_TICKS, stream);
    if !ok {
      return null;
    }
    ok, buff := GetAttribute(ATTR_BUFF, stream);
    if !ok {
      return null;
    }
    ok, subId := GetAttribute(ATTR_SUBID, stream);
    if !ok || !Known(FromI32(kind)) {
      return null;
    }
    c := new Condition(FromI32(kind), FromI32(id), FromI32(ticks), FromI32(buff) != 0, FromU32(subId));
  }

  /** `getByte` of an expected code, then `getLong`. */
  method GetAttribute(code: byte, stream: PropStream) returns (ok: bool, image: seq<byte>)
    requires stream.Valid()
    modifies stream
    ensures stream.Valid() && stream.p >= old(stream.p)
    ensures ok == (old(stream.p) + 5 <= |stream.data| && stream.data[old(stream.p)] == code)
    ensures ok ==> stream.p == old(stream.p) + 5 && |image| == 4 && image == stream.data[old(stream.p) + 1..old(stream.p) + 5]
  {
    image := [];
    var attr;
    ok, attr := stream.GetByte();
    if !ok || attr != code {
      return false, image;
    }
    ok, image := stream.GetType(4);
  }

  function Values(cs: seq<Condition>): (vs: seq<Value>)
    reads cs
    ensures |vs| == |cs| && forall i :: 0 <= i < |cs| ==> vs[i] == cs[i].Now()
  {
    seq(|cs|, i requires 0 <= i < |cs| reads cs => cs[i].Now())
  }

  lemma ColumnAt(vs: seq<Value>, i: nat)
    requires i < |vs|
    ensures Column(vs[i..]) == (if Stored(vs[i]) then Image(vs[i]) + [ATTR_END] else []) + Column(vs[i + 1..])
  {
    hide Image, Stored;
    assert vs[i..][1..] == vs[i + 1..];
  }

  lemma ColumnEnds(vs: seq<Value>)
    ensures Column(vs[|vs|..]) == []
  {
  }

  method SaveOne(c: Condition, w: PropWriteStream)
    requires w.Valid()
    modifies w, w.buffer
    ensures w.Valid() && (w.buffer == old(w.buffer) || fresh(w.buffer))
    ensures w.Written() == old(w.Written()) + (if Stored(c.Now()) then Image(c.Now()) + [ATTR_END] else [])
    ensures Stored(c.Now()) <==> (c.ticks > 0 && c.id != 0) || c.kind == 0x40_0000
  {
    hide Image;
    if (c.ticks > 0 && c.id != COMBAT) || c.kind == GAMEMASTER {
      c.Serialize(w);
      w.AddType([ATTR_END]);
    }
  }

  /** The player saver's loop over the conditions. */
  method SaveConditions(cs: seq<Condition>) returns (w: PropWriteStream)
    ensures fresh(w) && w.Valid() && w.Written() == Column(Values(cs))
  {
    hide Image, Stored, Column;
    w := new PropWriteStream();
    ghost var vs := Values(cs);
    assert vs[0..] == vs;
    for i := 0 to |cs|
      invariant w.Valid() && fresh(w) && fresh(w.buffer)
      invariant w.Written() + Column(vs[i..]) == Column(vs)
    {
      ColumnAt(vs, i);
      SaveOne(cs[i], w);
    }
    ColumnEnds(vs);
  }

  /** One turn of the player loader's loop. */
  method LoadOne(stream: PropStream) returns (c: Condition?, ok: bool)
    requires stream.Valid()
    modifies stream
    ensures stream.Valid() && stream.p >= old(stream.p)
    ensures c == null ==> LoadColumn(stream.data, old(stream.p)) == []
    ensures c != null ==> fresh(c) && stream.p > old(stream.p)
    ensures c != null ==> LoadColumn(stream.data, old(stream.p)) == (if ok then [c.Now()] else []) + LoadColumn(stream.data, stream.p)
  {
    hide Load, HeaderOk, Create;
    ok := false;
    c := CreateCondition(stream);
    if c != null {
      ok := c.Unserialize(stream);
    }
  }

  /** The player loader's loop. */
  method LoadConditions(stream: PropStream) returns (cs: seq<Condition>)
    requires stream.Valid() && stream.p == 0
    modifies stream
    ensures Values(cs) == LoadColumn(stream.data, 0)
  {
    hide LoadColumn;
    cs := [];
    while true
      invariant stream.Valid() && fresh(cs)
      invariant Values(cs) + LoadColumn(stream.data, stream.p) == LoadColumn(stream.data, 0)
      decreases |stream.data| - stream.p
    {
      ghost var vs := Values(cs);
      var c, ok := LoadOne(stream);
      if c == null {
        return;
      }
      if ok {
        cs := cs + [c];
        assert Values(cs) == vs + [c.Now()];
      }
    }
  }

  /** Saving and loading every list of conditions: the stored ones come back restored, in order. */
  method SaveAndLoad(cs: seq<Condition>) returns (back: seq<Condition>)
    requires forall c :: c in cs ==> Classed(c.Now())
    ensures Values(back) == AllRestored(Values(cs))
  {
    hide Classed, Column, LoadColumn, AllRestored;
    var w := SaveConditions(cs);
    ghost var vs := Values(cs);
    var stream := new PropStream(w.buffer[..w.size]);
    back := LoadConditions(stream);
    forall v | v in vs ensures Classed(v) {
      var i :| 0 <= i < |vs| && vs[i] == v;
      assert cs[i] in cs;
    }
    SaveThenLoad(vs);
  }
}
