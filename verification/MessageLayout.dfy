/** The bytes of each message, field by field in the order of the protocol, and the record a decoder gets back
    from them. */
module MessageLayout {
  import opened Common
  import opened Bytes
  import opened WireSpec
  import opened WireProofs
  import opened Messages

  // ---------------------------------------------------------------- pieces

  function Cat(parts: seq<seq<byte>>): seq<byte> {
    if parts == [] then [] else parts[0] + Cat(parts[1..])
  }

  /** Least significant byte first. */
  lemma LittleEndian(n: nat)
    ensures n < U32_LIMIT ==>
              var s := Le32(n);
              s[0] as nat + 0x100 * s[1] as nat + 0x1_0000 * s[2] as nat + 0x100_0000 * s[3] as nat == n
    ensures Le64(n) == Le32(n % U32_LIMIT) + Le32(n / U32_LIMIT)
  {
    if n < U32_LIMIT { WordParts(n); }
  }

  lemma WordParts(n: nat)
    requires n < U32_LIMIT
    ensures n == n % 256 + 0x100 * (n / 256 % 256) + 0x1_0000 * (n / 65536 % 256) + 0x100_0000 * (n / 16777216 % 256)
  {
    var a, b := n / 256, n / 65536;
    assert n == n % 256 + 256 * a;
    assert a == a % 256 + 256 * b;
    assert b == b % 256 + 256 * (n / 16777216);
  }

  /** A string: its length with the NUL, its bytes, and from one to four zeros up to a multiple of four. */
  function StringBytes(s: seq<byte>): seq<byte> { Le32(|s| + 1) + s + Zeros(4 - |s| % 4) }

  function WordsBytes(ns: seq<nat>): seq<byte> { Le32(|ns|) + Cat(seq(|ns|, i requires 0 <= i < |ns| => Le32(ns[i]))) }
  function LongsBytes(ns: seq<nat>): seq<byte> { Le32(|ns|) + Cat(seq(|ns|, i requires 0 <= i < |ns| => Le64(ns[i]))) }

  function StringsBytes(ss: seq<seq<byte>>): seq<byte> {
    Le32(|ss|) + Cat(seq(|ss|, i requires 0 <= i < |ss| => StringBytes(ss[i])))
  }

  function PairsBytes(ps: seq<(seq<byte>, seq<byte>)>): seq<byte> {
    Le32(|ps|) + Cat(seq(|ps|, i requires 0 <= i < |ps| => StringBytes(ps[i].0) + StringBytes(ps[i].1)))
  }

  lemma TextBytes(s: seq<byte>)
    requires NoNul(s)
    ensures Encode(Text, Str(s)) == StringBytes(s)
  {
    assert [0] + Zeros(Pad(|s| + 1)) == Zeros(4 - |s| % 4);
    assert s + [0] + Zeros(Pad(|s| + 1)) == s + ([0] + Zeros(Pad(|s| + 1)));
  }

  lemma PlainBytes(s: seq<byte>)
    requires Plain(s)
    ensures Typed(Text, Str(s)) && Encode(Text, Str(s)) == StringBytes(s)
  {
    TextBytes(s);
  }

  lemma {:induction false} ItemsCat(ty: Ty, vs: seq<Val>, parts: seq<seq<byte>>)
    requires |parts| == |vs| && forall i :: 0 <= i < |vs| ==> Typed(ty, vs[i])
    requires forall i :: 0 <= i < |vs| ==> Encode(ty, vs[i]) == parts[i]
    ensures EncodeItems(ty, vs) == Cat(parts)
    decreases |vs|
  {
    hide Encode, Typed;
    if vs != [] {
      ItemsCat(ty, vs[1..], parts[1..]);
    }
  }

  lemma {:induction false} FieldsCat(fields: seq<Ty>, vs: seq<Val>, parts: seq<seq<byte>>)
    requires |fields| == |vs| == |parts| && forall i :: 0 <= i < |vs| ==> Typed(fields[i], vs[i])
    requires forall i :: 0 <= i < |vs| ==> Encode(fields[i], vs[i]) == parts[i]
    ensures EncodeFields(fields, vs) == Cat(parts)
    decreases |vs|
  {
    hide Encode, Typed;
    if vs != [] {
      FieldsCat(fields[1..], vs[1..], parts[1..]);
    }
  }

  lemma RecordBytes(fields: seq<Ty>, vs: seq<Val>, parts: seq<seq<byte>>)
    requires |fields| == |vs| == |parts| && Typed(Rec(fields), Vals(vs)) && forall i :: 0 <= i < |vs| ==> Typed(fields[i], vs[i])
    requires forall i :: 0 <= i < |vs| ==> Encode(fields[i], vs[i]) == parts[i]
    ensures Encode(Rec(fields), Vals(vs)) == Cat(parts)
  {
    FieldsCat(fields, vs, parts);
  }

  lemma NumbersBytes(ty: Ty, ns: seq<nat>)
    requires (ty == U32 && Words(ns)) || (ty == U64 && Longs(ns))
    requires |ns| < U32_LIMIT
    ensures Typed(List(ty), Numbers(ns))
    ensures Encode(List(ty), Numbers(ns)) == if ty == U32 then WordsBytes(ns) else LongsBytes(ns)
  {
    var parts := if ty == U32 then seq(|ns|, i requires 0 <= i < |ns| => Le32(ns[i]))
                 else seq(|ns|, i requires 0 <= i < |ns| => Le64(ns[i]));
    ItemsCat(ty, Numbers(ns).vs, parts);
  }

  lemma ListOfStringsBytes(ss: seq<seq<byte>>)
    requires |ss| < U32_LIMIT && forall i :: 0 <= i < |ss| ==> NoNul(ss[i])
    ensures Typed(List(Text), Strings(ss)) && Encode(List(Text), Strings(ss)) == StringsBytes(ss)
  {
    var parts := seq(|ss|, i requires 0 <= i < |ss| => StringBytes(ss[i]));
    forall i | 0 <= i < |ss| ensures Encode(Text, Strings(ss).vs[i]) == parts[i] { TextBytes(ss[i]); }
    ItemsCat(Text, Strings(ss).vs, parts);
  }

  lemma PairBytes(p: (seq<byte>, seq<byte>))
    requires NoNul(p.0) && NoNul(p.1)
    ensures
      var v := Vals([Str(p.0), Str(p.1)]);
      Typed(Rec([Text, Text]), v) && Encode(Rec([Text, Text]), v) == StringBytes(p.0) + StringBytes(p.1)
  {
    TextBytes(p.0);
    TextBytes(p.1);
    var parts := [StringBytes(p.0), StringBytes(p.1)];
    RecordBytes([Text, Text], [Str(p.0), Str(p.1)], parts);
    assert Cat(parts) == parts[0] + (parts[1] + Cat(parts[1..][1..]));
  }

  lemma ListOfPairsBytes(ps: seq<(seq<byte>, seq<byte>)>)
    requires |ps| < U32_LIMIT && forall i :: 0 <= i < |ps| ==> NoNul(ps[i].0) && NoNul(ps[i].1)
    ensures Typed(KV_LIST, Pairs(ps)) && Encode(KV_LIST, Pairs(ps)) == PairsBytes(ps)
  {
    var ty, vs := Rec([Text, Text]), Pairs(ps).vs;
    var parts := seq(|ps|, i requires 0 <= i < |ps| => StringBytes(ps[i].0) + StringBytes(ps[i].1));
    forall i | 0 <= i < |ps| ensures Typed(ty, vs[i]) && Encode(ty, vs[i]) == parts[i] { PairBytes(ps[i]); }
    ItemsCat(ty, vs, parts);
  }

  // ---------------------------------------------------------------- positional records

  lemma FormatAndExtentBytes(m: BufferPool)
    requires BufferPoolInRange(m)
    ensures
      var format, extent := Vals([Num(m.fourcc), Num(m.modifier), Num(m.planes)]), Vals([Num(m.width), Num(m.height)]);
      && Typed(BUFFER_FORMAT, format) && Encode(BUFFER_FORMAT, format) == Cat([Le32(m.fourcc), Le64(m.modifier), Le32(m.planes)])
      && Typed(EXTENT, extent) && Encode(EXTENT, extent) == Cat([Le32(m.width), Le32(m.height)])
  {
    hide Cat;
    RecordBytes([U32, U64, U32], [Num(m.fourcc), Num(m.modifier), Num(m.planes)], [Le32(m.fourcc), Le64(m.modifier), Le32(m.planes)]);
    RecordBytes([U32, U32], [Num(m.width), Num(m.height)], [Le32(m.width), Le32(m.height)]);
  }

  lemma ArraysBytes(m: BufferPool)
    requires BufferPoolInRange(m)
    ensures Typed(List(U32), Numbers(m.strides)) && Encode(List(U32), Numbers(m.strides)) == WordsBytes(m.strides)
    ensures Typed(List(U32), Numbers(m.offsets)) && Encode(List(U32), Numbers(m.offsets)) == WordsBytes(m.offsets)
    ensures Typed(List(U64), Numbers(m.sizes)) && Encode(List(U64), Numbers(m.sizes)) == LongsBytes(m.sizes)
  {
    hide Typed, Encode, WordsBytes, LongsBytes;
    NumbersBytes(U32, m.strides);
    NumbersBytes(U32, m.offsets);
    NumbersBytes(U64, m.sizes);
  }

  lemma ScalarBytes(n: nat)
    ensures n < U32_LIMIT ==> Typed(U32, Num(n)) && Encode(U32, Num(n)) == Le32(n)
    ensures n < U64_LIMIT ==> Typed(U64, Num(n)) && Encode(U64, Num(n)) == Le64(n)
  {
  }

  lemma EnumBytes(n: nat, limit: nat)
    requires n < limit
    ensures Typed(Enum(limit), Num(n)) && Encode(Enum(limit), Num(n)) == Le32(n)
  {
  }

  /** The bytes of a `buffer_pool`, and the record read back from them. */
  lemma BufferPoolTravels(m: BufferPool)
    requires BufferPoolInRange(m)
    ensures Typed(BUFFER_POOL, OfBufferPool(m))
    ensures Encode(BUFFER_POOL, OfBufferPool(m)) ==
            Cat([Le64(m.generation), Le32(m.flags), Le32(m.count),
                 Cat([Le32(m.fourcc), Le64(m.modifier), Le32(m.planes)]), Cat([Le32(m.width), Le32(m.height)]),
                 WordsBytes(m.strides), WordsBytes(m.offsets), LongsBytes(m.sizes)])
    ensures
      var r := DecodeMessage(BUFFER_POOL, Encode(BUFFER_POOL, OfBufferPool(m)));
      r.Got? && r.rest == [] && ToBufferPool(r.value) == m
  {
    hide Encode, DecodeMessage, BufferPoolInRange, Cat, WordsBytes, LongsBytes, Numbers, Survives;
    BufferPoolSurvives(m);
    Survived(BUFFER_POOL, OfBufferPool(m));
    BufferPoolBack(m);
    ArraysBytes(m);
    FormatAndExtentBytes(m);
    BufferPoolScalarBytes(m);
    hide Typed;
    RecordBytes(BUFFER_POOL.fields, OfBufferPool(m).vs,
      [Le64(m.generation), Le32(m.flags), Le32(m.count),
       Cat([Le32(m.fourcc), Le64(m.modifier), Le32(m.planes)]), Cat([Le32(m.width), Le32(m.height)]),
       WordsBytes(m.strides), WordsBytes(m.offsets), LongsBytes(m.sizes)]);
  }

  lemma Survived(ty: Ty, v: Val)
    requires Survives(ty, v)
    ensures Typed(ty, v) && DecodeMessage(ty, Encode(ty, v)) == Got(v, [])
  {
  }

  lemma BufferPoolScalarBytes(m: BufferPool)
    requires BufferPoolInRange(m)
    ensures Typed(U64, Num(m.generation)) && Encode(U64, Num(m.generation)) == Le64(m.generation)
    ensures Typed(U32, Num(m.flags)) && Encode(U32, Num(m.flags)) == Le32(m.flags)
    ensures Typed(U32, Num(m.count)) && Encode(U32, Num(m.count)) == Le32(m.count)
  {
  }

  lemma BufferPoolBack(m: BufferPool)
    ensures ToBufferPool(OfBufferPool(m)) == m
  {
  }

  /** The bytes of an `mpris_snapshot`, and the record read back from them. */
  lemma MprisTravels(m: Mpris)
    requires m.state < 3 && Plain(m.title) && Plain(m.artist) && Plain(m.album)
    requires Plain(m.albumArtist) && Plain(m.artUrl) && Plain(m.previousArtUrl)
    ensures Typed(MPRIS_SNAPSHOT, OfMpris(m))
    ensures Encode(MPRIS_SNAPSHOT, OfMpris(m)) ==
            Cat([Le32(m.state), StringBytes(m.title), StringBytes(m.artist), StringBytes(m.album),
                 StringBytes(m.albumArtist), StringBytes(m.artUrl), StringBytes(m.previousArtUrl)])
    ensures
      var r := DecodeMessage(MPRIS_SNAPSHOT, Encode(MPRIS_SNAPSHOT, OfMpris(m)));
      r.Got? && r.rest == [] && ToMpris(r.value) == m
  {
    hide Encode, Typed, DecodeMessage, Cat, StringBytes, Survives, Plain;
    MprisSurvives(m);
    Survived(MPRIS_SNAPSHOT, OfMpris(m));
    EnumBytes(m.state, 3);
    PlainBytes(m.title);
    PlainBytes(m.artist);
    PlainBytes(m.album);
    PlainBytes(m.albumArtist);
    PlainBytes(m.artUrl);
    PlainBytes(m.previousArtUrl);
    RecordBytes(MPRIS_SNAPSHOT.fields, OfMpris(m).vs,
      [Le32(m.state), StringBytes(m.title), StringBytes(m.artist), StringBytes(m.album),
       StringBytes(m.albumArtist), StringBytes(m.artUrl), StringBytes(m.previousArtUrl)]);
  }

  /** The bytes of an `event_subscription_result`, and the record read back from them. */
  lemma SubscriptionResultTravels(m: SubscriptionResult)
    requires m.revision < U64_LIMIT && m.status < 5 && Plain(m.reason)
    requires |m.kinds| < U32_LIMIT && forall i :: 0 <= i < |m.kinds| ==> Plain(m.kinds[i])
    ensures Typed(SUBSCRIPTION_RESULT, OfSubscriptionResult(m))
    ensures Encode(SUBSCRIPTION_RESULT, OfSubscriptionResult(m)) ==
            Cat([Le64(m.revision), Le32(m.status), StringsBytes(m.kinds), StringBytes(m.reason)])
    ensures
      var r := DecodeMessage(SUBSCRIPTION_RESULT, Encode(SUBSCRIPTION_RESULT, OfSubscriptionResult(m)));
      r.Got? && r.rest == [] && ToSubscriptionResult(r.value) == m
  {
    hide Encode, Typed, DecodeMessage, Cat, StringBytes, StringsBytes, Strings, StringsOf, Survives;
    SubscriptionResultSurvives(m);
    Survived(SUBSCRIPTION_RESULT, OfSubscriptionResult(m));
    ScalarBytes(m.revision);
    EnumBytes(m.status, 5);
    ListOfStringsBytes(m.kinds);
    PlainBytes(m.reason);
    StringsBack(m.kinds);
    RecordBytes(SUBSCRIPTION_RESULT.fields, OfSubscriptionResult(m).vs,
      [Le64(m.revision), Le32(m.status), StringsBytes(m.kinds), StringBytes(m.reason)]);
  }

  /** The bytes of a `renderer_init`, and the record read back from them. */
  lemma RendererInitTravels(m: RendererInit)
    requires m.protocol < U32_LIMIT && m.spawn < U32_LIMIT && Plain(m.userProperties)
    requires |m.settings| < U32_LIMIT
    requires forall i :: 0 <= i < |m.settings| ==> Plain(m.settings[i].0) && Plain(m.settings[i].1)
    ensures Typed(RENDERER_INIT, OfRendererInit(m))
    ensures Encode(RENDERER_INIT, OfRendererInit(m)) ==
            Cat([Le32(m.protocol), Le32(m.spawn), PairsBytes(m.settings), StringBytes(m.userProperties)])
    ensures
      var r := DecodeMessage(RENDERER_INIT, Encode(RENDERER_INIT, OfRendererInit(m)));
      r.Got? && r.rest == [] && ToRendererInit(r.value) == m
  {
    hide Encode, Typed, DecodeMessage, Cat, StringBytes, PairsBytes, Pairs, PairsOf, Survives;
    RendererInitSurvives(m);
    Survived(RENDERER_INIT, OfRendererInit(m));
    ScalarBytes(m.protocol);
    ScalarBytes(m.spawn);
    ListOfPairsBytes(m.settings);
    PlainBytes(m.userProperties);
    PairsBack(m.settings);
    RecordBytes(RENDERER_INIT.fields, OfRendererInit(m).vs,
      [Le32(m.protocol), Le32(m.spawn), PairsBytes(m.settings), StringBytes(m.userProperties)]);
  }

  lemma StringsBack(ss: seq<seq<byte>>)
    ensures StringsOf(Strings(ss)) == ss
  {
  }

  lemma PairsBack(ps: seq<(seq<byte>, seq<byte>)>)
    ensures PairsOf(Pairs(ps)) == ps
  {
  }

  // ---------------------------------------------------------------- tagged records

  /** One field: its tag, its kind, the length of its value, and the value. */
  function Tagged32(tag: nat, n: nat): seq<byte> { Le32(tag) + Le32(2) + Le32(4) + Le32(n) }
  function Tagged64(tag: nat, n: nat): seq<byte> { Le32(tag) + Le32(4) + Le32(8) + Le64(n) }
  function TaggedEnum(tag: nat, n: nat): seq<byte> { Le32(tag) + Le32(12) + Le32(4) + Le32(n) }
  function TaggedString(tag: nat, s: seq<byte>): seq<byte> { Le32(tag) + Le32(8) + Le32(|StringBytes(s)|) + StringBytes(s) }

  /** A record: revision 1, the length of its body, its body. */
  function RecordOf(body: seq<byte>): seq<byte> { Le32(1) + Le32(|body|) + body }

  /** An event: a record whose one field, of tag 1 and kind 11, is a record. */
  function EventOf(body: seq<byte>): seq<byte> {
    RecordOf(Le32(1) + Le32(11) + Le32(|RecordOf(body)|) + RecordOf(body))
  }

  function FieldBytes(tag: nat, ty: Ty, v: Val): seq<byte> {
    match ty
    case U64 => Tagged64(tag, N(v))
    case Text => TaggedString(tag, S(v))
    case Enum(_) => TaggedEnum(tag, N(v))
    case _ => Tagged32(tag, N(v))
  }

  lemma SimpleBytes(tag: nat, ty: Ty, v: Val)
    requires SimpleValue(ty, v)
    ensures Pack(Field(Entry(tag, KindOf(ty), ty), v)) == FieldBytes(tag, ty, v)
  {
    if ty.Text? { TextBytes(v.s); }
  }

  lemma {:induction false} PackedCat(fs: seq<Raw>, parts: seq<seq<byte>>)
    requires |fs| == |parts| && forall i :: 0 <= i < |fs| ==> Pack(fs[i]) == parts[i]
    ensures PackAll(fs) == Cat(parts)
    decreases |fs|
  {
    hide Pack;
    if fs != [] {
      PackedCat(fs[1..], parts[1..]);
    }
  }

  /** The fields of a record, in the order of their tags. */
  function FieldsBytes(tys: seq<Ty>, vs: seq<Val>): seq<seq<byte>>
    requires |tys| == |vs|
  {
    seq(|tys|, i requires 0 <= i < |tys| => FieldBytes(i + 1, tys[i], vs[i]))
  }

  lemma SimpleRecordBytes(tys: seq<Ty>, vs: seq<Val>)
    requires SimpleRecord(tys, vs)
    ensures
      var record, v := Tagged(Numbered(tys)), Vals(vs);
      Typed(record, v) && Encode(record, v) == RecordOf(Cat(FieldsBytes(tys, vs)))
  {
    hide Encode, FieldBytes, Cat;
    RecordSendable(tys, vs);
    RecordTyped(tys, vs);
    var fs := Raws(Numbered(tys), vs);
    forall i | 0 <= i < |fs| ensures Pack(fs[i]) == FieldsBytes(tys, vs)[i] {
      SimpleBytes(i + 1, tys[i], vs[i]);
    }
    PackedCat(fs, FieldsBytes(tys, vs));
    TaggedBytes(Numbered(tys), vs);
  }

  lemma RecordTyped(tys: seq<Ty>, vs: seq<Val>)
    requires SimpleRecord(tys, vs)
    ensures forall i :: 0 <= i < |vs| ==> Typed(Numbered(tys)[i].ty, vs[i])
  {
  }

  lemma TaggedBytes(entries: seq<Entry>, vs: seq<Val>)
    requires Typed(Tagged(entries), Vals(vs)) && |entries| == |vs| && forall i :: 0 <= i < |vs| ==> Typed(entries[i].ty, vs[i])
    ensures Encode(Tagged(entries), Vals(vs)) == RecordOf(PackAll(Raws(entries, vs)))
  {
    hide PackAll, Raws;
  }

  lemma EventBytes(tys: seq<Ty>, vs: seq<Val>)
    requires SimpleRecord(tys, vs)
    ensures
      var v := Vals([Vals(vs)]);
      && Typed(Event(tys), v) && Encode(Event(tys), v) == EventOf(Cat(FieldsBytes(tys, vs)))
      && DecodeMessage(Event(tys), EventOf(Cat(FieldsBytes(tys, vs)))) == Got(v, [])
  {
    hide Cat, FieldsBytes, DecodeMessage, Survives, Raws;
    var record, inner := Tagged(Numbered(tys)), Vals(vs);
    EventSurvives(tys, vs);
    Survived(Event(tys), Vals([inner]));
    SimpleRecordBytes(tys, vs);
    OneFieldBytes(record, inner);
  }

  lemma OneFieldBytes(record: Ty, v: Val)
    requires record.Tagged? && Typed(record, v) && Typed(Tagged(Numbered([record])), Vals([v]))
    ensures Encode(Tagged(Numbered([record])), Vals([v])) ==
            RecordOf(Le32(1) + Le32(11) + Le32(|Encode(record, v)|) + Encode(record, v))
  {
    var entries := Numbered([record]);
    hide Encode;
    assert Typed(entries[0].ty, v);
    TaggedBytes(entries, [v]);
    var fs := Raws(entries, [v]);
    var part := Le32(1) + Le32(11) + Le32(|Encode(record, v)|) + Encode(record, v);
    assert Pack(fs[0]) == part;
    PackedCat(fs, [part]);
    assert Cat([part]) == part;
  }

  /** The bytes of a `render_target_capabilities` event, tag by tag, and the record read back from them. */
  lemma CapabilitiesTravel(m: Capabilities)
    requires m.revision < U64_LIMIT && m.referenceWidth < U32_LIMIT && m.referenceHeight < U32_LIMIT
    requires m.mode < U32_LIMIT && m.minWidth < U32_LIMIT && m.minHeight < U32_LIMIT && m.maxWidth < U32_LIMIT
    requires m.maxHeight < U32_LIMIT && m.widthAlignment < U32_LIMIT && m.heightAlignment < U32_LIMIT
    ensures
      var ty, v := Event(CapabilityTypes()), Vals([Vals(OfCapabilities(m))]);
      && Typed(ty, v)
      && Encode(ty, v) == EventOf(Cat([
           Tagged64(1, m.revision), Tagged32(2, m.referenceWidth), Tagged32(3, m.referenceHeight), Tagged32(4, m.mode),
           Tagged32(5, m.minWidth), Tagged32(6, m.minHeight), Tagged32(7, m.maxWidth), Tagged32(8, m.maxHeight),
           Tagged32(9, m.widthAlignment), Tagged32(10, m.heightAlignment)]))
      && var r := DecodeMessage(ty, Encode(ty, v)); r.Got? && r.rest == [] && ToCapabilities(r.value) == m
  {
    hide Encode, DecodeMessage, Cat, EventOf, Tagged32, Tagged64;
    EventBytes(CapabilityTypes(), OfCapabilities(m));
    assert FieldsBytes(CapabilityTypes(), OfCapabilities(m)) == [
      Tagged64(1, m.revision), Tagged32(2, m.referenceWidth), Tagged32(3, m.referenceHeight), Tagged32(4, m.mode),
      Tagged32(5, m.minWidth), Tagged32(6, m.minHeight), Tagged32(7, m.maxWidth), Tagged32(8, m.maxHeight),
      Tagged32(9, m.widthAlignment), Tagged32(10, m.heightAlignment)];
    CapabilitiesBack(m);
  }

  lemma CapabilitiesBack(m: Capabilities)
    ensures ToCapabilities(Vals([Vals(OfCapabilities(m))])) == m
  {
  }

  /** The bytes of a `configure_render_target` event, tag by tag, and the record read back from them. */
  lemma ConfigTravels(m: Config)
    requires m.revision < U64_LIMIT && m.capabilitiesRevision < U64_LIMIT && m.modifier < U64_LIMIT
    requires m.width < U32_LIMIT && m.height < U32_LIMIT && m.fourcc < U32_LIMIT && m.planes < U32_LIMIT
    requires m.syncMode < U32_LIMIT && m.color < U32_LIMIT && m.memHint < U32_LIMIT && m.count < U32_LIMIT
    requires m.path < 4 && m.source < 3
    ensures
      var ty, v := Event(ConfigTypes()), Vals([Vals(OfConfig(m))]);
      && Typed(ty, v)
      && Encode(ty, v) == EventOf(Cat([
           Tagged64(1, m.revision), Tagged64(2, m.capabilitiesRevision), Tagged32(3, m.width), Tagged32(4, m.height),
           Tagged32(5, m.fourcc), Tagged64(6, m.modifier), Tagged32(7, m.planes), Tagged32(8, m.syncMode), Tagged32(9, m.color),
           Tagged32(10, m.memHint), Tagged32(11, m.count), TaggedEnum(12, m.path), TaggedEnum(13, m.source)]))
      && var r := DecodeMessage(ty, Encode(ty, v)); r.Got? && r.rest == [] && ToConfig(r.value) == m
  {
    hide Encode, DecodeMessage, Cat, EventOf, Tagged32, Tagged64, TaggedEnum, FieldsBytes;
    EventBytes(ConfigTypes(), OfConfig(m));
    ConfigFields(m);
    ConfigBack(m);
  }

  lemma ConfigFields(m: Config)
    ensures FieldsBytes(ConfigTypes(), OfConfig(m)) == [
      Tagged64(1, m.revision), Tagged64(2, m.capabilitiesRevision), Tagged32(3, m.width), Tagged32(4, m.height),
      Tagged32(5, m.fourcc), Tagged64(6, m.modifier), Tagged32(7, m.planes), Tagged32(8, m.syncMode), Tagged32(9, m.color),
      Tagged32(10, m.memHint), Tagged32(11, m.count), TaggedEnum(12, m.path), TaggedEnum(13, m.source)]
  {
    hide Tagged32, Tagged64, TaggedEnum;
  }

  lemma ConfigBack(m: Config)
    ensures ToConfig(Vals([Vals(OfConfig(m))])) == m
  {
  }

  /** Enumerations of the records: how many values each has, as a reader takes them. */
  lemma EnumerationsTaken(n: nat)
    requires n < U32_LIMIT
    ensures Decode(MPRIS_SNAPSHOT.fields[0], Le32(n)).Got? <==> n in {0, 1, 2}
    ensures Decode(SUBSCRIPTION_RESULT.fields[1], Le32(n)).Got? <==> n in {0, 1, 2, 3, 4}
    ensures Decode(ConfigTypes()[11], Le32(n)).Got? <==> n in {0, 1, 2, 3}
    ensures Decode(ConfigTypes()[12], Le32(n)).Got? <==> n in {0, 1, 2}
  {
    assert Le32(n) + [] == Le32(n);
    WordRead(n, []);
  }

  /** The bytes of a `render_target_result` event, tag by tag, and the record read back from them. */
  lemma OutcomeTravels(m: Outcome)
    requires m.revision < U64_LIMIT && m.status < U32_LIMIT && m.width < U32_LIMIT && m.height < U32_LIMIT
    requires m.poolGeneration < U64_LIMIT && NoNul(m.message) && |m.message| <= MAX_TEXT && Utf8.Accepts(m.message)
    ensures
      var ty, v := Event(OutcomeTypes()), Vals([Vals(OfOutcome(m))]);
      && Typed(ty, v)
      && Encode(ty, v) == EventOf(Cat([
           Tagged64(1, m.revision), Tagged32(2, m.status), Tagged32(3, m.width), Tagged32(4, m.height),
           Tagged64(5, m.poolGeneration), TaggedString(6, m.message)]))
      && var r := DecodeMessage(ty, Encode(ty, v)); r.Got? && r.rest == [] && ToOutcome(r.value) == m
  {
    hide Encode, DecodeMessage, Cat, EventOf, Tagged32, Tagged64, TaggedString;
    EventBytes(OutcomeTypes(), OfOutcome(m));
    assert FieldsBytes(OutcomeTypes(), OfOutcome(m)) == [
      Tagged64(1, m.revision), Tagged32(2, m.status), Tagged32(3, m.width), Tagged32(4, m.height),
      Tagged64(5, m.poolGeneration), TaggedString(6, m.message)];
    OutcomeBack(m);
  }

  lemma OutcomeBack(m: Outcome)
    ensures ToOutcome(Vals([Vals(OfOutcome(m))])) == m
  {
  }
}
