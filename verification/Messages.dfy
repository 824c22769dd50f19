/** Messages of the protocol: the richest positional records, and the three tagged records with the
    events that carry them. Every message with fields in their ranges, positional strings free of NUL
    and tagged strings short and well-formed, can be written and is read back as it was. */
module Messages {
  import opened Common
  import opened Bytes
  import Utf8
  import opened WireSpec
  import opened WireProofs

  // ---------------------------------------------------------------- schemas

  const BUFFER_FORMAT := Rec([U32, U64, U32])
  const EXTENT := Rec([U32, U32])
  const BUFFER_POOL := Rec([U64, U32, U32, BUFFER_FORMAT, EXTENT, List(U32), List(U32), List(U64)])
  const MPRIS_SNAPSHOT := Rec([Enum(3), Text, Text, Text, Text, Text, Text])
  const SUBSCRIPTION_RESULT := Rec([U64, Enum(5), List(Text), Text])
  const KV_LIST := List(Rec([Text, Text]))
  const RENDERER_INIT := Rec([U32, U32, KV_LIST, Text])

  /** A tagged record whose fields carry the tags 1, 2, 3 and so on. */
  function Numbered(tys: seq<Ty>): (entries: seq<Entry>)
    ensures |entries| == |tys|
    ensures forall i :: 0 <= i < |tys| ==> entries[i] == Entry(i + 1, KindOf(tys[i]), tys[i])
  {
    seq(|tys|, i requires 0 <= i < |tys| => Entry(i + 1, KindOf(tys[i]), tys[i]))
  }

  function KindOf(ty: Ty): nat {
    match ty
    case U64 => 4
    case Text => 8
    case Tagged(_) => 11
    case Enum(_) => 12
    case _ => 2
  }

  function CapabilityTypes(): seq<Ty> { [U64, U32, U32, U32, U32, U32, U32, U32, U32, U32] }
  function ConfigTypes(): seq<Ty> { [U64, U64, U32, U32, U32, U64, U32, U32, U32, U32, U32, Enum(4), Enum(3)] }
  function OutcomeTypes(): seq<Ty> { [U64, U32, U32, U32, U64, Text] }

  /** An event whose one field is a tagged record. */
  function Event(tys: seq<Ty>): Ty { Tagged(Numbered([Tagged(Numbered(tys))])) }

  // ---------------------------------------------------------------- records

  datatype BufferPool = BufferPool(
    generation: nat, flags: nat, count: nat, fourcc: nat, modifier: nat, planes: nat, width: nat, height: nat,
    strides: seq<nat>, offsets: seq<nat>, sizes: seq<nat>)

  datatype Mpris = Mpris(state: nat, title: seq<byte>, artist: seq<byte>, album: seq<byte>,
                         albumArtist: seq<byte>, artUrl: seq<byte>, previousArtUrl: seq<byte>)

  datatype SubscriptionResult = SubscriptionResult(revision: nat, status: nat, kinds: seq<seq<byte>>, reason: seq<byte>)

  datatype RendererInit = RendererInit(
    protocol: nat, spawn: nat, settings: seq<(seq<byte>, seq<byte>)>, userProperties: seq<byte>)

  datatype Capabilities = Capabilities(
    revision: nat, referenceWidth: nat, referenceHeight: nat, mode: nat, minWidth: nat, minHeight: nat,
    maxWidth: nat, maxHeight: nat, widthAlignment: nat, heightAlignment: nat)

  datatype Config = Config(
    revision: nat, capabilitiesRevision: nat, width: nat, height: nat, fourcc: nat, modifier: nat, planes: nat,
    syncMode: nat, color: nat, memHint: nat, count: nat, path: nat, source: nat)

  datatype Outcome = Outcome(
    revision: nat, status: nat, width: nat, height: nat, poolGeneration: nat, message: seq<byte>)

  predicate Words(ns: seq<nat>) { forall i :: 0 <= i < |ns| ==> ns[i] < U32_LIMIT }
  predicate Longs(ns: seq<nat>) { forall i :: 0 <= i < |ns| ==> ns[i] < U64_LIMIT }

  /** A positional string: no NUL, and a length that leaves room for it in 32 bits. */
  predicate Plain(s: seq<byte>) { NoNul(s) && |s| <= U32_LIMIT - 2 }

  function Numbers(ns: seq<nat>): (v: Val)
    ensures v.Vals? && |v.vs| == |ns| && forall i :: 0 <= i < |ns| ==> v.vs[i] == Num(ns[i])
  {
    Vals(seq(|ns|, i requires 0 <= i < |ns| => Num(ns[i])))
  }

  function Strings(ss: seq<seq<byte>>): (v: Val)
    ensures v.Vals? && |v.vs| == |ss| && forall i :: 0 <= i < |ss| ==> v.vs[i] == Str(ss[i])
  {
    Vals(seq(|ss|, i requires 0 <= i < |ss| => Str(ss[i])))
  }

  function Pairs(ps: seq<(seq<byte>, seq<byte>)>): (v: Val)
    ensures v.Vals? && |v.vs| == |ps| && forall i :: 0 <= i < |ps| ==> v.vs[i] == Vals([Str(ps[i].0), Str(ps[i].1)])
  {
    Vals(seq(|ps|, i requires 0 <= i < |ps| => Vals([Str(ps[i].0), Str(ps[i].1)])))
  }

  function OfBufferPool(m: BufferPool): Val {
    Vals([Num(m.generation), Num(m.flags), Num(m.count), Vals([Num(m.fourcc), Num(m.modifier), Num(m.planes)]),
          Vals([Num(m.width), Num(m.height)]), Numbers(m.strides), Numbers(m.offsets), Numbers(m.sizes)])
  }

  function OfMpris(m: Mpris): Val {
    Vals([Num(m.state), Str(m.title), Str(m.artist), Str(m.album), Str(m.albumArtist), Str(m.artUrl), Str(m.previousArtUrl)])
  }

  function OfSubscriptionResult(m: SubscriptionResult): Val {
    Vals([Num(m.revision), Num(m.status), Strings(m.kinds), Str(m.reason)])
  }

  function OfRendererInit(m: RendererInit): Val {
    Vals([Num(m.protocol), Num(m.spawn), Pairs(m.settings), Str(m.userProperties)])
  }

  function OfCapabilities(m: Capabilities): seq<Val> {
    [Num(m.revision), Num(m.referenceWidth), Num(m.referenceHeight), Num(m.mode), Num(m.minWidth), Num(m.minHeight),
     Num(m.maxWidth), Num(m.maxHeight), Num(m.widthAlignment), Num(m.heightAlignment)]
  }

  function OfConfig(m: Config): seq<Val> {
    [Num(m.revision), Num(m.capabilitiesRevision), Num(m.width), Num(m.height), Num(m.fourcc), Num(m.modifier),
     Num(m.planes), Num(m.syncMode), Num(m.color), Num(m.memHint), Num(m.count), Num(m.path), Num(m.source)]
  }

  function OfOutcome(m: Outcome): seq<Val> {
    [Num(m.revision), Num(m.status), Num(m.width), Num(m.height), Num(m.poolGeneration), Str(m.message)]
  }

  // ---------------------------------------------------------------- records from values

  function N(v: Val): nat { if v.Num? then v.n else 0 }
  function S(v: Val): seq<byte> { if v.Str? then v.s else [] }
  function Items(v: Val): seq<Val> { if v.Vals? then v.vs else [] }
  function At(v: Val, i: nat): Val { if i < |Items(v)| then Items(v)[i] else Num(0) }

  function NumbersOf(v: Val): (ns: seq<nat>)
    ensures |ns| == |Items(v)| && forall i :: 0 <= i < |ns| ==> ns[i] == N(Items(v)[i])
  {
    seq(|Items(v)|, i requires 0 <= i < |Items(v)| => N(Items(v)[i]))
  }

  function StringsOf(v: Val): (ss: seq<seq<byte>>)
    ensures |ss| == |Items(v)| && forall i :: 0 <= i < |ss| ==> ss[i] == S(Items(v)[i])
  {
    seq(|Items(v)|, i requires 0 <= i < |Items(v)| => S(Items(v)[i]))
  }

  function PairsOf(v: Val): (ps: seq<(seq<byte>, seq<byte>)>)
    ensures |ps| == |Items(v)| && forall i :: 0 <= i < |ps| ==> ps[i] == (S(At(Items(v)[i], 0)), S(At(Items(v)[i], 1)))
  {
    seq(|Items(v)|, i requires 0 <= i < |Items(v)| => (S(At(Items(v)[i], 0)), S(At(Items(v)[i], 1))))
  }

  /** The out-struct a decoder fills from the values it reads. */
  function ToBufferPool(v: Val): BufferPool {
    BufferPool(N(At(v, 0)), N(At(v, 1)), N(At(v, 2)), N(At(At(v, 3), 0)), N(At(At(v, 3), 1)), N(At(At(v, 3), 2)),
               N(At(At(v, 4), 0)), N(At(At(v, 4), 1)), NumbersOf(At(v, 5)), NumbersOf(At(v, 6)), NumbersOf(At(v, 7)))
  }

  function ToMpris(v: Val): Mpris {
    Mpris(N(At(v, 0)), S(At(v, 1)), S(At(v, 2)), S(At(v, 3)), S(At(v, 4)), S(At(v, 5)), S(At(v, 6)))
  }

  function ToSubscriptionResult(v: Val): SubscriptionResult {
    SubscriptionResult(N(At(v, 0)), N(At(v, 1)), StringsOf(At(v, 2)), S(At(v, 3)))
  }

  function ToRendererInit(v: Val): RendererInit {
    RendererInit(N(At(v, 0)), N(At(v, 1)), PairsOf(At(v, 2)), S(At(v, 3)))
  }

  /** The one field of an event is its record; field `i` of that has tag `i + 1`. */
  function ToCapabilities(v: Val): Capabilities {
    var r := At(v, 0);
    Capabilities(N(At(r, 0)), N(At(r, 1)), N(At(r, 2)), N(At(r, 3)), N(At(r, 4)), N(At(r, 5)), N(At(r, 6)), N(At(r, 7)),
                 N(At(r, 8)), N(At(r, 9)))
  }

  function ToConfig(v: Val): Config {
    var r := At(v, 0);
    Config(N(At(r, 0)), N(At(r, 1)), N(At(r, 2)), N(At(r, 3)), N(At(r, 4)), N(At(r, 5)), N(At(r, 6)), N(At(r, 7)), N(At(r, 8)),
           N(At(r, 9)), N(At(r, 10)), N(At(r, 11)), N(At(r, 12)))
  }

  function ToOutcome(v: Val): Outcome {
    var r := At(v, 0);
    Outcome(N(At(r, 0)), N(At(r, 1)), N(At(r, 2)), N(At(r, 3)), N(At(r, 4)), S(At(r, 5)))
  }

  // ---------------------------------------------------------------- what is read back

  /** The message is written without error, and read back from exactly the bytes written. */
  ghost predicate Survives(ty: Ty, v: Val) {
    && Typed(ty, v) && Encodable(ty, v)
    && |Encode(ty, v)| % 4 == 0
    && DecodeMessage(ty, Encode(ty, v)) == Got(v, [])
  }

  predicate Fine(ty: Ty, v: Val) { WellFormed(ty) && Typed(ty, v) && Sendable(ty, v) }

  lemma FineSurvives(ty: Ty, v: Val)
    requires Fine(ty, v)
    ensures Survives(ty, v)
  {
    MessageRoundTrip(ty, v);
  }

  lemma NumbersFine(ty: Ty, ns: seq<nat>)
    requires |ns| < U32_LIMIT && ((ty == U32 && Words(ns)) || (ty == U64 && Longs(ns)))
    ensures Fine(List(ty), Numbers(ns))
  {
  }

  lemma FormatFine(fourcc: nat, modifier: nat, planes: nat)
    requires fourcc < U32_LIMIT && modifier < U64_LIMIT && planes < U32_LIMIT
    ensures Fine(BUFFER_FORMAT, Vals([Num(fourcc), Num(modifier), Num(planes)]))
  {
  }

  lemma ExtentFine(width: nat, height: nat)
    requires width < U32_LIMIT && height < U32_LIMIT
    ensures Fine(EXTENT, Vals([Num(width), Num(height)]))
  {
  }

  lemma RecordFine(fields: seq<Ty>, vs: seq<Val>)
    requires |fields| == |vs| && forall i :: 0 <= i < |fields| ==> Fine(fields[i], vs[i])
    ensures Fine(Rec(fields), Vals(vs))
  {
  }

  lemma ScalarFine(n: nat)
    ensures n < U32_LIMIT ==> Fine(U32, Num(n))
    ensures n < U64_LIMIT ==> Fine(U64, Num(n))
  {
  }

  lemma EnumFine(n: nat, limit: nat)
    requires n < limit <= U32_LIMIT
    ensures Fine(Enum(limit), Num(n))
  {
  }

  lemma TextFine(s: seq<byte>)
    requires Plain(s)
    ensures Fine(Text, Str(s))
  {
  }

  lemma StringsFine(ss: seq<seq<byte>>)
    requires |ss| < U32_LIMIT && forall i :: 0 <= i < |ss| ==> Plain(ss[i])
    ensures Fine(List(Text), Strings(ss))
  {
    forall i | 0 <= i < |ss| ensures Typed(Text, Strings(ss).vs[i]) && Sendable(Text, Strings(ss).vs[i]) {
      TextFine(ss[i]);
    }
  }

  lemma PairsFine(ps: seq<(seq<byte>, seq<byte>)>)
    requires |ps| < U32_LIMIT && forall i :: 0 <= i < |ps| ==> Plain(ps[i].0) && Plain(ps[i].1)
    ensures Fine(KV_LIST, Pairs(ps))
  {
    var v := Pairs(ps);
    forall i | 0 <= i < |ps| ensures Typed(Rec([Text, Text]), v.vs[i]) && Sendable(Rec([Text, Text]), v.vs[i]) {
      PairFine(ps[i]);
    }
  }

  lemma PairFine(p: (seq<byte>, seq<byte>))
    requires Plain(p.0) && Plain(p.1)
    ensures Fine(Rec([Text, Text]), Vals([Str(p.0), Str(p.1)]))
  {
    TextFine(p.0);
    TextFine(p.1);
    RecordFine([Text, Text], [Str(p.0), Str(p.1)]);
  }

  predicate BufferPoolInRange(m: BufferPool) {
    && m.generation < U64_LIMIT && m.flags < U32_LIMIT && m.count < U32_LIMIT && m.fourcc < U32_LIMIT
    && m.planes < U32_LIMIT && m.width < U32_LIMIT && m.height < U32_LIMIT && m.modifier < U64_LIMIT
    && Words(m.strides) && Words(m.offsets) && Longs(m.sizes)
    && |m.strides| < U32_LIMIT && |m.offsets| < U32_LIMIT && |m.sizes| < U32_LIMIT
  }

  lemma BufferPoolFine(m: BufferPool)
    requires BufferPoolInRange(m)
    ensures Fine(BUFFER_POOL, OfBufferPool(m))
  {
    hide Fine, BufferPoolInRange, Numbers;
    BufferPoolArrays(m);
    BufferPoolScalars(m);
    RecordFine(BUFFER_POOL.fields, OfBufferPool(m).vs);
  }

  lemma BufferPoolArrays(m: BufferPool)
    requires BufferPoolInRange(m)
    ensures Fine(List(U32), Numbers(m.strides)) && Fine(List(U32), Numbers(m.offsets)) && Fine(List(U64), Numbers(m.sizes))
  {
    hide Fine, Numbers;
    NumbersFine(U32, m.strides);
    NumbersFine(U32, m.offsets);
    NumbersFine(U64, m.sizes);
  }

  lemma BufferPoolScalars(m: BufferPool)
    requires BufferPoolInRange(m)
    ensures Fine(U64, Num(m.generation)) && Fine(U32, Num(m.flags)) && Fine(U32, Num(m.count))
    ensures Fine(BUFFER_FORMAT, Vals([Num(m.fourcc), Num(m.modifier), Num(m.planes)]))
    ensures Fine(EXTENT, Vals([Num(m.width), Num(m.height)]))
  {
    hide Fine;
    FormatFine(m.fourcc, m.modifier, m.planes);
    ExtentFine(m.width, m.height);
    ScalarFine(m.generation);
    ScalarFine(m.flags);
    ScalarFine(m.count);
  }

  lemma BufferPoolSurvives(m: BufferPool)
    requires BufferPoolInRange(m)
    ensures Survives(BUFFER_POOL, OfBufferPool(m))
  {
    hide Fine, Survives, BufferPoolInRange;
    BufferPoolFine(m);
    FineSurvives(BUFFER_POOL, OfBufferPool(m));
  }

  lemma MprisSurvives(m: Mpris)
    requires m.state < 3 && Plain(m.title) && Plain(m.artist) && Plain(m.album)
    requires Plain(m.albumArtist) && Plain(m.artUrl) && Plain(m.previousArtUrl)
    ensures Survives(MPRIS_SNAPSHOT, OfMpris(m))
  {
    EnumFine(m.state, 3);
    TextFine(m.title);
    TextFine(m.artist);
    TextFine(m.album);
    TextFine(m.albumArtist);
    TextFine(m.artUrl);
    TextFine(m.previousArtUrl);
    hide Fine, Survives, Plain;
    RecordFine(MPRIS_SNAPSHOT.fields, OfMpris(m).vs);
    FineSurvives(MPRIS_SNAPSHOT, OfMpris(m));
  }

  lemma SubscriptionResultSurvives(m: SubscriptionResult)
    requires m.revision < U64_LIMIT && m.status < 5 && Plain(m.reason)
    requires |m.kinds| < U32_LIMIT && forall i :: 0 <= i < |m.kinds| ==> Plain(m.kinds[i])
    ensures Survives(SUBSCRIPTION_RESULT, OfSubscriptionResult(m))
  {
    ScalarFine(m.revision);
    EnumFine(m.status, 5);
    StringsFine(m.kinds);
    TextFine(m.reason);
    hide Fine, Survives, Plain;
    RecordFine(SUBSCRIPTION_RESULT.fields, OfSubscriptionResult(m).vs);
    FineSurvives(SUBSCRIPTION_RESULT, OfSubscriptionResult(m));
  }

  lemma RendererInitSurvives(m: RendererInit)
    requires m.protocol < U32_LIMIT && m.spawn < U32_LIMIT && Plain(m.userProperties)
    requires |m.settings| < U32_LIMIT
    requires forall i :: 0 <= i < |m.settings| ==> Plain(m.settings[i].0) && Plain(m.settings[i].1)
    ensures Survives(RENDERER_INIT, OfRendererInit(m))
  {
    ScalarFine(m.protocol);
    ScalarFine(m.spawn);
    PairsFine(m.settings);
    TextFine(m.userProperties);
    hide Fine, Survives, Plain;
    RecordFine(RENDERER_INIT.fields, OfRendererInit(m).vs);
    FineSurvives(RENDERER_INIT, OfRendererInit(m));
  }

  // ---------------------------------------------------------------- tagged records and events

  /** What the tagged records consist of. */
  predicate Simple(ty: Ty) { ty.U32? || ty.U64? || ty.Text? || (ty.Enum? && ty.limit <= U32_LIMIT) }

  /** A value such a field takes. */
  predicate SimpleValue(ty: Ty, v: Val) { Simple(ty) && Typed(ty, v) && TextOk(ty, v) }

  predicate SimpleRecord(tys: seq<Ty>, vs: seq<Val>) {
    |tys| == |vs| <= 15 && forall i :: 0 <= i < |tys| ==> SimpleValue(tys[i], vs[i])
  }

  lemma {:induction false} BodyBound(entries: seq<Entry>, vs: seq<Val>, most: nat)
    requires |entries| == |vs| && forall i :: 0 <= i < |vs| ==> Typed(entries[i].ty, vs[i])
    requires forall i :: 0 <= i < |vs| ==> |Encode(entries[i].ty, vs[i])| <= most
    ensures |PackAll(Raws(entries, vs))| <= |vs| * (12 + most)
    decreases |vs|
  {
    hide Encode, Typed, PackAll, Raws;
    if vs == [] {
      NothingPacked(entries, vs);
    } else {
      BodyBound(entries[1..], vs[1..], most);
      FirstPacked(entries, vs);
      OneMoreField(|vs|, most);
    }
  }

  lemma NothingPacked(entries: seq<Entry>, vs: seq<Val>)
    requires entries == [] && vs == []
    ensures PackAll(Raws(entries, vs)) == []
  {
  }

  lemma {:induction false} FirstPacked(entries: seq<Entry>, vs: seq<Val>)
    requires vs != [] && |entries| == |vs| && forall i :: 0 <= i < |vs| ==> Typed(entries[i].ty, vs[i])
    ensures forall i :: 0 <= i < |vs| - 1 ==> Typed(entries[1..][i].ty, vs[1..][i])
    ensures |PackAll(Raws(entries, vs))| == 12 + |Encode(entries[0].ty, vs[0])| + |PackAll(Raws(entries[1..], vs[1..]))|
  {
    hide Encode, Typed, Le32;
    assert Raws(entries, vs)[1..] == Raws(entries[1..], vs[1..]);
  }

  lemma OneMoreField(n: nat, most: nat)
    requires n > 0
    ensures n * (12 + most) == (n - 1) * (12 + most) + (12 + most)
  {
  }

  lemma SimpleSendable(ty: Ty, v: Val)
    requires SimpleValue(ty, v)
    ensures Sendable(ty, v) && |Encode(ty, v)| <= 4104
  {
  }

  /** A record of scalars and short strings fits. */
  lemma RecordSendable(tys: seq<Ty>, vs: seq<Val>)
    requires SimpleRecord(tys, vs)
    ensures WellFormed(Tagged(Numbered(tys))) && Typed(Tagged(Numbered(tys)), Vals(vs))
    ensures Sendable(Tagged(Numbered(tys)), Vals(vs)) && |Encode(Tagged(Numbered(tys)), Vals(vs))| <= 8 + 15 * 4116
  {
    hide Encode, Utf8.Accepts, PackAll, Raws;
    var entries := Numbered(tys);
    NumberedWellFormed(tys);
    forall i | 0 <= i < |vs|
      ensures Typed(entries[i].ty, vs[i]) && Sendable(entries[i].ty, vs[i]) && |Encode(entries[i].ty, vs[i])| <= 4104
    {
      SimpleSendable(tys[i], vs[i]);
    }
    BodyBound(entries, vs, 4104);
    FramedSize(entries, vs);
  }

  lemma NumberedWellFormed(tys: seq<Ty>)
    requires |tys| <= MAX_FIELDS && forall i :: 0 <= i < |tys| ==> Simple(tys[i])
    ensures WellFormed(Tagged(Numbered(tys)))
  {
  }

  lemma FramedSize(entries: seq<Entry>, vs: seq<Val>)
    requires Typed(Tagged(entries), Vals(vs))
    ensures |Encode(Tagged(entries), Vals(vs))| == 8 + |PackAll(Raws(entries, vs))|
  {
    hide Typed, PackAll, Raws;
  }

  /** The three events: a record of simple fields inside a record of one field. */
  lemma EventSurvives(tys: seq<Ty>, vs: seq<Val>)
    requires SimpleRecord(tys, vs)
    ensures Survives(Event(tys), Vals([Vals(vs)]))
  {
    var record, v := Tagged(Numbered(tys)), Vals(vs);
    RecordSendable(tys, vs);
    OneFieldSurvives(record, v);
  }

  lemma OneFieldSurvives(record: Ty, v: Val)
    requires WellFormed(record) && record.Tagged? && Typed(record, v) && Sendable(record, v)
    requires |Encode(record, v)| <= MAX_BODY - 12
    ensures Survives(Tagged(Numbered([record])), Vals([v]))
  {
    hide Encode, Decode;
    var entries := Numbered([record]);
    BodyBound(entries, [v], |Encode(record, v)|);
    MessageRoundTrip(Tagged(entries), Vals([v]));
  }

  lemma CapabilitiesSurvive(m: Capabilities)
    requires m.revision < U64_LIMIT && m.referenceWidth < U32_LIMIT && m.referenceHeight < U32_LIMIT
    requires m.mode < U32_LIMIT && m.minWidth < U32_LIMIT && m.minHeight < U32_LIMIT && m.maxWidth < U32_LIMIT
    requires m.maxHeight < U32_LIMIT && m.widthAlignment < U32_LIMIT && m.heightAlignment < U32_LIMIT
    ensures Survives(Event(CapabilityTypes()), Vals([Vals(OfCapabilities(m))]))
  {
    hide Survives;
    EventSurvives(CapabilityTypes(), OfCapabilities(m));
  }

  lemma ConfigSurvives(m: Config)
    requires m.revision < U64_LIMIT && m.capabilitiesRevision < U64_LIMIT && m.modifier < U64_LIMIT
    requires m.width < U32_LIMIT && m.height < U32_LIMIT && m.fourcc < U32_LIMIT && m.planes < U32_LIMIT
    requires m.syncMode < U32_LIMIT && m.color < U32_LIMIT && m.memHint < U32_LIMIT && m.count < U32_LIMIT
    requires m.path < 4 && m.source < 3
    ensures Survives(Event(ConfigTypes()), Vals([Vals(OfConfig(m))]))
  {
    hide Survives;
    EventSurvives(ConfigTypes(), OfConfig(m));
  }

  lemma OutcomeSurvives(m: Outcome)
    requires m.revision < U64_LIMIT && m.status < U32_LIMIT && m.width < U32_LIMIT && m.height < U32_LIMIT
    requires m.poolGeneration < U64_LIMIT && NoNul(m.message) && |m.message| <= MAX_TEXT && Utf8.Accepts(m.message)
    ensures Survives(Event(OutcomeTypes()), Vals([Vals(OfOutcome(m))]))
  {
    hide Survives;
    EventSurvives(OutcomeTypes(), OfOutcome(m));
  }
}
