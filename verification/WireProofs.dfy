/** What the wire format promises, for every schema: messages survive the wire, every write keeps the
    alignment, and a tagged record is read by its fields alone: their order, and fields the schema
    does not know, make no difference. */
module WireProofs {
  import opened Common
  import Utf8
  import opened Bytes
  import opened WireSpec

  // ---------------------------------------------------------------- words and strings

  lemma BytesOfWord(n: nat)
    requires n < U32_LIMIT
    ensures n == n % 256 + 256 * (n / 256 % 256) + 65536 * (n / 65536 % 256) + 16777216 * (n / 16777216 % 256)
  {
    assert n / 65536 == n / 256 / 256 && n / 16777216 == n / 65536 / 256;
  }

  lemma WordRead(n: nat, rest: seq<byte>)
    requires n < U32_LIMIT
    ensures ReadWord(Le32(n) + rest) == Got(n, rest)
  {
    BytesOfWord(n);
  }

  lemma LongRead(n: nat, rest: seq<byte>)
    requires n < U64_LIMIT
    ensures ReadLong(Le64(n) + rest) == Got(n, rest)
  {
    var low, high := n % U32_LIMIT, n / U32_LIMIT;
    assert n == low + U32_LIMIT * high;
    var s := Le64(n) + rest;
    assert s == Le32(low) + (Le32(high) + rest);
    WordRead(low, Le32(high) + rest);
    WordRead(high, rest);
    assert s[4..] == Le32(high) + rest && s[8..] == rest;
  }

  /** Four bytes are the word they stand for. */
  lemma WordWritten(s: seq<byte>)
    requires |s| >= 4
    ensures Le32(Word(s)) == s[..4] && s == Le32(Word(s)) + s[4..]
  {
    WordDigits(s[0] as nat, s[1] as nat, s[2] as nat, s[3] as nat);
  }

  lemma WordDigits(a: nat, b: nat, c: nat, d: nat)
    requires a < 256 && b < 256 && c < 256 && d < 256
    ensures
      var n := a + 256 * b + 65536 * c + 16777216 * d;
      n % 256 == a && n / 256 % 256 == b && n / 65536 % 256 == c && n / 16777216 % 256 == d
  {
    var n := a + 256 * b + 65536 * c + 16777216 * d;
    assert n / 256 == b + 256 * c + 65536 * d;
    assert n / 65536 == c + 256 * d;
    assert n / 16777216 == d;
  }

  lemma {:induction false} UpToNulStops(s: seq<byte>, rest: seq<byte>)
    requires NoNul(s)
    ensures UpToNul(s + [0] + rest) == s
  {
    var all := s + [0] + rest;
    if s != [] {
      assert all[0] == s[0] && all[1..] == s[1..] + [0] + rest;
      UpToNulStops(s[1..], rest);
    }
  }

  lemma TextRead(s: seq<byte>, rest: seq<byte>)
    requires NoNul(s) && |s| <= U32_LIMIT - 2
    ensures ReadText(Le32(|s| + 1) + Terminated(s) + rest) == Got(s, rest)
  {
    var len := |s| + 1;
    var body := Terminated(s) + rest;
    assert Le32(len) + Terminated(s) + rest == Le32(len) + body;
    WordRead(len, body);
    assert body[len - 1] == 0 && body[..len] == s + [0] + [];
    UpToNulStops(s, []);
    assert body[len + Pad(len)..] == rest;
  }

  // ---------------------------------------------------------------- alignment

  /** Everything the writers append has a length divisible by four. */
  lemma {:induction false} Aligned(ty: Ty, v: Val)
    requires Typed(ty, v)
    ensures |Encode(ty, v)| % 4 == 0
    decreases ty, 0
  {
    hide EncodeItems, EncodeFields, Raws, PackAll, Terminated, Le32, Le64, Pad;
    match ty
    case Text => Behind(|Terminated(v.s)|);
    case List(elem) =>
      AlignedItems(elem, v.vs);
      Behind(|EncodeItems(elem, v.vs)|);
    case Rec(fields) => AlignedFields(fields, v.vs);
    case Tagged(entries) =>
      AlignedRaws(entries, v.vs);
      Behind(|PackAll(Raws(entries, v.vs))|);
    case _ =>
  }

  /** An aligned length stays so behind one or two words. */
  lemma Behind(n: nat)
    requires n % 4 == 0
    ensures (4 + n) % 4 == 0 && (8 + n) % 4 == 0
  {
  }

  lemma Together(m: nat, n: nat)
    requires m % 4 == 0 && n % 4 == 0
    ensures (m + n) % 4 == 0
  {
  }

  lemma {:induction false} AlignedItems(elem: Ty, vs: seq<Val>)
    requires forall i :: 0 <= i < |vs| ==> Typed(elem, vs[i])
    ensures |EncodeItems(elem, vs)| % 4 == 0
    decreases elem, |vs| + 1
  {
    hide Encode, Typed, EncodeItems;
    if vs == [] {
      assert |EncodeItems(elem, vs)| == 0 by { NoItems(elem, []); }
    } else {
      Aligned(elem, vs[0]);
      AlignedItems(elem, vs[1..]);
      EncodeItemsCons(elem, vs, []);
      assert EncodeItems(elem, vs) + [] == EncodeItems(elem, vs) && EncodeItems(elem, vs[1..]) + [] == EncodeItems(elem, vs[1..]);
      Together(|Encode(elem, vs[0])|, |EncodeItems(elem, vs[1..])|);
    }
  }

  lemma {:induction false} AlignedFields(fields: seq<Ty>, vs: seq<Val>)
    requires |fields| == |vs| && forall i :: 0 <= i < |vs| ==> Typed(fields[i], vs[i])
    ensures |EncodeFields(fields, vs)| % 4 == 0
    decreases fields, 0
  {
    hide Encode, Typed;
    if vs != [] {
      Aligned(fields[0], vs[0]);
      AlignedFields(fields[1..], vs[1..]);
      Together(|Encode(fields[0], vs[0])|, |EncodeFields(fields[1..], vs[1..])|);
    }
  }

  lemma {:induction false} AlignedRaws(entries: seq<Entry>, vs: seq<Val>)
    requires |entries| == |vs| && forall i :: 0 <= i < |vs| ==> Typed(entries[i].ty, vs[i])
    ensures |PackAll(Raws(entries, vs))| % 4 == 0
    decreases entries, 0
  {
    hide Encode, Le32;
    if vs != [] {
      assert entries[0] in entries;
      AlignedField(entries[0], vs[0]);
      AlignedRaws(entries[1..], vs[1..]);
      assert Raws(entries, vs)[1..] == Raws(entries[1..], vs[1..]);
    }
  }

  lemma {:induction false} AlignedField(entry: Entry, v: Val)
    requires Typed(entry.ty, v)
    ensures |Field(entry, v).payload| % 4 == 0
    decreases entry, 0
  {
    Aligned(entry.ty, v);
  }

  /** The writer pads by where it stands, the reader by what it read; they agree on a string exactly
      when the string started on a multiple of four. */
  lemma PaddingAgrees(start: nat, length: nat)
    ensures Pad(start + 4 + length) == Pad(length) <==> start % 4 == 0
  {
  }

  lemma {:induction false} TakesRoom(ty: Ty, v: Val)
    requires Typed(ty, v) && Sized(ty)
    ensures |Encode(ty, v)| >= 4
  {
    if ty.Rec? {
      TakesRoom(ty.fields[0], v.vs[0]);
    }
  }

  lemma {:induction false} ItemsTakeRoom(elem: Ty, vs: seq<Val>)
    requires Sized(elem) && forall i :: 0 <= i < |vs| ==> Typed(elem, vs[i])
    ensures |EncodeItems(elem, vs)| >= |vs|
    decreases |vs|
  {
    if vs != [] {
      TakesRoom(elem, vs[0]);
      ItemsTakeRoom(elem, vs[1..]);
    }
  }

  // ---------------------------------------------------------------- raw fields

  /** A field the loop over a body can meet. */
  predicate ProperField(f: Raw) {
    0 < f.tag < U32_LIMIT && f.kind < U32_LIMIT && |f.payload| % 4 == 0 && |f.payload| < U32_LIMIT
  }

  /** A list of fields the loop accepts after it has met `tags`. */
  predicate ProperAfter(fs: seq<Raw>, tags: seq<nat>)
    decreases |fs|
  {
    fs == [] ||
    (|tags| < MAX_FIELDS && ProperField(fs[0]) && fs[0].tag !in tags && ProperAfter(fs[1..], tags + [fs[0].tag]))
  }

  /** A list of fields a body may consist of: few enough, well-shaped, and no tag twice. */
  predicate Proper(fs: seq<Raw>) {
    && |fs| <= MAX_FIELDS
    && (forall i :: 0 <= i < |fs| ==> ProperField(fs[i]))
    && (forall i, j :: 0 <= i < j < |fs| ==> fs[i].tag != fs[j].tag)
  }

  lemma {:induction false} ProperAfterExactly(fs: seq<Raw>, tags: seq<nat>)
    requires |tags| <= MAX_FIELDS
    ensures ProperAfter(fs, tags) <==>
            |tags| + |fs| <= MAX_FIELDS && Proper(fs) && forall i :: 0 <= i < |fs| ==> fs[i].tag !in tags
    decreases |fs|
  {
    if fs != [] && |tags| < MAX_FIELDS {
      var rest, more := fs[1..], tags + [fs[0].tag];
      ProperAfterExactly(rest, more);
      assert forall i :: 0 <= i < |rest| ==> rest[i] == fs[i + 1];
      assert forall i :: 1 <= i < |fs| ==> fs[i] == rest[i - 1];
      if ProperAfter(fs, tags) {
        forall i, j | 0 <= i < j < |fs| ensures fs[i].tag != fs[j].tag {
          assert fs[j] == rest[j - 1];
          if i > 0 { assert fs[i] == rest[i - 1]; }
        }
      }
    }
  }

  lemma NextOfPacked(f: Raw, rest: seq<byte>, tags: seq<nat>)
    requires ProperField(f) && f.tag !in tags && |tags| < MAX_FIELDS
    ensures TaggedNext(Pack(f) + rest, tags) == Got(f, rest)
  {
    var tail := f.payload + rest;
    assert Pack(f) + rest == Le32(f.tag) + (Le32(f.kind) + (Le32(|f.payload|) + tail));
    WordRead(f.tag, Le32(f.kind) + (Le32(|f.payload|) + tail));
    WordRead(f.kind, Le32(|f.payload|) + tail);
    WordRead(|f.payload|, tail);
  }

  lemma PackedOfNext(body: seq<byte>, tags: seq<nat>)
    requires TaggedNext(body, tags).Got? && |tags| <= MAX_FIELDS
    ensures var f := TaggedNext(body, tags).value;
            ProperField(f) && f.tag !in tags && |tags| < MAX_FIELDS && body == Pack(f) + TaggedNext(body, tags).rest
  {
    hide Le32, Word;
    var f := TaggedNext(body, tags).value;
    WordWritten(body);
    WordWritten(body[4..]);
    WordWritten(body[4..][4..]);
    var tail, rest := body[4..][4..][4..], TaggedNext(body, tags).rest;
    assert tail == f.payload + rest;
    Pieces(body, Le32(f.tag), Le32(f.kind), Le32(|f.payload|), f.payload, rest);
  }

  lemma Pieces(body: seq<byte>, a: seq<byte>, b: seq<byte>, c: seq<byte>, payload: seq<byte>, rest: seq<byte>)
    requires |a| == |b| == |c| == 4 && |body| >= 12
    requires body == a + body[4..] && body[4..] == b + body[4..][4..]
    requires body[4..][4..] == c + body[4..][4..][4..] && body[4..][4..][4..] == payload + rest
    ensures body == a + b + c + payload + rest
  {
  }

  // ---------------------------------------------------------------- the loop over a body

  /** The values the loop collects from a list of fields. */
  function Gather(entries: seq<Entry>, fs: seq<Raw>, acc: map<nat, Val>): map<nat, Val>
    decreases |fs|
  {
    if fs == [] then acc
    else
      var i := Find(entries, fs[0].tag);
      if i < |entries| && DecodeKnown(entries[i], fs[0]).Got?
      then Gather(entries, fs[1..], acc[fs[0].tag := DecodeKnown(entries[i], fs[0]).value])
      else Gather(entries, fs[1..], acc)
  }

  /** Every field whose tag is in the schema is right. */
  predicate KnownFine(entries: seq<Entry>, fs: seq<Raw>) {
    forall j :: 0 <= j < |fs| ==> KnownFieldFine(entries, fs[j])
  }

  predicate KnownFieldFine(entries: seq<Entry>, f: Raw) {
    var i := Find(entries, f.tag);
    i < |entries| ==> DecodeKnown(entries[i], f).Got?
  }

  lemma {:induction false} LoopComplete(entries: seq<Entry>, fs: seq<Raw>, tags: seq<nat>, acc: map<nat, Val>)
    requires ProperAfter(fs, tags) && KnownFine(entries, fs)
    ensures DecodeEntries(entries, PackAll(fs), tags, acc) == Got(Gather(entries, fs, acc), [])
    decreases |fs|
  {
    if fs != [] {
      var f, rest := fs[0], fs[1..];
      NextOfPacked(f, PackAll(rest), tags);
      assert KnownFieldFine(entries, f);
      var i := Find(entries, f.tag);
      LoopComplete(entries, rest, tags + [f.tag],
                   if i < |entries| then acc[f.tag := DecodeKnown(entries[i], f).value] else acc);
    }
  }

  lemma {:induction false} LoopSound(entries: seq<Entry>, body: seq<byte>, tags: seq<nat>, acc: map<nat, Val>)
    returns (fs: seq<Raw>)
    requires |tags| <= MAX_FIELDS && DecodeEntries(entries, body, tags, acc).Got?
    ensures ProperAfter(fs, tags) && KnownFine(entries, fs) && PackAll(fs) == body
    ensures DecodeEntries(entries, body, tags, acc) == Got(Gather(entries, fs, acc), [])
    decreases |body|
  {
    if body == [] {
      fs := [];
    } else {
      PackedOfNext(body, tags);
      var f := TaggedNext(body, tags).value;
      var i := Find(entries, f.tag);
      var more := LoopSound(entries, TaggedNext(body, tags).rest, tags + [f.tag],
                            if i < |entries| then acc[f.tag := DecodeKnown(entries[i], f).value] else acc);
      fs := [f] + more;
      assert fs[1..] == more && KnownFieldFine(entries, f);
    }
  }

  lemma {:induction false} GatherFrom(entries: seq<Entry>, fs: seq<Raw>, acc: map<nat, Val>, tag: nat)
    requires Proper(fs) && KnownFine(entries, fs) && Find(entries, tag) < |entries|
    ensures var m := Gather(entries, fs, acc);
            && (forall j :: 0 <= j < |fs| && fs[j].tag == tag ==>
                  tag in m && DecodeKnown(entries[Find(entries, tag)], fs[j]) == Got(m[tag], []))
            && ((forall j :: 0 <= j < |fs| ==> fs[j].tag != tag) ==>
                  (tag in m <==> tag in acc) && (tag in m ==> m[tag] == acc[tag]))
    decreases |fs|
  {
    if fs != [] {
      var f, rest := fs[0], fs[1..];
      assert KnownFieldFine(entries, f);
      assert forall j :: 0 <= j < |rest| ==> rest[j] == fs[j + 1];
      assert forall j :: 1 <= j < |fs| ==> fs[j] == rest[j - 1];
      var i := Find(entries, f.tag);
      var next := if i < |entries| then acc[f.tag := DecodeKnown(entries[i], f).value] else acc;
      GatherFrom(entries, rest, next, tag);
      if f.tag == tag {
        assert forall j :: 0 <= j < |rest| ==> rest[j].tag != tag;
      }
    }
  }

  // ---------------------------------------------------------------- tagged records

  /** Field `f` gives entry `i` of the schema the value `v`. */
  predicate Gives(entry: Entry, f: Raw, v: Val) { f.tag == entry.tag && DecodeKnown(entry, f) == Got(v, []) }

  predicate Given(entry: Entry, fs: seq<Raw>, v: Val) {
    exists j :: 0 <= j < |fs| && Gives(entry, fs[j], v)
  }

  /** Every field of the schema is there with its value; nothing is said of the others. */
  predicate Carries(entries: seq<Entry>, fs: seq<Raw>, vs: seq<Val>) {
    |vs| == |entries| && forall i :: 0 <= i < |entries| ==> Given(entries[i], fs, vs[i])
  }

  lemma FindOwn(entries: seq<Entry>, i: nat)
    requires WellFormed(Tagged(entries)) && i < |entries|
    ensures Find(entries, entries[i].tag) == i
  {
  }

  /** A body decodes to given values exactly when it is a list of well-shaped fields, no tag twice, in
      which each field of the schema occurs and gives its value. */
  lemma BodyExactly(entries: seq<Entry>, body: seq<byte>, vs: seq<Val>)
    requires WellFormed(Tagged(entries))
    ensures DecodeBody(entries, body) == Got(vs, []) <==>
            exists fs: seq<Raw> :: Proper(fs) && PackAll(fs) == body && Carries(entries, fs, vs)
  {
    if DecodeBody(entries, body) == Got(vs, []) {
      var fs := FieldsOfBody(entries, body, vs);
    }
    if fs: seq<Raw> :| Proper(fs) && PackAll(fs) == body && Carries(entries, fs, vs) {
      BodyOfFields(entries, fs, vs);
    }
  }

  lemma FieldsOfBody(entries: seq<Entry>, body: seq<byte>, vs: seq<Val>) returns (fs: seq<Raw>)
    requires WellFormed(Tagged(entries)) && DecodeBody(entries, body) == Got(vs, [])
    ensures Proper(fs) && PackAll(fs) == body && Carries(entries, fs, vs)
  {
    fs := LoopSound(entries, body, [], map[]);
    ProperAfterExactly(fs, []);
    var seen := Gather(entries, fs, map[]);
    forall i | 0 <= i < |entries| ensures Given(entries[i], fs, vs[i]) {
      FindOwn(entries, i);
      GatherFrom(entries, fs, map[], entries[i].tag);
      var j :| 0 <= j < |fs| && fs[j].tag == entries[i].tag;
      assert Gives(entries[i], fs[j], vs[i]);
    }
  }

  lemma CarriedFine(entries: seq<Entry>, fs: seq<Raw>, vs: seq<Val>)
    requires WellFormed(Tagged(entries)) && Proper(fs) && Carries(entries, fs, vs)
    ensures KnownFine(entries, fs)
  {
    forall j | 0 <= j < |fs| ensures KnownFieldFine(entries, fs[j]) {
      var i := Find(entries, fs[j].tag);
      if i < |entries| {
        assert Given(entries[i], fs, vs[i]);
      }
    }
  }

  lemma BodyOfFields(entries: seq<Entry>, fs: seq<Raw>, vs: seq<Val>)
    requires WellFormed(Tagged(entries)) && Proper(fs) && Carries(entries, fs, vs)
    ensures DecodeBody(entries, PackAll(fs)) == Got(vs, [])
  {
    CarriedFine(entries, fs, vs);
    ProperAfterExactly(fs, []);
    LoopComplete(entries, fs, [], map[]);
    var seen := Gather(entries, fs, map[]);
    forall i | 0 <= i < |entries| ensures entries[i].tag in seen && seen[entries[i].tag] == vs[i] {
      FindOwn(entries, i);
      GatherFrom(entries, fs, map[], entries[i].tag);
      assert Given(entries[i], fs, vs[i]);
    }
    assert seq(|entries|, i requires 0 <= i < |entries| => seen[entries[i].tag]) == vs;
  }

  predicate KnownWithin(entries: seq<Entry>, fs: seq<Raw>, gs: seq<Raw>) {
    forall j :: 0 <= j < |fs| && Find(entries, fs[j].tag) < |entries| ==> fs[j] in gs
  }

  /** Two bodies with the same known fields, in any order and among any unknown ones, are read alike. */
  lemma OrderAndUnknownFieldsIgnored(entries: seq<Entry>, fs: seq<Raw>, gs: seq<Raw>, vs: seq<Val>)
    requires WellFormed(Tagged(entries)) && Proper(fs) && Proper(gs)
    requires KnownWithin(entries, fs, gs) && KnownWithin(entries, gs, fs)
    ensures DecodeBody(entries, PackAll(fs)) == Got(vs, []) <==> DecodeBody(entries, PackAll(gs)) == Got(vs, [])
  {
    if DecodeBody(entries, PackAll(fs)) == Got(vs, []) { OneDirection(entries, fs, gs, vs); }
    if DecodeBody(entries, PackAll(gs)) == Got(vs, []) { OneDirection(entries, gs, fs, vs); }
  }

  lemma OneDirection(entries: seq<Entry>, fs: seq<Raw>, gs: seq<Raw>, vs: seq<Val>)
    requires WellFormed(Tagged(entries)) && Proper(fs) && Proper(gs)
    requires KnownWithin(entries, fs, gs)
    requires DecodeBody(entries, PackAll(fs)) == Got(vs, [])
    ensures DecodeBody(entries, PackAll(gs)) == Got(vs, [])
  {
    var hs := FieldsOfBody(entries, PackAll(fs), vs);
    PackInjective(hs, fs);
    forall i | 0 <= i < |entries| ensures Given(entries[i], gs, vs[i]) {
      assert Given(entries[i], fs, vs[i]);
      var j :| 0 <= j < |fs| && Gives(entries[i], fs[j], vs[i]);
      FindOwn(entries, i);
      assert fs[j] in gs;
    }
    BodyOfFields(entries, gs, vs);
  }

  /** Bytes split into fields in one way only. */
  lemma {:induction false} PackInjective(fs: seq<Raw>, gs: seq<Raw>)
    requires (forall i :: 0 <= i < |fs| ==> ProperField(fs[i])) && (forall i :: 0 <= i < |gs| ==> ProperField(gs[i]))
    requires PackAll(fs) == PackAll(gs)
    ensures fs == gs
    decreases |fs|
  {
    if fs != [] && gs != [] {
      NextOfPacked(fs[0], PackAll(fs[1..]), []);
      NextOfPacked(gs[0], PackAll(gs[1..]), []);
      PackInjective(fs[1..], gs[1..]);
      assert fs == [fs[0]] + fs[1..] && gs == [gs[0]] + gs[1..];
    }
  }

  predicate HasTag(fs: seq<Raw>, tag: nat) { exists j :: 0 <= j < |fs| && fs[j].tag == tag }

  /** A record is never read without one of its fields, nor with a tag that occurs twice. */
  lemma {:induction false} RequiredOnceEach(entries: seq<Entry>, fs: seq<Raw>)
    requires WellFormed(Tagged(entries)) && forall j :: 0 <= j < |fs| ==> ProperField(fs[j])
    requires DecodeBody(entries, PackAll(fs)).Got?
    ensures forall i :: 0 <= i < |entries| ==> HasTag(fs, entries[i].tag)
    ensures forall j, k :: 0 <= j < k < |fs| ==> fs[j].tag != fs[k].tag
  {
    hide PackAll, ProperField;
    var vs := DecodeBody(entries, PackAll(fs)).value;
    var hs := FieldsOfBody(entries, PackAll(fs), vs);
    PackInjective(hs, fs);
    forall i | 0 <= i < |entries| ensures HasTag(fs, entries[i].tag) {
      assert Given(entries[i], fs, vs[i]);
    }
  }

  // ---------------------------------------------------------------- round trip

  lemma {:induction false} PackLength(fs: seq<Raw>, i: nat)
    requires i < |fs|
    ensures |fs[i].payload| <= |PackAll(fs)|
    decreases |fs|
  {
    if i > 0 { PackLength(fs[1..], i - 1); }
  }

  /** The validator accepts what a writer of that kind wrote. */
  lemma ValidatorAccepts(entry: Entry, v: Val)
    requires KindOk(entry.kind, entry.ty) && Typed(entry.ty, v) && Sendable(entry.ty, v) && TextOk(entry.ty, v)
    ensures Validate(entry.kind, Encode(entry.ty, v)).Got?
  {
    match entry.ty
    case Text => ValidatorAcceptsText(v.s);
    case Tagged(entries) => ValidatorAcceptsFrame(PackAll(Raws(entries, v.vs)));
    case _ =>
  }

  lemma ValidatorAcceptsText(s: seq<byte>)
    requires NoNul(s) && |s| <= MAX_TEXT && Utf8.Accepts(s)
    ensures Validate(8, Encode(Text, Str(s))).Got?
  {
    hide Utf8.Accepts, Le32, Word, ReadWord, Terminated, NoNul;
    var len, body := |s| + 1, Terminated(s);
    WordRead(len, body);
    TerminatedParts(s);
    assert ValidateText(Le32(len) + body).Got?;
  }

  lemma TerminatedParts(s: seq<byte>)
    ensures Terminated(s)[..|s|] == s && Terminated(s)[|s|..|s| + 1 + Pad(|s| + 1)] == Zeros(1 + Pad(|s| + 1))
  {
  }

  lemma ValidatorAcceptsFrame(body: seq<byte>)
    requires |body| < U32_LIMIT
    ensures Validate(11, Framed(body)).Got?
  {
    assert Framed(body) == Le32(REVISION) + (Le32(|body|) + body);
    WordRead(REVISION, Le32(|body|) + body);
    WordRead(|body|, body);
  }

  /** Decoding what was encoded gives the value back and consumes exactly the bytes written. */
  lemma {:induction false} RoundTrip(ty: Ty, v: Val, rest: seq<byte>)
    requires WellFormed(ty) && Typed(ty, v) && Sendable(ty, v)
    ensures Decode(ty, Encode(ty, v) + rest) == Got(v, rest)
    decreases ty, 2, 0
  {
    match ty
    case List(elem) =>
      RoundTripItems(elem, v.vs, rest);
      ListRead(elem, v.vs, rest);
    case Rec(fields) => RoundTripFields(fields, v.vs, rest);
    case Tagged(entries) =>
      AlignedRaws(entries, v.vs);
      RoundTripBody(entries, v.vs);
      FrameRead(PackAll(Raws(entries, v.vs)), rest);
    case _ => ScalarRead(ty, v, rest);
  }

  lemma ScalarRead(ty: Ty, v: Val, rest: seq<byte>)
    requires WellFormed(ty) && Typed(ty, v) && Encodable(ty, v)
    requires ty.U32? || ty.Bool? || ty.U64? || ty.Enum? || ty.Text?
    ensures Decode(ty, Encode(ty, v) + rest) == Got(v, rest)
  {
    if ty.U64? {
      LongRead(v.n, rest);
    } else if ty.Text? {
      TextRead(v.s, rest);
    } else {
      WordRead(v.n, rest);
    }
  }

  lemma FrameRead(body: seq<byte>, rest: seq<byte>)
    requires |body| <= MAX_BODY && |body| % 4 == 0
    ensures TaggedBegin(Framed(body) + rest) == Got(body, rest)
  {
    assert Framed(body) + rest == Le32(REVISION) + (Le32(|body|) + (body + rest));
    WordRead(REVISION, Le32(|body|) + (body + rest));
    WordRead(|body|, body + rest);
  }

  lemma ListRead(elem: Ty, vs: seq<Val>, rest: seq<byte>)
    requires WellFormed(List(elem)) && Typed(List(elem), Vals(vs))
    requires DecodeItems(elem, |vs|, EncodeItems(elem, vs) + rest) == Got(vs, rest)
    ensures Decode(List(elem), Encode(List(elem), Vals(vs)) + rest) == Got(Vals(vs), rest)
  {
    var items := EncodeItems(elem, vs);
    assert Encode(List(elem), Vals(vs)) + rest == Le32(|vs|) + (items + rest);
    WordRead(|vs|, items + rest);
    ItemsTakeRoom(elem, vs);
  }

  lemma EncodeItemsCons(elem: Ty, vs: seq<Val>, rest: seq<byte>)
    requires vs != [] && forall i :: 0 <= i < |vs| ==> Typed(elem, vs[i])
    ensures EncodeItems(elem, vs) + rest == Encode(elem, vs[0]) + (EncodeItems(elem, vs[1..]) + rest)
  {
  }

  lemma DecodeItemsCons(elem: Ty, s: seq<byte>, v: Val, more: seq<byte>, vs: seq<Val>, end: seq<byte>)
    requires Decode(elem, s) == Got(v, more) && DecodeItems(elem, |vs|, more) == Got(vs, end)
    ensures DecodeItems(elem, |[v] + vs|, s) == Got([v] + vs, end)
  {
  }

  lemma NoItems(elem: Ty, rest: seq<byte>)
    ensures EncodeItems(elem, []) == [] && DecodeItems(elem, 0, EncodeItems(elem, []) + rest) == Got([], rest)
  {
    assert EncodeItems(elem, []) + rest == rest;
  }

  lemma {:induction false} RoundTripItems(elem: Ty, vs: seq<Val>, rest: seq<byte>)
    requires WellFormed(elem)
    requires forall i :: 0 <= i < |vs| ==> Typed(elem, vs[i]) && Sendable(elem, vs[i])
    ensures DecodeItems(elem, |vs|, EncodeItems(elem, vs) + rest) == Got(vs, rest)
    decreases elem, 3, |vs|
  {
    hide Encode, Decode, EncodeItems, DecodeItems, Sendable, WellFormed;
    if vs == [] {
      NoItems(elem, rest);
    } else {
      var more := EncodeItems(elem, vs[1..]) + rest;
      EncodeItemsCons(elem, vs, rest);
      RoundTrip(elem, vs[0], more);
      RoundTripItems(elem, vs[1..], rest);
      DecodeItemsCons(elem, EncodeItems(elem, vs) + rest, vs[0], more, vs[1..], rest);
      assert vs == [vs[0]] + vs[1..];
    }
  }

  lemma {:induction false} RoundTripFields(fields: seq<Ty>, vs: seq<Val>, rest: seq<byte>)
    requires |fields| == |vs| && forall i :: 0 <= i < |vs| ==> WellFormed(fields[i])
    requires forall i :: 0 <= i < |vs| ==> Typed(fields[i], vs[i]) && Sendable(fields[i], vs[i])
    ensures DecodeFields(fields, EncodeFields(fields, vs) + rest) == Got(vs, rest)
    decreases fields, 0, 0
  {
    hide Encode, Decode, EncodeFields, DecodeFields, Sendable, WellFormed;
    if vs == [] {
      NoFieldsRead(rest);
    } else {
      var more := EncodeFields(fields[1..], vs[1..]) + rest;
      EncodeFieldsCons(fields, vs, rest);
      RoundTrip(fields[0], vs[0], more);
      RoundTripFields(fields[1..], vs[1..], rest);
      DecodeFieldsCons(fields, EncodeFields(fields, vs) + rest, vs[0], more, vs[1..], rest);
      assert vs == [vs[0]] + vs[1..];
    }
  }

  lemma NoFieldsRead(rest: seq<byte>)
    ensures DecodeFields([], EncodeFields([], []) + rest) == Got([], rest)
  {
    assert EncodeFields([], []) + rest == rest;
  }

  lemma EncodeFieldsCons(fields: seq<Ty>, vs: seq<Val>, rest: seq<byte>)
    requires vs != [] && |fields| == |vs| && forall i :: 0 <= i < |vs| ==> Typed(fields[i], vs[i])
    ensures EncodeFields(fields, vs) + rest == Encode(fields[0], vs[0]) + (EncodeFields(fields[1..], vs[1..]) + rest)
  {
  }

  lemma DecodeFieldsCons(fields: seq<Ty>, s: seq<byte>, v: Val, more: seq<byte>, vs: seq<Val>, end: seq<byte>)
    requires fields != [] && Decode(fields[0], s) == Got(v, more) && DecodeFields(fields[1..], more) == Got(vs, end)
    ensures DecodeFields(fields, s) == Got([v] + vs, end)
  {
  }

  lemma {:induction false} RoundTripKnown(entry: Entry, v: Val)
    requires WellFormed(entry.ty) && KindOk(entry.kind, entry.ty)
    requires Typed(entry.ty, v) && Sendable(entry.ty, v) && TextOk(entry.ty, v)
    ensures Gives(entry, Field(entry, v), v)
    decreases entry, 1, 0
  {
    ValidatorAccepts(entry, v);
    RoundTrip(entry.ty, v, []);
    assert Encode(entry.ty, v) + [] == Encode(entry.ty, v);
  }

  lemma {:induction false} RoundTripBody(entries: seq<Entry>, vs: seq<Val>)
    requires WellFormed(Tagged(entries)) && Typed(Tagged(entries), Vals(vs)) && Sendable(Tagged(entries), Vals(vs))
    ensures DecodeBody(entries, PackAll(Raws(entries, vs))) == Got(vs, [])
    decreases entries, 2, 0
  {
    var fs := Raws(entries, vs);
    forall i | 0 <= i < |entries| ensures ProperField(fs[i]) && Given(entries[i], fs, vs[i]) {
      assert entries[i] in entries;
      RoundTripKnown(entries[i], vs[i]);
      AlignedField(entries[i], vs[i]);
      assert Gives(entries[i], fs[i], vs[i]);
    }
    BodyOfFields(entries, fs, vs);
  }

  /** A whole message: decoding accepts the encoding and returns the message. */
  lemma MessageRoundTrip(ty: Ty, v: Val)
    requires WellFormed(ty) && Typed(ty, v) && Sendable(ty, v)
    ensures DecodeMessage(ty, Encode(ty, v)) == Got(v, [])
    ensures |Encode(ty, v)| % 4 == 0
  {
    RoundTrip(ty, v, []);
    Aligned(ty, v);
    assert Encode(ty, v) + [] == Encode(ty, v);
  }
}
