/** The wire format as values: what a message of a given schema is written as, and what the readers
    make of any bytes. The C code is generated from a protocol description, so messages are schemas
    here: `Encode` and `Decode` follow the generated writers and readers for every schema. */
module WireSpec {
  import opened Common
  import Utf8
  import opened Bytes

  const SHORT := -1
  const BAD_STRING := -2
  const BAD_ARRAY := -3
  const TRAILING := -4
  const OVERFLOW := -7
  const BAD_BOOL := -8
  const BAD_ENUM := -9

  const MAX_BODY: nat := 65520
  const MAX_FIELDS: nat := 256
  const MAX_TEXT: nat := 4096
  const REVISION: nat := 1

  // ---------------------------------------------------------------- schemas and values

  /** `U32` also carries i32 and f32 as bit patterns, `U64` i64 and f64; a key-value list is a list of
      records of two strings. */
  datatype Ty =
    | U32
    | Bool
    | U64
    | Enum(limit: nat)
    | Text
    | List(elem: Ty)
    | Rec(fields: seq<Ty>)
    | Tagged(entries: seq<Entry>)

  datatype Entry = Entry(tag: nat, kind: nat, ty: Ty)

  datatype Val = Num(n: nat) | Str(s: seq<byte>) | Vals(vs: seq<Val>)

  /** The kind number the generator gives a field of this type in a tagged record. */
  predicate KindOk(kind: nat, ty: Ty) {
    match ty
    case U32 => kind == 2
    case U64 => kind == 4
    case Text => kind == 8
    case Tagged(_) => kind == 11
    case Enum(_) => kind == 12
    case _ => false
  }

  /** Every value takes at least one byte. */
  predicate Sized(ty: Ty) {
    ty.Rec? ==> ty.fields != [] && Sized(ty.fields[0])
  }

  predicate WellFormed(ty: Ty) {
    match ty
    case Enum(limit) => limit <= U32_LIMIT
    case List(elem) => WellFormed(elem) && Sized(elem)
    case Rec(fields) => forall i :: 0 <= i < |fields| ==> WellFormed(fields[i])
    case Tagged(entries) =>
      && |entries| <= MAX_FIELDS
      && (forall i :: 0 <= i < |entries| ==> 0 < entries[i].tag < U32_LIMIT)
      && (forall i, j :: 0 <= i < j < |entries| ==> entries[i].tag != entries[j].tag)
      && (forall i :: 0 <= i < |entries| ==> KindOk(entries[i].kind, entries[i].ty))
      && (forall i :: 0 <= i < |entries| ==> WellFormed(entries[i].ty))
    case _ => true
  }

  predicate NoNul(s: seq<byte>) { forall i :: 0 <= i < |s| ==> s[i] != 0 }

  /** The values a message struct of this schema can hold. */
  predicate Typed(ty: Ty, v: Val) {
    match ty
    case U32 => v.Num? && v.n < U32_LIMIT
    case Bool => v.Num? && v.n < 2
    case U64 => v.Num? && v.n < U64_LIMIT
    case Enum(limit) => v.Num? && v.n < limit
    case Text => v.Str? && NoNul(v.s)
    case List(elem) => v.Vals? && |v.vs| < U32_LIMIT && forall i :: 0 <= i < |v.vs| ==> Typed(elem, v.vs[i])
    case Rec(fields) => v.Vals? && |v.vs| == |fields| && forall i :: 0 <= i < |fields| ==> Typed(fields[i], v.vs[i])
    case Tagged(entries) =>
      v.Vals? && |v.vs| == |entries| && forall i :: 0 <= i < |entries| ==> Typed(entries[i].ty, v.vs[i])
  }

  // ---------------------------------------------------------------- writing

  /** The low 32 bits, least significant byte first. */
  function Le32(n: nat): (s: seq<byte>)
    ensures |s| == 4
  {
    [n % 256, n / 256 % 256, n / 65536 % 256, n / 16777216 % 256]
  }

  function Le64(n: nat): (s: seq<byte>)
    ensures |s| == 8
  {
    Le32(n % U32_LIMIT) + Le32(n / U32_LIMIT)
  }

  /** How many bytes bring a length to a multiple of four. */
  function Pad(n: nat): nat { (4 - n % 4) % 4 }

  function Zeros(n: nat): (s: seq<byte>)
    ensures |s| == n
  {
    seq(n, _ => 0)
  }

  /** A string with its NUL, filled up to a multiple of four. */
  function Terminated(s: seq<byte>): (t: seq<byte>)
    ensures |t| == |s| + 1 + Pad(|s| + 1) && |t| % 4 == 0
  {
    s + [0] + Zeros(Pad(|s| + 1))
  }

  /** A revision-1 body behind its length. */
  function Framed(body: seq<byte>): seq<byte> { Le32(REVISION) + Le32(|body|) + body }

  /** One field of a tagged body, as it stands on the wire. */
  datatype Raw = Raw(tag: nat, kind: nat, payload: seq<byte>)

  function Pack(f: Raw): seq<byte> { Le32(f.tag) + Le32(f.kind) + Le32(|f.payload|) + f.payload }

  function PackAll(fs: seq<Raw>): seq<byte> {
    if fs == [] then [] else Pack(fs[0]) + PackAll(fs[1..])
  }

  /** What the generated writer of a schema appends to an aligned buffer. */
  function Encode(ty: Ty, v: Val): seq<byte>
    requires Typed(ty, v)
    decreases ty, 0
  {
    match ty
    case U32 => Le32(v.n)
    case Bool => Le32(v.n)
    case U64 => Le64(v.n)
    case Enum(_) => Le32(v.n)
    case Text => Le32(|v.s| + 1) + Terminated(v.s)
    case List(elem) => Le32(|v.vs|) + EncodeItems(elem, v.vs)
    case Rec(fields) => EncodeFields(fields, v.vs)
    case Tagged(entries) => Framed(PackAll(Raws(entries, v.vs)))
  }

  function EncodeItems(elem: Ty, vs: seq<Val>): seq<byte>
    requires forall i :: 0 <= i < |vs| ==> Typed(elem, vs[i])
    decreases elem, |vs| + 1
  {
    if vs == [] then [] else Encode(elem, vs[0]) + EncodeItems(elem, vs[1..])
  }

  function EncodeFields(fields: seq<Ty>, vs: seq<Val>): seq<byte>
    requires |fields| == |vs| && forall i :: 0 <= i < |vs| ==> Typed(fields[i], vs[i])
    decreases fields, 0
  {
    if vs == [] then [] else Encode(fields[0], vs[0]) + EncodeFields(fields[1..], vs[1..])
  }

  function Field(entry: Entry, v: Val): Raw
    requires Typed(entry.ty, v)
    decreases entry, 0
  {
    Raw(entry.tag, entry.kind, Encode(entry.ty, v))
  }

  /** The fields a tagged record is written as, in schema order. */
  function Raws(entries: seq<Entry>, vs: seq<Val>): (fs: seq<Raw>)
    requires |entries| == |vs| && forall i :: 0 <= i < |vs| ==> Typed(entries[i].ty, vs[i])
    ensures |fs| == |vs| && forall i :: 0 <= i < |vs| ==> fs[i] == Field(entries[i], vs[i])
    decreases entries, 0
  {
    if vs == [] then []
    else
      assert entries[0] in entries;
      [Field(entries[0], vs[0])] + Raws(entries[1..], vs[1..])
  }

  /** The limits the writers check, buffer size apart. */
  predicate Encodable(ty: Ty, v: Val)
    requires Typed(ty, v)
    decreases ty, 0
  {
    match ty
    case Text => |v.s| <= U32_LIMIT - 2
    case List(elem) => forall i :: 0 <= i < |v.vs| ==> Encodable(elem, v.vs[i])
    case Rec(fields) => forall i :: 0 <= i < |fields| ==> Encodable(fields[i], v.vs[i])
    case Tagged(entries) =>
      && (forall i :: 0 <= i < |entries| ==>
            Encodable(entries[i].ty, v.vs[i]) && |Encode(entries[i].ty, v.vs[i])| < U32_LIMIT)
      && |PackAll(Raws(entries, v.vs))| <= MAX_BODY
    case _ => true
  }

  /** The domain of a tagged string: short, and well-formed UTF-8. */
  predicate TextOk(ty: Ty, v: Val)
    requires Typed(ty, v)
  {
    ty.Text? ==> |v.s| <= MAX_TEXT && Utf8.Accepts(v.s)
  }

  /** The messages of the protocol: encodable, with proper strings in tagged records. */
  predicate Sendable(ty: Ty, v: Val)
    requires Typed(ty, v)
    decreases ty, 0
  {
    Encodable(ty, v) &&
    match ty
    case List(elem) => forall i :: 0 <= i < |v.vs| ==> Sendable(elem, v.vs[i])
    case Rec(fields) => forall i :: 0 <= i < |fields| ==> Sendable(fields[i], v.vs[i])
    case Tagged(entries) =>
      && (forall i :: 0 <= i < |entries| ==> Sendable(entries[i].ty, v.vs[i]))
      && (forall i :: 0 <= i < |entries| ==> TextOk(entries[i].ty, v.vs[i]))
    case _ => true
  }

  // ---------------------------------------------------------------- reading

  /** A value with the bytes after it, or an error code. */
  datatype Got<+T> = Got(value: T, rest: seq<byte>) | Bad(code: int)

  function Word(s: seq<byte>): (n: nat)
    requires |s| >= 4
    ensures n < U32_LIMIT
  {
    s[0] as nat + 256 * s[1] as nat + 65536 * s[2] as nat + 16777216 * s[3] as nat
  }

  function ReadWord(s: seq<byte>): Got<nat> {
    if |s| < 4 then Bad(SHORT) else Got(Word(s), s[4..])
  }

  function ReadLong(s: seq<byte>): Got<nat> {
    if |s| < 8 then Bad(SHORT) else Got(Word(s) + U32_LIMIT * Word(s[4..]), s[8..])
  }

  /** The C string in a buffer: the bytes up to the first NUL. */
  function UpToNul(s: seq<byte>): seq<byte> {
    if s == [] || s[0] == 0 then [] else [s[0]] + UpToNul(s[1..])
  }

  function ReadText(s: seq<byte>): Got<seq<byte>> {
    match ReadWord(s)
    case Bad(code) => Bad(code)
    case Got(len, rest) =>
      if len == 0 then Bad(BAD_STRING)
      else if |rest| < len + Pad(len) then Bad(SHORT)
      else if rest[len - 1] != 0 then Bad(BAD_STRING)
      else Got(UpToNul(rest[..len]), rest[len + Pad(len)..])
  }

  /** The generated reader of a schema. */
  function Decode(ty: Ty, s: seq<byte>): (r: Got<Val>)
    ensures r.Got? ==> |r.rest| <= |s|
    decreases ty, 0, 0
  {
    match ty
    case U32 => Numeric(ReadWord(s))
    case Bool => (match ReadWord(s) case Got(n, _) => if n > 1 then Bad(BAD_BOOL) else Numeric(ReadWord(s)) case Bad(code) => Bad(code))
    case U64 => Numeric(ReadLong(s))
    case Enum(limit) =>
      (match ReadWord(s) case Got(n, _) => if n >= limit then Bad(BAD_ENUM) else Numeric(ReadWord(s)) case Bad(code) => Bad(code))
    case Text => (match ReadText(s) case Got(t, rest) => Got(Str(t), rest) case Bad(code) => Bad(code))
    case List(elem) =>
      (match ReadWord(s)
       case Bad(code) => Bad(code)
       case Got(n, rest) => if n > |rest| then Bad(BAD_ARRAY) else Listed(DecodeItems(elem, n, rest)))
    case Rec(fields) => Listed(DecodeFields(fields, s))
    case Tagged(entries) =>
      (match TaggedBegin(s)
       case Bad(code) => Bad(code)
       case Got(body, rest) =>
         (match DecodeBody(entries, body)
          case Bad(code) => Bad(code)
          case Got(vs, _) => Got(Vals(vs), rest)))
  }

  function Numeric(r: Got<nat>): Got<Val> {
    match r case Got(n, rest) => Got(Num(n), rest) case Bad(code) => Bad(code)
  }

  function Listed(r: Got<seq<Val>>): Got<Val> {
    match r case Got(vs, rest) => Got(Vals(vs), rest) case Bad(code) => Bad(code)
  }

  function DecodeItems(elem: Ty, n: nat, s: seq<byte>): (r: Got<seq<Val>>)
    ensures r.Got? ==> |r.rest| <= |s| && |r.value| == n
    decreases elem, 1, n
  {
    if n == 0 then Got([], s)
    else match Decode(elem, s)
      case Bad(code) => Bad(code)
      case Got(v, rest) =>
        match DecodeItems(elem, n - 1, rest)
        case Bad(code) => Bad(code)
        case Got(vs, end) => Got([v] + vs, end)
  }

  function DecodeFields(fields: seq<Ty>, s: seq<byte>): (r: Got<seq<Val>>)
    ensures r.Got? ==> |r.rest| <= |s| && |r.value| == |fields|
    decreases fields, 0, 0
  {
    if fields == [] then Got([], s)
    else match Decode(fields[0], s)
      case Bad(code) => Bad(code)
      case Got(v, rest) =>
        match DecodeFields(fields[1..], rest)
        case Bad(code) => Bad(code)
        case Got(vs, end) => Got([v] + vs, end)
  }

  /** `tagged_begin`: the body of a record, empty when its revision is not the known one. */
  function TaggedBegin(s: seq<byte>): (r: Got<seq<byte>>)
    ensures r.Got? ==> |r.rest| + |r.value| <= |s| && |r.value| <= MAX_BODY
  {
    match ReadWord(s)
    case Bad(code) => Bad(code)
    case Got(revision, more) =>
      match ReadWord(more)
      case Bad(code) => Bad(code)
      case Got(len, rest) =>
        if len > MAX_BODY || len % 4 != 0 then Bad(BAD_ARRAY)
        else if |rest| < len then Bad(SHORT)
        else Got(if revision == REVISION then rest[..len] else [], rest[len..])
  }

  /** `tagged_next`: the next field, given the tags already met. */
  function TaggedNext(body: seq<byte>, tags: seq<nat>): (r: Got<Raw>)
    ensures r.Got? ==> |r.rest| < |body|
  {
    if |tags| == MAX_FIELDS then Bad(BAD_ARRAY)
    else match ReadWord(body)
      case Bad(code) => Bad(code)
      case Got(tag, more) =>
        match ReadWord(more)
        case Bad(code) => Bad(code)
        case Got(kind, further) =>
          match ReadWord(further)
          case Bad(code) => Bad(code)
          case Got(len, rest) =>
            if tag == 0 || len % 4 != 0 then Bad(BAD_ARRAY)
            else if tag in tags then Bad(BAD_ARRAY)
            else if |rest| < len then Bad(SHORT)
            else Got(Raw(tag, kind, rest[..len]), rest[len..])
  }

  /** `tagged_validate_value`; the kinds below 0x100 are scalars, 8 a string, 9 a key-value list and
      11 a record; 0x100 on top of a kind is an array of it. */
  function Validate(kind: nat, s: seq<byte>): Got<()>
    decreases kind, 0
  {
    if kind >= 0x100 || kind == 9 then
      match ReadWord(s)
      case Bad(code) => Bad(code)
      case Got(len, rest) =>
        if len > 1024 then Bad(BAD_ARRAY)
        else ValidateMany(if kind == 9 then 8 else kind - 0x100, if kind == 9 then 2 * len else len, rest)
    else if kind == 8 then ValidateText(s)
    else if kind == 11 then
      match ReadWord(s)
      case Bad(code) => Bad(code)
      case Got(_, more) =>
        match ReadWord(more)
        case Bad(code) => Bad(code)
        case Got(len, rest) => if |rest| < len then Bad(SHORT) else Got((), rest[len..])
    else
      var len := if kind == 4 || kind == 5 || kind == 7 then 8 else if kind == 10 then 16 else 4;
      if |s| < len then Bad(SHORT) else Got((), s[len..])
  }

  function ValidateMany(kind: nat, n: nat, s: seq<byte>): Got<()>
    decreases kind, n + 1
  {
    if n == 0 then Got((), s)
    else match Validate(kind, s)
      case Bad(code) => Bad(code)
      case Got(_, rest) => ValidateMany(kind, n - 1, rest)
  }

  function ValidateText(s: seq<byte>): Got<()> {
    match ReadWord(s)
    case Bad(code) => Bad(code)
    case Got(len, rest) => ValidTerminated(len, rest)
  }

  /** `len` bytes: no NUL before the last, well-formed, the last one and the padding zero. */
  function ValidTerminated(len: nat, rest: seq<byte>): Got<()> {
    if len == 0 || len > MAX_TEXT + 1 then Bad(BAD_STRING)
    else if |rest| < len + Pad(len) then Bad(SHORT)
    else if !NoNul(rest[0..len - 1]) || !Utf8.Accepts(rest[0..len - 1]) then Bad(BAD_STRING)
    else if rest[len - 1..len + Pad(len)] != Zeros(1 + Pad(len)) then Bad(BAD_STRING)
    else Got((), rest[len + Pad(len)..])
  }

  /** The `switch` on a field's tag. */
  function Find(entries: seq<Entry>, tag: nat, from: nat := 0): (i: nat)
    requires from <= |entries|
    ensures from <= i <= |entries|
    ensures i < |entries| ==> entries[i].tag == tag
    ensures forall j :: from <= j < i ==> entries[j].tag != tag
    decreases |entries| - from
  {
    if from == |entries| || entries[from].tag == tag then from else Find(entries, tag, from + 1)
  }

  /** One case of the `switch`: kind, validation, value, and nothing left over. */
  function DecodeKnown(entry: Entry, f: Raw): Got<Val>
    decreases entry, 1, 0
  {
    if f.kind != entry.kind then Bad(BAD_ARRAY)
    else match Validate(f.kind, f.payload)
      case Bad(code) => Bad(code)
      case Got(_, _) =>
        match Decode(entry.ty, f.payload)
        case Bad(code) => Bad(code)
        case Got(v, rest) => if rest != [] then Bad(TRAILING) else Got(v, [])
  }

  /** The loop over the fields of a body; `acc` holds the values met so far, by tag. */
  function DecodeEntries(entries: seq<Entry>, body: seq<byte>, tags: seq<nat>, acc: map<nat, Val>): Got<map<nat, Val>>
    decreases entries, 1, |body|
  {
    if body == [] then Got(acc, [])
    else match TaggedNext(body, tags)
      case Bad(code) => Bad(code)
      case Got(f, rest) =>
        var i := Find(entries, f.tag);
        if i == |entries| then DecodeEntries(entries, rest, tags + [f.tag], acc)
        else
          assert entries[i] in entries;
          match DecodeKnown(entries[i], f)
          case Bad(code) => Bad(code)
          case Got(v, _) => DecodeEntries(entries, rest, tags + [f.tag], acc[f.tag := v])
  }

  /** The whole body: the loop, then the check that every field of the schema was seen. */
  function DecodeBody(entries: seq<Entry>, body: seq<byte>): (r: Got<seq<Val>>)
    ensures r.Got? ==> |r.value| == |entries|
    decreases entries, 2, 0
  {
    match DecodeEntries(entries, body, [], map[])
    case Bad(code) => Bad(code)
    case Got(seen, _) =>
      if forall i :: 0 <= i < |entries| ==> entries[i].tag in seen
      then Got(seq(|entries|, i requires 0 <= i < |entries| => seen[entries[i].tag]), [])
      else Bad(SHORT)
  }

  /** A message decoder: the reader, then nothing may be left. */
  function DecodeMessage(ty: Ty, s: seq<byte>): Got<Val> {
    match Decode(ty, s)
    case Bad(code) => Bad(code)
    case Got(v, rest) => if rest != [] then Bad(TRAILING) else Got(v, [])
  }
}
