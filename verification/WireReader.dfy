/** The cursor reader and the decoding loops, as the C code has them. Each is proved to take from the
    buffer exactly what the function of the same name in `WireSpec` says, or to fail with its code. */
module WireReader {
  import opened Common
  import opened Bytes
  import Utf8
  import opened WireSpec

  datatype Result<+T> = Ok(value: T) | Err(code: int)

  /** The reader took what the specification takes. */
  predicate Took<T(==)>(g: Got<T>, r: Result<T>, rest: seq<byte>) {
    match g
    case Got(value, more) => r == Ok(value) && rest == more
    case Bad(code) => r == Err(code)
  }

  /** Values already read, put in front of what is still to come. */
  function After(vs: seq<Val>, g: Got<seq<Val>>): Got<seq<Val>> {
    match g case Got(more, rest) => Got(vs + more, rest) case Bad(code) => Bad(code)
  }

  lemma AfterAll(vs: seq<Val>, rest: seq<byte>)
    ensures After(vs, Got([], rest)) == Got(vs, rest)
  {
    assert vs + [] == vs;
  }

  lemma AfterNothing(g: Got<seq<Val>>)
    ensures After([], g) == g
  {
    if g.Got? { assert [] + g.value == g.value; }
  }

  /** One element more is read. */
  lemma NextItem(elem: Ty, n: nat, s: seq<byte>, vs: seq<Val>)
    requires n > 0
    ensures match Decode(elem, s)
            case Bad(code) => After(vs, DecodeItems(elem, n, s)) == Bad(code)
            case Got(v, rest) => After(vs, DecodeItems(elem, n, s)) == After(vs + [v], DecodeItems(elem, n - 1, rest))
  {
    hide Decode;
    match Decode(elem, s)
    case Bad(_) =>
    case Got(v, rest) => AfterOne(vs, v, DecodeItems(elem, n - 1, rest));
  }

  lemma NextField(fields: seq<Ty>, s: seq<byte>, vs: seq<Val>)
    requires fields != []
    ensures match Decode(fields[0], s)
            case Bad(code) => After(vs, DecodeFields(fields, s)) == Bad(code)
            case Got(v, rest) => After(vs, DecodeFields(fields, s)) == After(vs + [v], DecodeFields(fields[1..], rest))
  {
    hide Decode;
    match Decode(fields[0], s)
    case Bad(_) =>
    case Got(v, rest) => AfterOne(vs, v, DecodeFields(fields[1..], rest));
  }

  lemma AfterOne(vs: seq<Val>, v: Val, g: Got<seq<Val>>)
    ensures After(vs, After([v], g)) == After(vs + [v], g)
  {
    if g.Got? { assert vs + ([v] + g.value) == vs + [v] + g.value; }
  }

  class Reader {
    const buf: seq<byte>
    var pos: nat

    ghost predicate Valid()
      reads this
    {
      pos <= |buf|
    }

    ghost function Rest(): seq<byte>
      requires Valid()
      reads this
    {
      buf[pos..]
    }

    constructor (buf: seq<byte>)
      ensures Valid() && this.buf == buf && pos == 0 && Rest() == buf
    {
      this.buf, pos := buf, 0;
    }

    method ReadWord() returns (r: Result<nat>)
      requires Valid()
      modifies this
      ensures Valid() && Took(WireSpec.ReadWord(old(Rest())), r, Rest())
    {
      if |buf| - pos < 4 { return Err(SHORT); }
      r := Ok(buf[pos] as nat + 256 * buf[pos + 1] as nat + 65536 * buf[pos + 2] as nat + 16777216 * buf[pos + 3] as nat);
      pos := pos + 4;
    }

    method ReadLong() returns (r: Result<nat>)
      requires Valid()
      modifies this
      ensures Valid() && Took(WireSpec.ReadLong(old(Rest())), r, Rest())
    {
      if |buf| - pos < 8 { return Err(SHORT); }
      var low := buf[pos] as nat + 256 * buf[pos + 1] as nat + 65536 * buf[pos + 2] as nat + 16777216 * buf[pos + 3] as nat;
      var high := buf[pos + 4] as nat + 256 * buf[pos + 5] as nat + 65536 * buf[pos + 6] as nat + 16777216 * buf[pos + 7] as nat;
      r := Ok(low + U32_LIMIT * high);
      pos := pos + 8;
    }

    /** The C string at the front of `len` bytes. */
    method CopyString(len: nat) returns (s: seq<byte>)
      requires Valid() && 0 < len <= |buf| - pos
      ensures s == UpToNul(buf[pos..][..len])
    {
      ghost var all := buf[pos..][..len];
      var i := 0;
      s := [];
      while i < len && buf[pos + i] != 0
        invariant i <= len && UpToNul(all) == s + UpToNul(all[i..])
      {
        assert all[i..][1..] == all[i + 1..];
        s := s + [buf[pos + i]];
        i := i + 1;
      }
    }

    method ReadText() returns (r: Result<seq<byte>>)
      requires Valid()
      modifies this
      ensures Valid() && Took(WireSpec.ReadText(old(Rest())), r, Rest())
    {
      var n := ReadWord();
      if n.Err? { return Err(n.code); }
      var len := n.value;
      if len == 0 { return Err(BAD_STRING); }
      var padded := (len + 3) / 4 * 4;
      assert padded == len + Pad(len);
      if |buf| - pos < padded { return Err(SHORT); }
      if buf[pos + len - 1] != 0 { return Err(BAD_STRING); }
      var s := CopyString(len);
      r := Ok(s);
      pos := pos + padded;
    }

    /** The generated reader of a schema. */
    method Read(ty: Ty) returns (r: Result<Val>)
      requires Valid()
      modifies this
      ensures Valid() && Took(Decode(ty, old(Rest())), r, Rest())
      decreases ty, 0, 0
    {
      match ty {
        case U32 =>
          var n := ReadWord();
          r := if n.Ok? then Ok(Num(n.value)) else Err(n.code);
        case Bool =>
          var n := ReadWord();
          r := if n.Err? then Err(n.code) else if n.value > 1 then Err(BAD_BOOL) else Ok(Num(n.value));
        case U64 =>
          var n := ReadLong();
          r := if n.Ok? then Ok(Num(n.value)) else Err(n.code);
        case Enum(limit) =>
          var n := ReadWord();
          r := if n.Err? then Err(n.code) else if n.value >= limit then Err(BAD_ENUM) else Ok(Num(n.value));
        case Text =>
          var s := ReadText();
          r := if s.Ok? then Ok(Str(s.value)) else Err(s.code);
        case List(elem) =>
          var n := ReadWord();
          if n.Err? { return Err(n.code); }
          if n.value > |buf| - pos { return Err(BAD_ARRAY); }
          var vs := ReadItems(elem, n.value);
          r := if vs.Ok? then Ok(Vals(vs.value)) else Err(vs.code);
        case Rec(fields) =>
          var vs := ReadFields(fields);
          r := if vs.Ok? then Ok(Vals(vs.value)) else Err(vs.code);
        case Tagged(entries) =>
          var body := TaggedBegin();
          if body.Err? { return Err(body.code); }
          var vs := ReadBody(entries, body.value);
          r := if vs.Ok? then Ok(Vals(vs.value)) else Err(vs.code);
      }
    }

    method ReadItems(elem: Ty, n: nat) returns (r: Result<seq<Val>>)
      requires Valid()
      modifies this
      ensures Valid() && Took(DecodeItems(elem, n, old(Rest())), r, Rest())
      decreases elem, 1, 0
    {
      hide Decode, After;
      var vs := [];
      var i := 0;
      AfterNothing(DecodeItems(elem, n, Rest()));
      while i < n
        invariant i <= n && Valid()
        invariant DecodeItems(elem, n, old(Rest())) == After(vs, DecodeItems(elem, n - i, Rest()))
      {
        ghost var here := Rest();
        var v := Read(elem);
        NextItem(elem, n - i, here, vs);
        if v.Err? { return Err(v.code); }
        vs := vs + [v.value];
        i := i + 1;
      }
      AfterAll(vs, Rest());
      r := Ok(vs);
    }

    method ReadFields(fields: seq<Ty>) returns (r: Result<seq<Val>>)
      requires Valid()
      modifies this
      ensures Valid() && Took(DecodeFields(fields, old(Rest())), r, Rest())
      decreases fields, 0, 0
    {
      hide Decode, After;
      var vs := [];
      var i := 0;
      AfterNothing(DecodeFields(fields, Rest()));
      assert fields[0..] == fields;
      while i < |fields|
        invariant i <= |fields| && Valid()
        invariant DecodeFields(fields, old(Rest())) == After(vs, DecodeFields(fields[i..], Rest()))
      {
        assert fields[i..][1..] == fields[i + 1..];
        ghost var here := Rest();
        var v := Read(fields[i]);
        NextField(fields[i..], here, vs);
        if v.Err? { return Err(v.code); }
        vs := vs + [v.value];
        i := i + 1;
      }
      AfterAll(vs, Rest());
      r := Ok(vs);
    }

    // -------------------------------------------------------------- tagged records

    method TaggedBegin() returns (r: Result<seq<byte>>)
      requires Valid()
      modifies this
      ensures Valid() && Took(WireSpec.TaggedBegin(old(Rest())), r, Rest())
    {
      var revision := ReadWord();
      if revision.Err? { return Err(revision.code); }
      var len := ReadWord();
      if len.Err? { return Err(len.code); }
      if len.value > MAX_BODY || len.value % 4 != 0 { return Err(BAD_ARRAY); }
      if |buf| - pos < len.value { return Err(SHORT); }
      assert buf[pos..pos + len.value] == Rest()[..len.value];
      r := Ok(if revision.value == REVISION then buf[pos..pos + len.value] else []);
      pos := pos + len.value;
    }

    /** The value check of a field of a given kind. */
    method Validate(kind: nat) returns (r: Result<()>)
      requires Valid()
      modifies this
      ensures Valid() && Took(WireSpec.Validate(kind, old(Rest())), r, Rest())
      decreases kind, 0
    {
      if kind >= 0x100 || kind == 9 {
        var len := ReadWord();
        if len.Err? { return Err(len.code); }
        if len.value > 1024 { return Err(BAD_ARRAY); }
        r := ValidateMany(if kind == 9 then 8 else kind - 0x100, if kind == 9 then 2 * len.value else len.value);
        return;
      }
      if kind == 8 {
        r := ValidateText();
        return;
      }
      var len := if kind == 4 || kind == 5 || kind == 7 then 8 else if kind == 10 then 16 else 4;
      if kind == 11 {
        var revision := ReadWord();
        if revision.Err? { return Err(revision.code); }
        var n := ReadWord();
        if n.Err? { return Err(n.code); }
        len := n.value;
      }
      if |buf| - pos < len { return Err(SHORT); }
      pos := pos + len;
      r := Ok(());
    }

    method ValidateMany(kind: nat, n: nat) returns (r: Result<()>)
      requires Valid()
      modifies this
      ensures Valid() && Took(WireSpec.ValidateMany(kind, n, old(Rest())), r, Rest())
      decreases kind, 1
    {
      hide WireSpec.Validate;
      var i := 0;
      while i < n
        invariant i <= n && Valid()
        invariant WireSpec.ValidateMany(kind, n, old(Rest())) == WireSpec.ValidateMany(kind, n - i, Rest())
      {
        r := Validate(kind);
        if r.Err? { return; }
        i := i + 1;
      }
      r := Ok(());
    }

    method ValidateText() returns (r: Result<()>)
      requires Valid()
      modifies this
      ensures Valid() && Took(WireSpec.ValidateText(old(Rest())), r, Rest())
    {
      hide Utf8.Accepts, NoNul, Word, Zeros, Pad;
      var n := ReadWord();
      if n.Err? { return Err(n.code); }
      r := ValidateBytes(n.value);
    }

    /** The `len` bytes of a string and its padding. */
    method ValidateBytes(len: nat) returns (r: Result<()>)
      requires Valid()
      modifies this
      ensures Valid() && Took(ValidTerminated(len, old(Rest())), r, Rest())
    {
      hide Utf8.Accepts, NoNul, Zeros;
      if len == 0 || len > MAX_TEXT + 1 { return Err(BAD_STRING); }
      var padded := (len + 3) / 4 * 4;
      assert padded == len + Pad(len);
      hide Pad;
      if |buf| - pos < padded { return Err(SHORT); }
      var text, tail := buf[pos..pos + len - 1], buf[pos + len - 1..pos + padded];
      Slice(buf, pos, 0, len - 1);
      Slice(buf, pos, len - 1, padded);
      var ok := CheckText(text, tail);
      if !ok { return Err(BAD_STRING); }
      Drop(buf, pos, padded);
      pos := pos + padded;
      r := Ok(());
    }

    static lemma Slice(s: seq<byte>, at: nat, from: nat, to: nat)
      requires from <= to && at + to <= |s|
      ensures s[at..][from..to] == s[at + from..at + to]
    {
    }

    static lemma Drop(s: seq<byte>, at: nat, n: nat)
      requires at + n <= |s|
      ensures s[at..][n..] == s[at + n..]
    {
    }
  }

  /** The bytes of a string: no NUL before its end, well-formed, and nothing but zeros after. */
  method CheckText(text: seq<byte>, tail: seq<byte>) returns (ok: bool)
    ensures ok == (NoNul(text) && Utf8.Accepts(text) && tail == Zeros(|tail|))
  {
    if exists i :: 0 <= i < |text| && text[i] == 0 { return false; }
    Utf8.AcceptsExactly(text);
    var wellFormed := Utf8.TaggedUtf8(text);
    if !wellFormed { return false; }
    for i := 0 to |tail|
      invariant forall j :: 0 <= j < i ==> tail[j] == 0
    {
      if tail[i] != 0 { return false; }
    }
    ok := true;
  }

  function Head(s: seq<byte>): Got<(nat, nat, nat)> {
    match WireSpec.ReadWord(s)
    case Bad(code) => Bad(code)
    case Got(tag, more) =>
      match WireSpec.ReadWord(more)
      case Bad(code) => Bad(code)
      case Got(kind, further) =>
        match WireSpec.ReadWord(further)
        case Bad(code) => Bad(code)
        case Got(len, rest) => Got((tag, kind, len), rest)
  }

  lemma HeadFirst(s: seq<byte>, tags: seq<nat>)
    ensures TaggedNext(s, tags) ==
            if |tags| == MAX_FIELDS then Bad(BAD_ARRAY)
            else match Head(s)
              case Bad(code) => Bad(code)
              case Got(head, rest) =>
                if head.0 == 0 || head.2 % 4 != 0 || head.0 in tags then Bad(BAD_ARRAY)
                else if |rest| < head.2 then Bad(SHORT)
                else Got(Raw(head.0, head.1, rest[..head.2]), rest[head.2..])
  {
    hide Word;
  }

  /** A reader over the body of a record that remembers the tags it has met. */
  class TaggedReader {
    const body: Reader
    const tags: array<nat>
    var count: nat

    ghost predicate Valid()
      reads this, body, tags
    {
      body.Valid() && tags.Length == MAX_FIELDS && count <= MAX_FIELDS
    }

    constructor (buf: seq<byte>)
      ensures Valid() && fresh(body) && fresh(tags) && count == 0 && body.Rest() == buf
    {
      body := new Reader(buf);
      tags := new nat[MAX_FIELDS](_ => 0);
      count := 0;
    }

    method Next() returns (r: Result<Raw>)
      requires Valid()
      modifies this, body, tags
      ensures Valid() && Took(TaggedNext(old(body.Rest()), old(tags[..count])), r, body.Rest())
      ensures r.Ok? ==> tags[..count] == old(tags[..count]) + [r.value.tag] && body.pos > old(body.pos)
    {
      hide Head;
      HeadFirst(body.Rest(), tags[..count]);
      if count == MAX_FIELDS { return Err(BAD_ARRAY); }
      var head := ReadHead();
      if head.Err? { return Err(head.code); }
      var (tag, kind, len) := head.value;
      if tag == 0 || len % 4 != 0 { return Err(BAD_ARRAY); }
      var known := Met(tag);
      if known { return Err(BAD_ARRAY); }
      tags[count] := tag;
      count := count + 1;
      if |body.buf| - body.pos < len { return Err(SHORT); }
      assert body.buf[body.pos..body.pos + len] == body.Rest()[..len];
      r := Ok(Raw(tag, kind, body.buf[body.pos..body.pos + len]));
      body.pos := body.pos + len;
    }

    /** Tag, kind and length of a field. */
    method ReadHead() returns (r: Result<(nat, nat, nat)>)
      requires Valid()
      modifies body
      ensures Valid() && Took(Head(old(body.Rest())), r, body.Rest()) && (r.Ok? ==> body.pos > old(body.pos))
    {
      hide Word;
      var tag := body.ReadWord();
      if tag.Err? { return Err(tag.code); }
      var kind := body.ReadWord();
      if kind.Err? { return Err(kind.code); }
      var len := body.ReadWord();
      if len.Err? { return Err(len.code); }
      r := Ok((tag.value, kind.value, len.value));
    }

    method Met(tag: nat) returns (met: bool)
      requires Valid()
      ensures met == (tag in tags[..count])
    {
      for i := 0 to count
        invariant tag !in tags[..i]
      {
        if tags[i] == tag { return true; }
      }
      met := false;
    }
  }

  /** One case of the `switch` over the tags. */
  method ReadKnown(entry: Entry, f: Raw) returns (r: Result<Val>)
    ensures r == (match DecodeKnown(entry, f) case Got(v, _) => Ok(v) case Bad(code) => Err(code))
    decreases entry, 1, 0
  {
    if f.kind != entry.kind { return Err(BAD_ARRAY); }
    var probe := new Reader(f.payload);
    var checked := probe.Validate(f.kind);
    if checked.Err? { return Err(checked.code); }
    var field := new Reader(f.payload);
    r := field.Read(entry.ty);
    if r.Ok? && field.pos != |field.buf| { r := Err(TRAILING); }
  }

  /** The field loop of a generated tagged reader, and the check for what was not seen. */
  method ReadBody(entries: seq<Entry>, buf: seq<byte>) returns (r: Result<seq<Val>>)
    ensures r == (match DecodeBody(entries, buf) case Got(vs, _) => Ok(vs) case Bad(code) => Err(code))
    decreases entries, 2, 0
  {
    hide DecodeKnown, TaggedNext;
    var fields := new TaggedReader(buf);
    var seen: map<nat, Val> := map[];
    while fields.body.pos != |fields.body.buf|
      invariant fields.Valid() && fresh(fields) && fresh(fields.body) && fresh(fields.tags)
      invariant DecodeEntries(entries, buf, [], map[])
             == DecodeEntries(entries, fields.body.Rest(), fields.tags[..fields.count], seen)
      decreases |fields.body.buf| - fields.body.pos
    {
      var f := fields.Next();
      if f.Err? { return Err(f.code); }
      var i := Find(entries, f.value.tag);
      if i < |entries| {
        assert entries[i] in entries;
        var v := ReadKnown(entries[i], f.value);
        if v.Err? { return Err(v.code); }
        seen := seen[f.value.tag := v.value];
      }
    }
    for i := 0 to |entries|
      invariant forall j :: 0 <= j < i ==> entries[j].tag in seen
    {
      if entries[i].tag !in seen { return Err(SHORT); }
    }
    r := Ok(seq(|entries|, i requires 0 <= i < |entries| => seen[entries[i].tag]));
  }

  /** A message decoder. */
  method ReadMessage(ty: Ty, buf: seq<byte>) returns (r: Result<Val>)
    ensures r == (match DecodeMessage(ty, buf) case Got(v, _) => Ok(v) case Bad(code) => Err(code))
  {
    var reader := new Reader(buf);
    r := reader.Read(ty);
    if r.Ok? && reader.pos != |reader.buf| { r := Err(TRAILING); }
  }
}
