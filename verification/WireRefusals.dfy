/** What the readers refuse and with which code, and what they take, in terms of the bytes alone. */
module WireRefusals {
  import opened Common
  import opened Bytes
  import opened WireSpec
  import opened WireProofs

  /** The 32-bit number at a place, least significant byte first. */
  function NumberAt(s: seq<byte>, at: nat): (n: nat)
    requires at + 4 <= |s|
    ensures n < U32_LIMIT
  {
    s[at] as nat + 0x100 * s[at + 1] as nat + 0x1_0000 * s[at + 2] as nat + 0x100_0000 * s[at + 3] as nat
  }

  /** The least multiple of four from `n` on. */
  predicate RoundedUp(n: nat, m: nat) { m % 4 == 0 && n <= m < n + 4 }

  lemma WordAt(s: seq<byte>, at: nat)
    requires at <= |s|
    ensures ReadWord(s[at..]) == if at + 4 <= |s| then Got(NumberAt(s, at), s[at + 4..]) else Bad(SHORT)
  {
    if at + 4 <= |s| { assert s[at..][4..] == s[at + 4..]; }
  }

  lemma PadRounds(n: nat, m: nat)
    requires RoundedUp(n, m)
    ensures m == n + Pad(n)
  {
  }

  // ---------------------------------------------------------------- scalars and strings

  /** A word, a boolean and an enumeration need four bytes, a long eight; values out of range have their codes. */
  lemma ScalarsTaken(s: seq<byte>, limit: nat)
    ensures Decode(U32, s) == if |s| < 4 then Bad(SHORT) else Got(Num(NumberAt(s, 0)), s[4..])
    ensures Decode(U64, s) == if |s| < 8 then Bad(SHORT) else Got(Num(NumberAt(s, 0) + U32_LIMIT * NumberAt(s, 4)), s[8..])
    ensures Decode(Bool, s) == if |s| < 4 then Bad(SHORT) else if NumberAt(s, 0) > 1 then Bad(BAD_BOOL)
                               else Got(Num(NumberAt(s, 0)), s[4..])
    ensures Decode(Enum(limit), s) == if |s| < 4 then Bad(SHORT) else if NumberAt(s, 0) >= limit then Bad(BAD_ENUM)
                                      else Got(Num(NumberAt(s, 0)), s[4..])
  {
    hide NumberAt, Word;
    assert s[0..] == s;
    WordAt(s, 0);
    if |s| >= 8 { LongAt(s); }
  }

  lemma LongAt(s: seq<byte>)
    requires |s| >= 8
    ensures ReadLong(s) == Got(NumberAt(s, 0) + U32_LIMIT * NumberAt(s, 4), s[8..])
  {
  }

  lemma {:induction false} FirstNul(s: seq<byte>)
    requires s != [] && s[|s| - 1] == 0
    ensures var t := UpToNul(s); NoNul(t) && |t| < |s| && t == s[..|t|] && s[|t|] == 0
  {
    if s[0] != 0 {
      FirstNul(s[1..]);
      assert s == [s[0]] + s[1..];
    }
  }

  /** A string: its length counts the NUL and cannot be 0; the padded bytes must be there and the last one counted be
      a NUL. The value ends at the first NUL. `m` is the padded length. */
  lemma StringTaken(s: seq<byte>, m: nat)
    ensures |s| < 4 ==> ReadText(s) == Bad(SHORT)
    ensures |s| >= 4 && NumberAt(s, 0) == 0 ==> ReadText(s) == Bad(BAD_STRING)
    ensures |s| >= 4 && NumberAt(s, 0) > 0 && RoundedUp(NumberAt(s, 0), m) ==>
              var n := NumberAt(s, 0);
              && (|s| < 4 + m ==> ReadText(s) == Bad(SHORT))
              && (|s| >= 4 + m && s[4 + n - 1] != 0 ==> ReadText(s) == Bad(BAD_STRING))
              && (|s| >= 4 + m && s[4 + n - 1] == 0 ==>
                    && ReadText(s).Got? && ReadText(s).rest == s[4 + m..]
                    && var t := ReadText(s).value; NoNul(t) && |t| < n && t == s[4..4 + |t|] && s[4 + |t|] == 0)
  {
    hide NumberAt, UpToNul, NoNul, Pad;
    assert s[0..] == s;
    WordAt(s, 0);
    hide ReadWord;
    if |s| >= 4 && NumberAt(s, 0) > 0 && RoundedUp(NumberAt(s, 0), m) {
      PadRounds(NumberAt(s, 0), m);
      if |s| >= 4 + m { StringBody(s, NumberAt(s, 0), m); }
    }
  }

  lemma StringBody(s: seq<byte>, n: nat, m: nat)
    requires 0 < n <= m && 4 + m <= |s|
    ensures s[4..][n - 1] == s[4 + n - 1] && s[4..][m..] == s[4 + m..]
    ensures s[4 + n - 1] == 0 ==>
              var t := UpToNul(s[4..][..n]); NoNul(t) && |t| < n && t == s[4..4 + |t|] && s[4 + |t|] == 0
  {
    if s[4 + n - 1] == 0 {
      FirstNul(s[4..][..n]);
      var t := UpToNul(s[4..][..n]);
      assert s[4..][..n][..|t|] == s[4..4 + |t|] && s[4..][..n][|t|] == s[4 + |t|];
    }
  }

  /** A list that claims more elements than there are bytes left is refused before any is read. */
  lemma CountsTaken(elem: Ty, s: seq<byte>)
    ensures |s| < 4 ==> Decode(List(elem), s) == Bad(SHORT)
    ensures |s| >= 4 && NumberAt(s, 0) > |s| - 4 ==> Decode(List(elem), s) == Bad(BAD_ARRAY)
  {
    assert s[0..] == s;
    WordAt(s, 0);
  }

  // ---------------------------------------------------------------- what the writers refuse

  /** A string is written if its length with the NUL fits 32 bits; numbers always are. */
  lemma TextWritten(ty: Ty, v: Val)
    requires Typed(ty, v)
    ensures ty.U32? || ty.U64? || ty.Bool? || ty.Enum? ==> Encodable(ty, v)
    ensures ty.Text? ==> (Encodable(ty, v) <==> |v.s| + 1 < 0x1_0000_0000)
  {
  }

  /** A list or a positional record is written if all its parts are. */
  lemma PartsWritten(elem: Ty, fields: seq<Ty>, v: Val)
    ensures Typed(List(elem), v) ==>
              (Encodable(List(elem), v) <==> !exists i :: 0 <= i < |v.vs| && !Encodable(elem, v.vs[i]))
    ensures Typed(Rec(fields), v) ==>
              (Encodable(Rec(fields), v) <==> !exists i :: 0 <= i < |v.vs| && !Encodable(fields[i], v.vs[i]))
  {
  }

  /** A tagged record is written if all its parts are, each within 32 bits of length, and its body does not exceed
      65520 bytes. */
  lemma TaggedWritten(entries: seq<Entry>, v: Val)
    requires Typed(Tagged(entries), v)
    ensures Encodable(Tagged(entries), v) <==>
            && (forall i :: 0 <= i < |entries| ==> Encodable(entries[i].ty, v.vs[i]))
            && (forall i :: 0 <= i < |entries| ==> |Encode(entries[i].ty, v.vs[i])| < 0x1_0000_0000)
            && |Encode(Tagged(entries), v)| <= 8 + 65520
  {
    FramedLength(entries, v);
    hide Encode, PackAll, Raws;
  }

  lemma FramedLength(entries: seq<Entry>, v: Val)
    requires Typed(Tagged(entries), v)
    ensures |Encode(Tagged(entries), v)| == 8 + |PackAll(Raws(entries, v.vs))|
  {
    hide PackAll, Raws;
  }

  // ---------------------------------------------------------------- tagged records

  /** The head of a record: revision and length; a length over 65520 or not a multiple of four is refused, and the
      body must be there. A revision other than 1 is skipped. */
  lemma RecordTaken(s: seq<byte>)
    ensures |s| < 8 ==> TaggedBegin(s) == Bad(SHORT)
    ensures |s| >= 8 ==>
              var revision, n := NumberAt(s, 0), NumberAt(s, 4);
              TaggedBegin(s) ==
                if n > 65520 || n % 4 != 0 then Bad(BAD_ARRAY)
                else if |s| < 8 + n then Bad(SHORT)
                else Got(if revision == 1 then s[8..8 + n] else [], s[8 + n..])
  {
    assert s[0..] == s;
    WordAt(s, 0);
    if |s| >= 4 { WordAt(s, 4); }
    if |s| >= 8 && |s| >= 8 + NumberAt(s, 4) {
      var n := NumberAt(s, 4);
      assert s[8..][..n] == s[8..8 + n] && s[8..][n..] == s[8 + n..];
    }
  }

  /** Of a revision that is not known nothing is read: the record is missing every field, and what follows it is where
      the next thing begins. */
  lemma UnknownRevision(entries: seq<Entry>, revision: nat, body: seq<byte>, rest: seq<byte>)
    requires revision != 1 && revision < U32_LIMIT && |body| <= 65520 && |body| % 4 == 0
    ensures
      var s := Le32(revision) + Le32(|body|) + body + rest;
      Decode(Tagged(entries), s) == if entries == [] then Got(Vals([]), rest) else Bad(SHORT)
  {
    var s := Le32(revision) + Le32(|body|) + body + rest;
    assert s == Le32(revision) + (Le32(|body|) + (body + rest));
    WordRead(revision, Le32(|body|) + (body + rest));
    WordRead(|body|, body + rest);
    assert (body + rest)[|body|..] == rest;
    assert TaggedBegin(s) == Got([], rest);
    EmptyBody(entries);
  }

  lemma EmptyBody(entries: seq<Entry>)
    ensures DecodeBody(entries, []) == if entries == [] then Got([], []) else Bad(SHORT)
  {
    var none: map<nat, Val> := map[];
    assert DecodeEntries(entries, [], [], none) == Got(none, []);
    if entries != [] { assert entries[0].tag !in none; }
  }

  /** The next field of a body: tag, kind and length; tag 0, a length that is no multiple of four, a tag met before and
      a 257th field are refused, and the value must be there. */
  lemma FieldTaken(s: seq<byte>, tags: seq<nat>)
    ensures |tags| == 256 ==> TaggedNext(s, tags) == Bad(BAD_ARRAY)
    ensures |tags| != 256 && |s| < 12 ==> TaggedNext(s, tags) == Bad(SHORT)
    ensures |tags| != 256 && |s| >= 12 ==>
              var tag, kind, n := NumberAt(s, 0), NumberAt(s, 4), NumberAt(s, 8);
              TaggedNext(s, tags) ==
                if tag == 0 || n % 4 != 0 || tag in tags then Bad(BAD_ARRAY)
                else if |s| < 12 + n then Bad(SHORT)
                else Got(Raw(tag, kind, s[12..12 + n]), s[12 + n..])
  {
    assert s[0..] == s;
    WordAt(s, 0);
    if |s| >= 4 { WordAt(s, 4); }
    if |s| >= 8 { WordAt(s, 8); }
    if |s| >= 12 && |s| >= 12 + NumberAt(s, 8) {
      var n := NumberAt(s, 8);
      assert s[12..][..n] == s[12..12 + n] && s[12..][n..] == s[12 + n..];
    }
  }

  /** Values of a fixed size: a word by default, eight bytes for the long kinds, sixteen for a rectangle. */
  lemma FixedTaken(kind: nat, s: seq<byte>)
    requires kind < 0x100 && kind != 8 && kind != 9 && kind != 11
    ensures
      var n := if kind in {4, 5, 7} then 8 else if kind == 10 then 16 else 4;
      Validate(kind, s) == if |s| < n then Bad(SHORT) else Got((), s[n..])
  {
  }

  /** The validator's string: from 1 to 4097 bytes with the NUL, no NUL before it, well-formed, and zero from it to
      the padded end. `m` is the padded length. */
  lemma ValidString(s: seq<byte>, m: nat)
    ensures |s| < 4 ==> Validate(8, s) == Bad(SHORT)
    ensures |s| >= 4 && (NumberAt(s, 0) == 0 || NumberAt(s, 0) > 4097) ==> Validate(8, s) == Bad(BAD_STRING)
    ensures |s| >= 4 && 0 < NumberAt(s, 0) <= 4097 && RoundedUp(NumberAt(s, 0), m) ==>
              var n := NumberAt(s, 0);
              && (|s| < 4 + m ==> Validate(8, s) == Bad(SHORT))
              && (|s| >= 4 + m ==>
                    var ok := && NoNul(s[4..4 + n - 1]) && Utf8.Accepts(s[4..4 + n - 1])
                              && forall i :: 4 + n - 1 <= i < 4 + m ==> s[i] == 0;
                    Validate(8, s) == if ok then Got((), s[4 + m..]) else Bad(BAD_STRING))
  {
    hide Utf8.Accepts, NoNul, ValidTerminated, NumberAt;
    assert s[0..] == s;
    WordAt(s, 0);
    hide ReadWord;
    if |s| >= 4 { ValidBody(NumberAt(s, 0), s[4..], m); }
    if |s| >= 4 && 0 < NumberAt(s, 0) <= 4097 && RoundedUp(NumberAt(s, 0), m) && |s| >= 4 + m {
      Shifted(s, NumberAt(s, 0), m);
    }
  }

  lemma Shifted(s: seq<byte>, n: nat, m: nat)
    requires 0 < n <= m && 4 + m <= |s|
    ensures s[4..][0..n - 1] == s[4..4 + n - 1] && s[4..][m..] == s[4 + m..]
    ensures (forall i :: n - 1 <= i < m ==> s[4..][i] == 0) <==> forall i :: 4 + n - 1 <= i < 4 + m ==> s[i] == 0
  {
    assert forall i :: 4 <= i < |s| ==> s[4..][i - 4] == s[i];
  }

  lemma ValidBody(n: nat, rest: seq<byte>, m: nat)
    ensures n == 0 || n > 4097 ==> ValidTerminated(n, rest) == Bad(BAD_STRING)
    ensures 0 < n <= 4097 && RoundedUp(n, m) ==>
              && (|rest| < m ==> ValidTerminated(n, rest) == Bad(SHORT))
              && (|rest| >= m ==>
                    var ok := NoNul(rest[0..n - 1]) && Utf8.Accepts(rest[0..n - 1]) && forall i :: n - 1 <= i < m ==> rest[i] == 0;
                    ValidTerminated(n, rest) == if ok then Got((), rest[m..]) else Bad(BAD_STRING))
  {
    hide Utf8.Accepts, NoNul;
    if 0 < n <= 4097 && RoundedUp(n, m) && |rest| >= m {
      PadRounds(n, m);
      ZerosAre(rest, n - 1, m);
    }
  }

  lemma ZerosAre(s: seq<byte>, from: nat, to: nat)
    requires from <= to <= |s|
    ensures s[from..to] == Zeros(to - from) <==> forall i :: from <= i < to ==> s[i] == 0
  {
    if s[from..to] == Zeros(to - from) {
      forall i | from <= i < to ensures s[i] == 0 { assert s[from..to][i - from] == s[i]; }
    }
  }

  /** An array has at most 1024 elements of its kind, a key-value list at most 1024 pairs of strings; a record stands
      behind its revision and length and is skipped whole. */
  lemma CompoundTaken(kind: nat, s: seq<byte>)
    requires kind >= 0x100 || kind == 9 || kind == 11
    ensures kind != 11 && |s| < 4 ==> Validate(kind, s) == Bad(SHORT)
    ensures kind != 11 && |s| >= 4 ==>
              var n := NumberAt(s, 0);
              && (n > 1024 ==> Validate(kind, s) == Bad(BAD_ARRAY))
              && (n <= 1024 && kind >= 0x100 ==> Validate(kind, s) == ValidateMany(kind - 0x100, n, s[4..]))
              && (n <= 1024 && kind == 9 ==> Validate(kind, s) == ValidateMany(8, 2 * n, s[4..]))
    ensures kind == 11 ==>
              Validate(kind, s) == if |s| < 8 || |s| < 8 + NumberAt(s, 4) then Bad(SHORT) else Got((), s[8 + NumberAt(s, 4)..])
  {
    assert s[0..] == s;
    WordAt(s, 0);
    if |s| >= 4 { WordAt(s, 4); }
    if |s| >= 8 && |s| >= 8 + NumberAt(s, 4) { assert s[8..][NumberAt(s, 4)..] == s[8 + NumberAt(s, 4)..]; }
  }

  /** So many values one after the other; the first one refused decides. */
  lemma ManyTaken(kind: nat, n: nat, s: seq<byte>)
    ensures ValidateMany(kind, 0, s) == Got((), s)
    ensures Validate(kind, s).Bad? ==> ValidateMany(kind, n + 1, s) == Bad(Validate(kind, s).code)
    ensures Validate(kind, s).Got? ==> ValidateMany(kind, n + 1, s) == ValidateMany(kind, n, Validate(kind, s).rest)
  {
  }

  /** A known field has the kind of the schema, passes the value check, and leaves nothing of its value unread; a
      message leaves nothing unread either. */
  lemma NothingLeftOver(entry: Entry, f: Raw, ty: Ty, s: seq<byte>)
    ensures f.kind != entry.kind ==> DecodeKnown(entry, f) == Bad(BAD_ARRAY)
    ensures f.kind == entry.kind && Validate(f.kind, f.payload).Bad? ==>
              DecodeKnown(entry, f) == Bad(Validate(f.kind, f.payload).code)
    ensures f.kind == entry.kind && Validate(f.kind, f.payload).Got? ==>
              match Decode(entry.ty, f.payload)
              case Bad(code) => DecodeKnown(entry, f) == Bad(code)
              case Got(v, rest) => DecodeKnown(entry, f) == if rest == [] then Got(v, []) else Bad(TRAILING)
    ensures Decode(ty, s).Got? && Decode(ty, s).rest != [] ==> DecodeMessage(ty, s) == Bad(TRAILING)
    ensures Decode(ty, s).Bad? ==> DecodeMessage(ty, s) == Bad(Decode(ty, s).code)
  {
  }
}
