/** The readers accept more than the writers produce: unknown fields, fields in any order, other
    padding, characters behind a NUL. What they make of it is always a message again: it can be
    written, it takes no more room than the bytes it came from, and it is read back unchanged. */
module WireStable {
  import opened Common
  import Utf8
  import opened Bytes
  import opened WireSpec
  import opened WireProofs

  /** A value that can be sent again, in the room of `n` bytes. */
  predicate Resendable(ty: Ty, v: Val, n: nat) {
    Typed(ty, v) && Sendable(ty, v) && |Encode(ty, v)| <= n
  }

  lemma {:induction false} UpToNulShort(s: seq<byte>)
    requires s != [] && s[|s| - 1] == 0
    ensures NoNul(UpToNul(s)) && |UpToNul(s)| < |s|
    ensures NoNul(s[..|s| - 1]) ==> UpToNul(s) == s[..|s| - 1]
  {
    if s[0] != 0 {
      assert s[1..][|s| - 2] == 0;
      UpToNulShort(s[1..]);
      assert s[1..][..|s| - 2] == s[..|s| - 1][1..];
    }
  }

  lemma PadMonotone(a: nat, b: nat)
    requires a <= b
    ensures a + Pad(a) <= b + Pad(b)
  {
  }

  lemma TextGood(s: seq<byte>)
    requires ReadText(s).Got?
    ensures var t := ReadText(s).value;
            NoNul(t) && |t| <= U32_LIMIT - 2 && 4 + |Terminated(t)| + |ReadText(s).rest| <= |s|
  {
    var len, rest := Word(s), s[4..];
    UpToNulShort(rest[..len]);
    PadMonotone(|ReadText(s).value| + 1, len);
  }

  /** What the validator adds for a string of a tagged record. */
  lemma ValidTextGood(s: seq<byte>)
    requires ValidateText(s).Got? && ReadText(s).Got?
    ensures |ReadText(s).value| <= MAX_TEXT && Utf8.Accepts(ReadText(s).value)
  {
    var len, rest := Word(s), s[4..];
    assert rest[..len][..len - 1] == rest[..len - 1];
    UpToNulShort(rest[..len]);
  }

  lemma {:induction false} DecodedResendable(ty: Ty, s: seq<byte>)
    requires WellFormed(ty) && Decode(ty, s).Got?
    ensures |Decode(ty, s).rest| <= |s| && Resendable(ty, Decode(ty, s).value, |s| - |Decode(ty, s).rest|)
    decreases ty, 4, 0
  {
    hide DecodeItems, DecodeFields, DecodeBody, EncodeItems, EncodeFields, PackAll, Raws, Terminated;
    match ty
    case Text => TextGood(s);
    case List(elem) => ItemsResendable(elem, Word(s), s[4..]);
    case Rec(fields) => FieldsResendable(fields, s);
    case Tagged(entries) => BodyResendable(entries, TaggedBegin(s).value);
    case _ =>
  }

  lemma {:induction false} ItemsResendable(elem: Ty, n: nat, s: seq<byte>)
    requires WellFormed(elem) && DecodeItems(elem, n, s).Got?
    ensures var vs, rest := DecodeItems(elem, n, s).value, DecodeItems(elem, n, s).rest;
            && (forall i :: 0 <= i < n ==> Typed(elem, vs[i]) && Sendable(elem, vs[i]))
            && |EncodeItems(elem, vs)| + |rest| <= |s|
    decreases elem, 5, n
  {
    hide Decode, Encode, Sendable, Typed;
    if n > 0 {
      DecodedResendable(elem, s);
      ItemsResendable(elem, n - 1, Decode(elem, s).rest);
      var vs := DecodeItems(elem, n, s).value;
      assert vs[1..] == DecodeItems(elem, n - 1, Decode(elem, s).rest).value;
    }
  }

  lemma {:induction false} FieldsResendable(fields: seq<Ty>, s: seq<byte>)
    requires (forall i :: 0 <= i < |fields| ==> WellFormed(fields[i])) && DecodeFields(fields, s).Got?
    ensures var vs, rest := DecodeFields(fields, s).value, DecodeFields(fields, s).rest;
            && (forall i :: 0 <= i < |fields| ==> Typed(fields[i], vs[i]) && Sendable(fields[i], vs[i]))
            && |EncodeFields(fields, vs)| + |rest| <= |s|
    decreases fields, 0, 0
  {
    hide Decode, Encode, Sendable, Typed;
    if fields != [] {
      DecodedResendable(fields[0], s);
      FieldsResendable(fields[1..], Decode(fields[0], s).rest);
      var vs := DecodeFields(fields, s).value;
      assert vs[1..] == DecodeFields(fields[1..], Decode(fields[0], s).rest).value;
    }
  }

  lemma {:induction false} KnownResendable(entry: Entry, f: Raw, v: Val)
    requires WellFormed(entry.ty) && KindOk(entry.kind, entry.ty) && Gives(entry, f, v)
    ensures Resendable(entry.ty, v, |f.payload|) && TextOk(entry.ty, v)
    decreases entry, 1, 0
  {
    DecodedResendable(entry.ty, f.payload);
    if entry.ty.Text? {
      ValidTextGood(f.payload);
    }
  }

  lemma {:induction false} BodyResendable(entries: seq<Entry>, body: seq<byte>)
    requires WellFormed(Tagged(entries)) && DecodeBody(entries, body).Got? && |body| <= MAX_BODY
    ensures var vs := DecodeBody(entries, body).value;
            && Typed(Tagged(entries), Vals(vs)) && Sendable(Tagged(entries), Vals(vs))
            && |PackAll(Raws(entries, vs))| <= |body|
    decreases entries, 2, 0
  {
    var vs := DecodeBody(entries, body).value;
    var fs := FieldsOfBody(entries, body, vs);
    forall i | 0 <= i < |entries| ensures Held(entries[i], fs, vs[i]) {
      assert entries[i] in entries && Given(entries[i], fs, vs[i]);
      GivenIsHeld(entries, i, fs, vs[i]);
    }
    EntriesFit(entries, fs, vs);
    HeldSendable(entries, fs, vs);
  }

  lemma HeldSendable(entries: seq<Entry>, fs: seq<Raw>, vs: seq<Val>)
    requires |vs| == |entries| && forall i :: 0 <= i < |entries| ==> Held(entries[i], fs, vs[i])
    requires |PackAll(fs)| <= MAX_BODY
    requires forall i, j :: 0 <= i < j < |entries| ==> entries[i].tag != entries[j].tag
    ensures Typed(Tagged(entries), Vals(vs)) && Sendable(Tagged(entries), Vals(vs))
  {
    hide Held, PackAll, Raws, TextOk, Encode;
    EntriesFit(entries, fs, vs);
    forall i | 0 <= i < |entries|
      ensures Typed(entries[i].ty, vs[i]) && Sendable(entries[i].ty, vs[i]) && TextOk(entries[i].ty, vs[i])
      ensures Encodable(entries[i].ty, vs[i]) && |Encode(entries[i].ty, vs[i])| < U32_LIMIT
    {
      HeldShort(entries[i], fs, vs[i]);
    }
  }

  lemma HeldShort(entry: Entry, fs: seq<Raw>, v: Val)
    requires Held(entry, fs, v) && |PackAll(fs)| <= MAX_BODY
    ensures Typed(entry.ty, v) && Sendable(entry.ty, v) && TextOk(entry.ty, v)
    ensures Encodable(entry.ty, v) && |Encode(entry.ty, v)| < U32_LIMIT
  {
    hide PackAll, Encode;
    var j :| 0 <= j < |fs| && HeldBy(entry, fs[j], v);
    PackLength(fs, j);
  }

  lemma GivenIsHeld(entries: seq<Entry>, i: nat, fs: seq<Raw>, v: Val)
    requires i < |entries| && WellFormed(Tagged(entries)) && Given(entries[i], fs, v)
    ensures Held(entries[i], fs, v)
    decreases entries, 1, 0
  {
    var j :| 0 <= j < |fs| && Gives(entries[i], fs[j], v);
    KnownResendable(entries[i], fs[j], v);
    PackLength(fs, j);
  }

  /** Some field with the entry's tag has room for the value. */
  predicate Held(entry: Entry, fs: seq<Raw>, v: Val) {
    Typed(entry.ty, v) && Sendable(entry.ty, v) && TextOk(entry.ty, v)
    && exists j :: 0 <= j < |fs| && HeldBy(entry, fs[j], v)
  }

  predicate HeldBy(entry: Entry, f: Raw, v: Val)
    requires Typed(entry.ty, v)
  {
    f.tag == entry.tag && |Encode(entry.ty, v)| <= |f.payload|
  }

  lemma {:induction false} Without(fs: seq<Raw>, j: nat)
    requires j < |fs|
    ensures |PackAll(fs[..j] + fs[j + 1..])| + 12 + |fs[j].payload| == |PackAll(fs)|
    decreases |fs|
  {
    if j == 0 {
      assert fs[..0] + fs[1..] == fs[1..];
    } else {
      var gs := fs[..j] + fs[j + 1..];
      assert gs[0] == fs[0] && gs[1..] == fs[1..][..j - 1] + fs[1..][j..];
      Without(fs[1..], j - 1);
    }
  }

  /** Fields with different tags that all fit into their own field of a body fit into the body. */
  lemma {:induction false} EntriesFit(entries: seq<Entry>, fs: seq<Raw>, vs: seq<Val>)
    requires |vs| == |entries| && forall i :: 0 <= i < |entries| ==> Held(entries[i], fs, vs[i])
    requires forall i, j :: 0 <= i < j < |entries| ==> entries[i].tag != entries[j].tag
    ensures forall i {:trigger vs[i]} :: 0 <= i < |entries| ==> Typed(entries[i].ty, vs[i])
    ensures |PackAll(Raws(entries, vs))| <= |PackAll(fs)|
    decreases |entries|
  {
    if entries != [] {
      assert Held(entries[0], fs, vs[0]);
      var j :| 0 <= j < |fs| && HeldBy(entries[0], fs[j], vs[0]);
      var gs := fs[..j] + fs[j + 1..];
      Without(fs, j);
      forall i | 0 <= i < |entries| - 1 ensures Held(entries[1..][i], gs, vs[1..][i]) {
        assert Held(entries[i + 1], fs, vs[i + 1]);
        var k :| 0 <= k < |fs| && HeldBy(entries[i + 1], fs[k], vs[i + 1]);
        assert gs[if k < j then k else k - 1] == fs[k];
      }
      EntriesFit(entries[1..], gs, vs[1..]);
      assert Raws(entries, vs)[1..] == Raws(entries[1..], vs[1..]);
    }
  }

  /** Whatever bytes a message was read from, writing it gives bytes that are read as the same message. */
  lemma DecodingIsStable(ty: Ty, s: seq<byte>)
    requires WellFormed(ty) && DecodeMessage(ty, s).Got?
    ensures var v := DecodeMessage(ty, s).value;
            Typed(ty, v) && Sendable(ty, v) && |Encode(ty, v)| <= |s| && DecodeMessage(ty, Encode(ty, v)) == Got(v, [])
  {
    DecodedResendable(ty, s);
    MessageRoundTrip(ty, DecodeMessage(ty, s).value);
  }
}
