/** The output buffer and the writers, as the C code has them: bytes appended to a block that grows by
    doubling, padding computed from the position in the buffer, and lengths patched in afterwards.
    Each writer is proved to append what `WireSpec.Encode` says, or to fail exactly when the message
    does not fit. */
module WireWriter {
  import opened Common
  import opened Bytes
  import opened WireSpec
  import opened WireProofs

  const FIRST_BLOCK: nat := 64

  /** The most a buffer can hold: blocks are doubled as long as that fits into 64 bits. */
  const MAX_BUFFER: nat := 0x8000_0000_0000_0000

  function Pow2(k: nat): (p: nat)
    ensures p >= 1
  {
    if k == 0 then 1 else 2 * Pow2(k - 1)
  }

  lemma {:induction false} Pow2Steps(j: nat, k: nat)
    requires j <= k
    ensures Pow2(j) <= Pow2(k)
  {
    if j < k { Pow2Steps(j, k - 1); }
  }

  lemma LargestBlock()
    ensures FIRST_BLOCK * Pow2(57) == MAX_BUFFER
  {
    assert Pow2(8) == 256;
    assert Pow2(16) == 65536;
    assert Pow2(24) == 16777216;
    assert Pow2(32) == 4294967296;
    assert Pow2(40) == 1099511627776;
    assert Pow2(48) == 281474976710656;
    assert Pow2(56) == 72057594037927936;
  }

  /** What a write leaves: all of `b` behind the old contents, or, when it cannot be, an error. */
  predicate Grown(before: seq<byte>, after: seq<byte>, b: seq<byte>, fits: bool, rc: int) {
    if fits && |before| + |b| <= MAX_BUFFER then rc == 0 && after == before + b
    else rc == OVERFLOW && before <= after
  }

  /** One write among those of `total`: `written` of it was there, `b` came next. */
  lemma GrownStep(before: seq<byte>, mid: seq<byte>, after: seq<byte>, written: seq<byte>, b: seq<byte>,
                  total: seq<byte>, fits: bool, fitsAll: bool, rc: int)
    requires mid == before + written && Grown(mid, after, b, fits, rc)
    requires |written + b| <= |total| && (fitsAll ==> fits)
    ensures rc != 0 ==> Grown(before, after, total, fitsAll, rc)
    ensures rc == 0 ==> fits && after == before + (written + b) && |after| <= MAX_BUFFER
    ensures rc == 0 && |mid| % 4 == 0 && |b| % 4 == 0 ==> |after| % 4 == 0
  {
    assert before + written + b == before + (written + b);
  }

  lemma GrownDone(before: seq<byte>, after: seq<byte>, total: seq<byte>)
    requires after == before + total && |after| <= MAX_BUFFER
    ensures Grown(before, after, total, true, 0)
  {
  }

  lemma GrownFails(before: seq<byte>, after: seq<byte>, total: seq<byte>, fits: bool)
    requires before <= after && (!fits || |before + total| > MAX_BUFFER)
    ensures Grown(before, after, total, fits, OVERFLOW)
  {
  }

  /** One write of several that end in `mid + b + rest`. */
  lemma GrownPart(before: seq<byte>, mid: seq<byte>, after: seq<byte>, b: seq<byte>, rest: seq<byte>, fits: bool, rc: int)
    requires before <= mid && Grown(mid, after, b, fits, rc) && |mid| % 4 == 0 && |b| % 4 == 0
    ensures before <= after
    ensures rc == 0 ==> fits && after + rest == mid + (b + rest) && |after| % 4 == 0
    ensures rc != 0 ==> rc == OVERFLOW && (!fits || |mid + (b + rest)| > MAX_BUFFER)
  {
    assert mid + b + rest == mid + (b + rest);
  }

  class Buffer {
    var data: array<byte>
    var len: nat

    ghost predicate Valid()
      reads this
    {
      len <= data.Length && (data.Length == 0 || exists k: nat :: k <= 57 && data.Length == FIRST_BLOCK * Pow2(k))
    }

    ghost function Contents(): (s: seq<byte>)
      requires Valid()
      reads this, data
      ensures |s| == len
    {
      data[..len]
    }

    constructor ()
      ensures Valid() && fresh(data) && Contents() == []
    {
      data, len := new byte[0], 0;
    }

    /** Doubles the block until `additional` more bytes fit; fails exactly when no block is large enough. */
    method Reserve(additional: nat) returns (rc: int)
      requires Valid()
      modifies this`data
      ensures Valid() && (data == old(data) || fresh(data)) && Contents() == old(Contents())
      ensures rc == if len + additional <= MAX_BUFFER then 0 else OVERFLOW
      ensures rc == 0 ==> len + additional <= data.Length
    {
      LargestBlock();
      if data.Length > 0 {
        var k: nat :| k <= 57 && data.Length == FIRST_BLOCK * Pow2(k);
        Pow2Steps(k, 57);
      }
      if additional > U64_LIMIT - 1 - len { return OVERFLOW; }
      var need := len + additional;
      if need > data.Length {
        var newCap, k := SizeFor(need, data.Length);
        if newCap == 0 { return OVERFLOW; }
        Pow2Steps(k, 57);
        var grown := new byte[newCap];
        forall i | 0 <= i < len { grown[i] := data[i]; }
        data := grown;
        assert data.Length == FIRST_BLOCK * Pow2(k);
      }
      rc := 0;
    }

    /** The doubling loop; 0 stands for its failure. */
    static method SizeFor(need: nat, cap: nat) returns (newCap: nat, ghost k: nat)
      requires cap == 0 || exists k: nat :: k <= 57 && cap == FIRST_BLOCK * Pow2(k)
      requires cap < need
      ensures newCap == 0 <==> need > MAX_BUFFER
      ensures newCap != 0 ==> k <= 57 && newCap == FIRST_BLOCK * Pow2(k) && need <= newCap
    {
      LargestBlock();
      newCap := if cap > 0 then cap else FIRST_BLOCK;
      k := 0;
      if cap > 0 { k :| k <= 57 && cap == FIRST_BLOCK * Pow2(k); }
      while newCap < need
        invariant k <= 57 && newCap == FIRST_BLOCK * Pow2(k)
        decreases 57 - k
      {
        Pow2Steps(k, 57);
        if newCap > (U64_LIMIT - 1) / 2 { return 0, k; }
        if k == 57 { assert false; }
        newCap, k := newCap * 2, k + 1;
      }
      Pow2Steps(k, 57);
    }

    method WriteBytes(src: seq<byte>) returns (rc: int)
      requires Valid()
      modifies this, data
      ensures Valid() && (data == old(data) || fresh(data))
      ensures Grown(old(Contents()), Contents(), src, true, rc)
    {
      rc := Reserve(|src|);
      if rc != 0 { return; }
      forall i | 0 <= i < |src| { data[len + i] := src[i]; }
      len := len + |src|;
    }

    method WriteWord(v: nat) returns (rc: int)
      requires Valid()
      modifies this, data
      ensures Valid() && (data == old(data) || fresh(data))
      ensures Grown(old(Contents()), Contents(), Le32(v), true, rc)
    {
      rc := WriteBytes([v % 256, v / 256 % 256, v / 65536 % 256, v / 16777216 % 256]);
    }

    method WriteLong(v: nat) returns (rc: int)
      requires Valid() && v < U64_LIMIT
      modifies this, data
      ensures Valid() && (data == old(data) || fresh(data))
      ensures Grown(old(Contents()), Contents(), Le64(v), true, rc)
    {
      var low, high := v % U32_LIMIT, v / U32_LIMIT;
      rc := WriteBytes([low % 256, low / 256 % 256, low / 65536 % 256, low / 16777216 % 256,
                        high % 256, high / 256 % 256, high / 65536 % 256, high / 16777216 % 256]);
      assert [low % 256, low / 256 % 256, low / 65536 % 256, low / 16777216 % 256,
              high % 256, high / 256 % 256, high / 65536 % 256, high / 16777216 % 256] == Le64(v);
    }

    /** Zero bytes up to the next position divisible by four. */
    method WritePad() returns (rc: int)
      requires Valid()
      modifies this, data
      ensures Valid() && (data == old(data) || fresh(data))
      ensures Grown(old(Contents()), Contents(), Zeros(Pad(old(len))), true, rc)
    {
      var pad := (4 - len % 4) % 4;
      if pad == 0 {
        assert Contents() == Contents() + Zeros(0) || len > MAX_BUFFER;
        LengthBound();
        return 0;
      }
      rc := WriteBytes(Zeros(pad));
    }

    lemma LengthBound()
      requires Valid()
      ensures len <= MAX_BUFFER
    {
      LargestBlock();
      if data.Length > 0 {
        var k: nat :| k <= 57 && data.Length == FIRST_BLOCK * Pow2(k);
        Pow2Steps(k, 57);
      }
    }

    /** A string: its length with the NUL, its bytes, the NUL, and padding by buffer position. */
    method WriteText(s: seq<byte>) returns (rc: int)
      requires Valid()
      modifies this, data
      ensures Valid() && (data == old(data) || fresh(data))
      ensures Grown(old(Contents()), Contents(),
                    Le32(|s| + 1) + s + [0] + Zeros(Pad(old(len) + 5 + |s|)), |s| <= U32_LIMIT - 2, rc)
    {
      hide Grown, Valid;
      ghost var before := Contents();
      ghost var head := Le32(|s| + 1);
      ghost var total := head + s + [0] + Zeros(Pad(len + 5 + |s|));
      if |s| > 0xFFFF_FFFE {
        GrownFails(before, before, total, false);
        return OVERFLOW;
      }
      rc := WriteWord(|s| + 1);
      GrownStep(before, before, Contents(), [], head, total, true, true, rc);
      if rc != 0 { return; }
      ghost var c1 := Contents();
      rc := WriteBytes(s);
      GrownStep(before, c1, Contents(), head, s, total, true, true, rc);
      if rc != 0 { return; }
      ghost var c2 := Contents();
      rc := WriteBytes([0]);
      GrownStep(before, c2, Contents(), head + s, [0], total, true, true, rc);
      if rc != 0 { return; }
      ghost var c3 := Contents();
      rc := WritePad();
      GrownStep(before, c3, Contents(), head + s + [0], Zeros(Pad(|c3|)), total, true, true, rc);
      if rc == 0 { GrownDone(before, Contents(), total); }
    }

    /** Overwrites four bytes in place. */
    method Patch(pos: nat, value: nat)
      requires Valid() && pos + 4 <= len
      modifies data
      ensures Contents() == old(Contents())[..pos] + Le32(value) + old(Contents())[pos + 4..]
    {
      data[pos] := value % 256;
      data[pos + 1] := value / 256 % 256;
      data[pos + 2] := value / 65536 % 256;
      data[pos + 3] := value / 16777216 % 256;
    }

    // -------------------------------------------------------------- the generated writers

    /** The writer of a schema, started on an aligned position. */
    method Write(ty: Ty, v: Val) returns (rc: int)
      requires Valid() && Typed(ty, v) && len % 4 == 0
      modifies this, data
      ensures Valid() && (data == old(data) || fresh(data))
      ensures Grown(old(Contents()), Contents(), Encode(ty, v), Encodable(ty, v), rc)
      decreases ty, 0
    {
      match ty
      case U32 => rc := WriteWord(v.n);
      case Bool => rc := WriteWord(v.n);
      case U64 => rc := WriteLong(v.n);
      case Enum(_) => rc := WriteWord(v.n);
      case Text =>
        AlignedText(len, v.s);
        rc := WriteText(v.s);
      case List(elem) => rc := WriteList(elem, v.vs);
      case Rec(fields) => rc := WriteFields(fields, v.vs);
      case Tagged(entries) => rc := WriteTagged(entries, v.vs);
    }

    static lemma AlignedText(at: nat, s: seq<byte>)
      requires at % 4 == 0
      ensures Le32(|s| + 1) + s + [0] + Zeros(Pad(at + 5 + |s|)) == Le32(|s| + 1) + Terminated(s)
    {
      PaddingAgrees(at, |s| + 1);
    }

    /** An array: its count, then its elements one after the other. */
    method WriteList(elem: Ty, vs: seq<Val>) returns (rc: int)
      requires Valid() && Typed(List(elem), Vals(vs)) && len % 4 == 0
      modifies this, data
      ensures Valid() && (data == old(data) || fresh(data))
      ensures Grown(old(Contents()), Contents(), Encode(List(elem), Vals(vs)), Encodable(List(elem), Vals(vs)), rc)
      decreases elem, 2
    {
      hide Grown, Valid;
      ghost var before := Contents();
      ghost var head, items := Le32(|vs|), EncodeItems(elem, vs);
      ghost var fits := Encodable(List(elem), Vals(vs));
      rc := WriteWord(|vs|);
      GrownStep(before, before, Contents(), [], head, head + items, true, fits, rc);
      if rc != 0 { return; }
      ghost var mid := Contents();
      rc := WriteItems(elem, vs);
      GrownStep(before, mid, Contents(), head, items, head + items, ItemsEncodable(elem, vs), fits, rc);
      if rc == 0 { GrownDone(before, Contents(), head + items); }
    }

    method WriteItems(elem: Ty, vs: seq<Val>) returns (rc: int)
      requires Valid() && (forall i :: 0 <= i < |vs| ==> Typed(elem, vs[i])) && len % 4 == 0
      modifies this, data
      ensures Valid() && (data == old(data) || fresh(data))
      ensures Grown(old(Contents()), Contents(), EncodeItems(elem, vs), ItemsEncodable(elem, vs), rc)
      decreases elem, 1
    {
      hide Grown, Valid, Encode, Encodable, Typed;
      ghost var before := Contents();
      ghost var total, fits := EncodeItems(elem, vs), ItemsEncodable(elem, vs);
      ghost var all := before + total;
      var i := 0;
      while i < |vs|
        invariant i <= |vs| && Valid() && (data == old(data) || fresh(data)) && len % 4 == 0
        invariant before <= Contents() && Contents() + EncodeItems(elem, vs[i..]) == all
        invariant forall j :: 0 <= j < i ==> Encodable(elem, vs[j])
      {
        ghost var mid := Contents();
        assert vs[i..][1..] == vs[i + 1..];
        rc := Write(elem, vs[i]);
        Aligned(elem, vs[i]);
        GrownPart(before, mid, Contents(), Encode(elem, vs[i]), EncodeItems(elem, vs[i + 1..]), Encodable(elem, vs[i]), rc);
        if rc != 0 {
          GrownFails(before, Contents(), total, fits);
          return;
        }
        i := i + 1;
      }
      LengthBound();
      GrownDone(before, Contents(), total);
      rc := 0;
    }

    method WriteFields(fields: seq<Ty>, vs: seq<Val>) returns (rc: int)
      requires Valid() && |fields| == |vs| && (forall i :: 0 <= i < |vs| ==> Typed(fields[i], vs[i])) && len % 4 == 0
      modifies this, data
      ensures Valid() && (data == old(data) || fresh(data))
      ensures Grown(old(Contents()), Contents(), EncodeFields(fields, vs), FieldsEncodable(fields, vs), rc)
      decreases fields, 0
    {
      hide Grown, Valid, Encode, Encodable, Typed;
      ghost var before := Contents();
      ghost var total, fits := EncodeFields(fields, vs), FieldsEncodable(fields, vs);
      ghost var all := before + total;
      var i := 0;
      while i < |vs|
        invariant i <= |vs| && Valid() && (data == old(data) || fresh(data)) && len % 4 == 0
        invariant before <= Contents() && Contents() + EncodeFields(fields[i..], vs[i..]) == all
        invariant forall j :: 0 <= j < i ==> Encodable(fields[j], vs[j])
      {
        ghost var mid := Contents();
        assert vs[i..][1..] == vs[i + 1..] && fields[i..][1..] == fields[i + 1..];
        rc := Write(fields[i], vs[i]);
        Aligned(fields[i], vs[i]);
        GrownPart(before, mid, Contents(), Encode(fields[i], vs[i]), EncodeFields(fields[i + 1..], vs[i + 1..]),
                  Encodable(fields[i], vs[i]), rc);
        if rc != 0 {
          GrownFails(before, Contents(), total, fits);
          return;
        }
        i := i + 1;
      }
      LengthBound();
      GrownDone(before, Contents(), total);
      rc := 0;
    }

    /** Tag, kind, and a placeholder for the length. */
    method WriteHead(tag: nat, kind: nat) returns (rc: int)
      requires Valid() && len % 4 == 0
      modifies this, data
      ensures Valid() && (data == old(data) || fresh(data)) && len <= MAX_BUFFER
      ensures Grown(old(Contents()), Contents(), Le32(tag) + Le32(kind) + Le32(0), true, rc)
      ensures rc == 0 ==> len == old(len) + 12 && len % 4 == 0
    {
      hide Grown, Valid;
      ghost var before := Contents();
      ghost var total := Le32(tag) + Le32(kind) + Le32(0);
      LengthBound();
      rc := WriteWord(tag);
      LengthBound();
      GrownStep(before, before, Contents(), [], Le32(tag), total, true, true, rc);
      if rc != 0 { return; }
      ghost var c1 := Contents();
      rc := WriteWord(kind);
      LengthBound();
      GrownStep(before, c1, Contents(), Le32(tag), Le32(kind), total, true, true, rc);
      if rc != 0 { return; }
      ghost var c2 := Contents();
      rc := WriteWord(0);
      LengthBound();
      GrownStep(before, c2, Contents(), Le32(tag) + Le32(kind), Le32(0), total, true, true, rc);
      if rc == 0 { GrownDone(before, Contents(), total); }
    }

    /** One field of a tagged record; its length is patched in once it is known. */
    method WriteEntry(entry: Entry, v: Val) returns (rc: int)
      requires Valid() && Typed(entry.ty, v) && len % 4 == 0
      modifies this, data
      ensures Valid() && (data == old(data) || fresh(data))
      ensures Grown(old(Contents()), Contents(), Pack(Field(entry, v)), EntryEncodable(entry, v), rc)
      decreases entry, 0
    {
      hide Grown, Valid, Encode, Encodable, Typed;
      ghost var before := Contents();
      ghost var head, body := Le32(entry.tag) + Le32(entry.kind), Encode(entry.ty, v);
      ghost var fits := EntryEncodable(entry, v);
      rc := WriteHead(entry.tag, entry.kind);
      GrownStep(before, before, Contents(), [], head + Le32(0), Pack(Field(entry, v)), true, fits, rc);
      if rc != 0 { return; }
      rc := WriteBody(before, head, entry.ty, v);
    }

    /** The value behind a placeholder, and the patch. */
    method WriteBody(ghost before: seq<byte>, ghost head: seq<byte>, ty: Ty, v: Val) returns (rc: int)
      requires Valid() && Typed(ty, v) && len % 4 == 0 && |head| == 8
      requires Contents() == before + (head + Le32(0))
      modifies this, data
      ensures Valid() && (data == old(data) || fresh(data))
      ensures Grown(before, Contents(), head + Le32(|Encode(ty, v)|) + Encode(ty, v),
                    Encodable(ty, v) && |Encode(ty, v)| < U32_LIMIT, rc)
      decreases ty, 1
    {
      hide Grown, Valid, Encode, Encodable, Typed;
      ghost var body := Encode(ty, v);
      ghost var total := head + Le32(|body|) + body;
      ghost var fits := Encodable(ty, v) && |body| < U32_LIMIT;
      var lengthPos := len - 4;
      ghost var mid := Contents();
      rc := Write(ty, v);
      GrownStep(before, mid, Contents(), head + Le32(0), body, total, Encodable(ty, v), fits, rc);
      if rc != 0 { return; }
      if len - lengthPos - 4 > 0xFFFF_FFFF {
        GrownFails(before, Contents(), total, fits);
        return OVERFLOW;
      }
      Patch(lengthPos, len - lengthPos - 4);
      Patched(before, head, body, total, Contents());
    }

    static lemma Patched(before: seq<byte>, head: seq<byte>, body: seq<byte>, total: seq<byte>, after: seq<byte>)
      requires var written := before + (head + Le32(0) + body);
               |written| <= MAX_BUFFER
               && after == written[..|before| + |head|] + Le32(|body|) + written[|before| + |head| + 4..]
      requires total == head + Le32(|body|) + body
      ensures Grown(before, after, total, true, 0)
    {
      assert after == before + total;
    }

    /** A tagged record: revision, patched body length, and the fields in schema order. */
    method WriteTagged(entries: seq<Entry>, vs: seq<Val>) returns (rc: int)
      requires Valid() && Typed(Tagged(entries), Vals(vs)) && len % 4 == 0
      modifies this, data
      ensures Valid() && (data == old(data) || fresh(data))
      ensures Grown(old(Contents()), Contents(), Framed(PackAll(Raws(entries, vs))), Encodable(Tagged(entries), Vals(vs)), rc)
      decreases entries, 2
    {
      hide Grown, Valid, Encode, Raws, PackAll;
      ghost var before := Contents();
      ghost var head, body := Le32(REVISION), PackAll(Raws(entries, vs));
      ghost var fits := Encodable(Tagged(entries), Vals(vs));
      rc := WriteWord(REVISION);
      GrownStep(before, before, Contents(), [], head, Framed(body), true, fits, rc);
      if rc != 0 { return; }
      ghost var c1 := Contents();
      rc := WriteWord(0);
      GrownStep(before, c1, Contents(), head, Le32(0), Framed(body), true, fits, rc);
      if rc != 0 { return; }
      rc := WriteFramed(before, head, entries, vs);
    }

    method WriteFramed(ghost before: seq<byte>, ghost head: seq<byte>, entries: seq<Entry>, vs: seq<Val>) returns (rc: int)
      requires Valid() && Typed(Tagged(entries), Vals(vs)) && |before| % 4 == 0 && |head| == 4
      requires Contents() == before + (head + Le32(0))
      modifies this, data
      ensures Valid() && (data == old(data) || fresh(data))
      ensures var body := PackAll(Raws(entries, vs));
              Grown(before, Contents(), head + Le32(|body|) + body, Encodable(Tagged(entries), Vals(vs)), rc)
      decreases entries, 1
    {
      hide Grown, Valid, Encode, Raws, PackAll;
      ghost var body := PackAll(Raws(entries, vs));
      ghost var total := head + Le32(|body|) + body;
      ghost var fits := Encodable(Tagged(entries), Vals(vs));
      var bodyPos := len - 4;
      ghost var mid := Contents();
      rc := WriteEntries(entries, vs);
      GrownStep(before, mid, Contents(), head + Le32(0), body, total,
                EntriesEncodable(entries, vs), fits, rc);
      if rc != 0 { return; }
      if len - bodyPos - 4 > MAX_BODY {
        GrownFails(before, Contents(), total, fits);
        return OVERFLOW;
      }
      Patch(bodyPos, len - bodyPos - 4);
      Patched(before, head, body, total, Contents());
    }

    method WriteEntries(entries: seq<Entry>, vs: seq<Val>) returns (rc: int)
      requires Valid() && Typed(Tagged(entries), Vals(vs)) && len % 4 == 0
      modifies this, data
      ensures Valid() && (data == old(data) || fresh(data))
      ensures Grown(old(Contents()), Contents(), PackAll(Raws(entries, vs)),
                    EntriesEncodable(entries, vs), rc)
      decreases entries, 0
    {
      hide Grown, Valid, Encode, Encodable, Raws, Pack;
      ghost var before := Contents();
      ghost var fs := Raws(entries, vs);
      ghost var total, fits := PackAll(fs), EntriesEncodable(entries, vs);
      ghost var all := before + total;
      var i := 0;
      while i < |vs|
        invariant i <= |vs| && Valid() && (data == old(data) || fresh(data)) && len % 4 == 0
        invariant before <= Contents() && Contents() + PackAll(fs[i..]) == all
        invariant forall j :: 0 <= j < i ==> EntryEncodable(entries[j], vs[j])
      {
        ghost var mid := Contents();
        assert fs[i..][1..] == fs[i + 1..];
        assert entries[i] in entries;
        rc := WriteEntry(entries[i], vs[i]);
        PackedAligned(entries[i], vs[i]);
        GrownPart(before, mid, Contents(), Pack(fs[i]), PackAll(fs[i + 1..]), EntryEncodable(entries[i], vs[i]), rc);
        if rc != 0 {
          GrownFails(before, Contents(), total, fits);
          return;
        }
        i := i + 1;
      }
      LengthBound();
      GrownDone(before, Contents(), total);
      rc := 0;
    }

    static lemma {:induction false} PackedAligned(entry: Entry, v: Val)
      requires Typed(entry.ty, v)
      ensures |Pack(Field(entry, v))| % 4 == 0
    {
      hide Field, Le32;
      AlignedField(entry, v);
    }
  }

  predicate ItemsEncodable(elem: Ty, vs: seq<Val>)
    requires forall i :: 0 <= i < |vs| ==> Typed(elem, vs[i])
  {
    forall i :: 0 <= i < |vs| ==> Encodable(elem, vs[i])
  }

  predicate FieldsEncodable(fields: seq<Ty>, vs: seq<Val>)
    requires |fields| == |vs| && forall i :: 0 <= i < |vs| ==> Typed(fields[i], vs[i])
  {
    forall i :: 0 <= i < |vs| ==> Encodable(fields[i], vs[i])
  }

  predicate EntriesEncodable(entries: seq<Entry>, vs: seq<Val>)
    requires Typed(Tagged(entries), Vals(vs))
  {
    forall i :: 0 <= i < |vs| ==> EntryEncodable(entries[i], vs[i])
  }

  predicate EntryEncodable(entry: Entry, v: Val)
    requires Typed(entry.ty, v)
  {
    Encodable(entry.ty, v) && |Encode(entry.ty, v)| < U32_LIMIT
  }
}
