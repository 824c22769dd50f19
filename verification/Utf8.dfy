/** The recogniser the tagged records run on every string, and what it recognises: the byte strings
    of RFC 3629, that is the concatenated encodings (section 3) of Unicode scalar values, under the
    octet grammar of section 4. Bit masks and shifts are written as division and remainder. */
module Utf8 {
  import opened Common
  import opened Bytes

  // ---------------------------------------------------------------- the standard

  /** A code point that is not a surrogate. */
  predicate Scalar(c: nat) { c <= 0x10FFFF && !(0xD800 <= c <= 0xDFFF) }

  function EncodeScalar(c: nat): (s: seq<byte>)
    requires Scalar(c)
    ensures 1 <= |s| <= 4
  {
    if c < 0x80 then [c]
    else if c < 0x800 then [0xC0 + c / 64, 0x80 + c % 64]
    else if c < 0x10000 then [0xE0 + c / 4096, 0x80 + c / 64 % 64, 0x80 + c % 64]
    else [0xF0 + c / 262144, 0x80 + c / 4096 % 64, 0x80 + c / 64 % 64, 0x80 + c % 64]
  }

  /** The code points up to U+10FFFF without those of the two surrogate blocks, D8 to DB and DC to DF. */
  lemma ScalarIs(c: nat)
    ensures Scalar(c) <==> c / 0x10000 <= 0x10 && c / 0x800 != 0x1B
  {
  }

  predicate ScalarText(text: seq<nat>) { forall i :: 0 <= i < |text| ==> Scalar(text[i]) }

  function Encode(text: seq<nat>): seq<byte>
    requires ScalarText(text)
  {
    if text == [] then [] else EncodeScalar(text[0]) + Encode(text[1..])
  }

  // ---------------------------------------------------------------- the recogniser, as functions

  predicate Continuation(b: byte) { 0x80 <= b < 0xC0 }

  /** The inner loop: shifts `n` continuation bytes into `c`. */
  function Shift(s: seq<byte>, n: nat, c: nat): Option<nat> {
    if n == 0 then Some(c)
    else if s == [] || !Continuation(s[0]) then None
    else Shift(s[1..], n - 1, c * 64 + s[0] % 64)
  }

  /** What a lead byte announces: continuation count, smallest value allowed, and its own bits. */
  datatype Lead = Lead(more: nat, minimum: nat, bits: nat) | NotLead

  function Announced(b: byte): Lead {
    if b < 0x80 then Lead(0, 0, b)
    else if 0xC2 <= b <= 0xDF then Lead(1, 0x80, b % 32)
    else if 0xE0 <= b <= 0xEF then Lead(2, 0x800, b % 16)
    else if 0xF0 <= b <= 0xF4 then Lead(3, 0x10000, b % 8)
    else NotLead
  }

  /** The scalar value at the front of `s`, when there is one. */
  function Front(s: seq<byte>): Option<nat>
    requires s != []
  {
    var lead := Announced(s[0]);
    if lead.NotLead? || lead.more > |s| - 1 then None
    else match Shift(s[1..], lead.more, lead.bits)
      case None => None
      case Some(c) => if c < lead.minimum || !Scalar(c) then None else Some(c)
  }

  predicate Accepts(s: seq<byte>)
    decreases |s|
  {
    s == [] || (Front(s).Some? && Accepts(s[Announced(s[0]).more + 1..]))
  }

  // ---------------------------------------------------------------- agreement

  /** Six-bit digits and the number they make. */
  lemma Digits(c: nat)
    ensures c == (c / 64) * 64 + c % 64
    ensures c / 64 == (c / 4096) * 64 + c / 64 % 64
    ensures c / 4096 == (c / 262144) * 64 + c / 4096 % 64
  {
  }

  lemma FromDigits(high: nat, x: nat, y: nat, z: nat)
    requires x < 64 && y < 64 && z < 64
    ensures var c := ((high * 64 + x) * 64 + y) * 64 + z;
            && c % 64 == z && c / 64 % 64 == y && c / 4096 % 64 == x
            && c / 64 == (high * 64 + x) * 64 + y && c / 4096 == high * 64 + x && c / 262144 == high
  {
  }

  function ShiftedOne(s: seq<byte>, c: nat): Option<nat>
    requires |s| >= 1
  {
    if Continuation(s[0]) then Some(c * 64 + s[0] % 64) else None
  }

  function ShiftedTwo(s: seq<byte>, c: nat): Option<nat>
    requires |s| >= 2
  {
    if Continuation(s[0]) && Continuation(s[1]) then Some((c * 64 + s[0] % 64) * 64 + s[1] % 64) else None
  }

  function ShiftedThree(s: seq<byte>, c: nat): Option<nat>
    requires |s| >= 3
  {
    if Continuation(s[0]) && Continuation(s[1]) && Continuation(s[2])
    then Some(((c * 64 + s[0] % 64) * 64 + s[1] % 64) * 64 + s[2] % 64) else None
  }

  /** The inner loop, unrolled for the three counts a lead byte can announce. */
  lemma {:induction false} ShiftUnrolled(s: seq<byte>, c: nat)
    ensures |s| >= 1 ==> Shift(s, 1, c) == ShiftedOne(s, c)
    ensures |s| >= 2 ==> Shift(s, 2, c) == ShiftedTwo(s, c)
    ensures |s| >= 3 ==> Shift(s, 3, c) == ShiftedThree(s, c)
    decreases |s|
  {
    if |s| >= 1 {
      var c1 := c * 64 + s[0] % 64;
      assert Shift(s[1..], 0, c1) == Some(c1);
      ShiftUnrolled(s[1..], c1);
    }
  }

  lemma FrontOfTwo(s: seq<byte>, h: nat, z: nat)
    requires 2 <= h < 32 && z < 64 && |s| >= 2 && s[0] == 0xC0 + h && s[1] == 0x80 + z
    ensures Front(s) == Some(h * 64 + z)
  {
    ShiftUnrolled(s[1..], h);
  }

  lemma FrontOfThree(s: seq<byte>, h: nat, y: nat, z: nat)
    requires h < 16 && y < 64 && z < 64 && |s| >= 3 && s[0] == 0xE0 + h && s[1] == 0x80 + y && s[2] == 0x80 + z
    requires 0x800 <= (h * 64 + y) * 64 + z && Scalar((h * 64 + y) * 64 + z)
    ensures Front(s) == Some((h * 64 + y) * 64 + z)
  {
    ShiftUnrolled(s[1..], h);
  }

  lemma FrontOfFour(s: seq<byte>, h: nat, x: nat, y: nat, z: nat)
    requires h < 5 && x < 64 && y < 64 && z < 64 && |s| >= 4
    requires s[0] == 0xF0 + h && s[1] == 0x80 + x && s[2] == 0x80 + y && s[3] == 0x80 + z
    requires 0x10000 <= ((h * 64 + x) * 64 + y) * 64 + z && Scalar(((h * 64 + x) * 64 + y) * 64 + z)
    ensures Front(s) == Some(((h * 64 + x) * 64 + y) * 64 + z)
  {
    ShiftUnrolled(s[1..], h);
  }

  /** One step forwards: an encoded scalar value is read back, whatever follows. */
  lemma FrontOfScalar(c: nat, rest: seq<byte>)
    requires Scalar(c)
    ensures Front(EncodeScalar(c) + rest) == Some(c)
    ensures Announced(EncodeScalar(c)[0]).Lead? && Announced(EncodeScalar(c)[0]).more + 1 == |EncodeScalar(c)|
  {
    var e := EncodeScalar(c);
    Digits(c);
    if |e| == 2 {
      FrontOfTwo(e + rest, c / 64, c % 64);
    } else if |e| == 3 {
      FrontOfThree(e + rest, c / 4096, c / 64 % 64, c % 64);
    } else if |e| == 4 {
      FrontOfFour(e + rest, c / 262144, c / 4096 % 64, c / 64 % 64, c % 64);
    }
  }

  lemma ThreeFromFront(s: seq<byte>)
    requires |s| >= 3 && 0xE0 <= s[0] <= 0xEF && Front(s).Some?
    ensures EncodeScalar(Front(s).value) == s[..3]
  {
    ShiftUnrolled(s[1..], s[0] % 16);
    assert Continuation(s[1]) && Continuation(s[2]);
    FromDigits(0, s[0] % 16, s[1] % 64, s[2] % 64);
  }

  lemma FourFromFront(s: seq<byte>)
    requires |s| >= 4 && 0xF0 <= s[0] <= 0xF4 && Front(s).Some?
    ensures EncodeScalar(Front(s).value) == s[..4]
  {
    ShiftUnrolled(s[1..], s[0] % 8);
    assert Continuation(s[1]) && Continuation(s[2]) && Continuation(s[3]);
    FromDigits(s[0] % 8, s[1] % 64, s[2] % 64, s[3] % 64);
    hide Shift, ShiftedOne, ShiftedTwo;
  }

  lemma TwoFromFront(s: seq<byte>)
    requires |s| >= 2 && 0xC2 <= s[0] <= 0xDF && Front(s).Some?
    ensures EncodeScalar(Front(s).value) == s[..2]
  {
    ShiftUnrolled(s[1..], s[0] % 32);
  }

  /** One step backwards: what is read is the encoding of what was read, in its shortest form. */
  lemma ScalarOfFront(s: seq<byte>)
    requires s != [] && Front(s).Some?
    ensures Scalar(Front(s).value) && EncodeScalar(Front(s).value) == s[..Announced(s[0]).more + 1]
  {
    if Announced(s[0]).more == 1 {
      TwoFromFront(s);
    } else if Announced(s[0]).more == 2 {
      ThreeFromFront(s);
    } else if Announced(s[0]).more == 3 {
      FourFromFront(s);
    }
  }

  lemma {:induction false} EncodedAccepted(text: seq<nat>)
    requires ScalarText(text)
    ensures Accepts(Encode(text))
  {
    if text != [] {
      var e := EncodeScalar(text[0]);
      FrontOfScalar(text[0], Encode(text[1..]));
      EncodedAccepted(text[1..]);
      assert Encode(text)[|e|..] == Encode(text[1..]);
    }
  }

  lemma {:induction false} AcceptedEncoded(s: seq<byte>) returns (text: seq<nat>)
    requires Accepts(s)
    ensures ScalarText(text) && Encode(text) == s
    decreases |s|
  {
    if s == [] {
      text := [];
    } else {
      ScalarOfFront(s);
      var c := Front(s).value;
      var rest := AcceptedEncoded(s[Announced(s[0]).more + 1..]);
      text := [c] + rest;
      assert text[1..] == rest;
      assert s == EncodeScalar(c) + s[|EncodeScalar(c)|..];
    }
  }

  /** The recogniser accepts exactly the encodings of sequences of scalar values. */
  lemma AcceptsExactly(s: seq<byte>)
    ensures Accepts(s) <==> exists text: seq<nat> :: ScalarText(text) && Encode(text) == s
  {
    if Accepts(s) {
      var text := AcceptedEncoded(s);
    }
    if text: seq<nat> :| ScalarText(text) && Encode(text) == s {
      EncodedAccepted(text);
    }
  }

  /** Accepted bytes stand for one text only. */
  lemma {:induction false} EncodeInjective(a: seq<nat>, b: seq<nat>)
    requires ScalarText(a) && ScalarText(b) && Encode(a) == Encode(b)
    ensures a == b
  {
    if a != [] && b != [] {
      FrontOfScalar(a[0], Encode(a[1..]));
      FrontOfScalar(b[0], Encode(b[1..]));
      assert Encode(a)[|EncodeScalar(a[0])|..] == Encode(a[1..]);
      assert Encode(b)[|EncodeScalar(b[0])|..] == Encode(b[1..]);
      EncodeInjective(a[1..], b[1..]);
      assert a == [a[0]] + a[1..] && b == [b[0]] + b[1..];
    }
  }

  // ---------------------------------------------------------------- the loop

  method TaggedUtf8(s: seq<byte>) returns (ok: bool)
    ensures ok <==> exists text: seq<nat> :: ScalarText(text) && Encode(text) == s
  {
    AcceptsExactly(s);
    var i := 0;
    while i < |s|
      invariant i <= |s| && Accepts(s) == Accepts(s[i..])
    {
      ghost var start := i;
      assert s[start..][1..] == s[start + 1..];
      var c: nat := s[i];
      i := i + 1;
      if c < 0x80 { continue; }
      var n: nat;
      var minimum: nat;
      if 0xC2 <= c <= 0xDF {
        n, minimum, c := 1, 0x80, c % 32;
      } else if 0xE0 <= c <= 0xEF {
        n, minimum, c := 2, 0x800, c % 16;
      } else if 0xF0 <= c <= 0xF4 {
        n, minimum, c := 3, 0x10000, c % 8;
      } else {
        return false;
      }
      if n > |s| - i { return false; }
      ghost var shifted := Shift(s[i..], n, c);
      while n > 0
        invariant start < i <= i + n == start + Announced(s[start]).more + 1 <= |s|
        invariant shifted == Shift(s[i..], n, c)
      {
        if !Continuation(s[i]) { return false; }
        assert s[i..][1..] == s[i + 1..];
        c := c * 64 + s[i] % 64;
        i := i + 1;
        n := n - 1;
      }
      if c < minimum || c > 0x10FFFF || 0xD800 <= c <= 0xDFFF { return false; }
      assert s[start..][i - start..] == s[i..];
    }
    ok := true;
  }
}
