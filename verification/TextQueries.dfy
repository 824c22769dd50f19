/** The texts a user types: words, trimming, folding, and the full-text query they become. */
module TextQueries {
  import opened Common
  import opened LikePattern
  import opened WallpaperFilter

  // ---------------------------------------------------------------- characters and numbers

  /** The white space of the Unicode property of that name. */
  lemma SpaceIs(c: char)
    ensures Space(c) <==>
            c as int in {0x9, 0xA, 0xB, 0xC, 0xD, 0x20, 0x85, 0xA0, 0x1680, 0x2000, 0x2001, 0x2002, 0x2003, 0x2004, 0x2005, 0x2006,
                         0x2007, 0x2008, 0x2009, 0x200A, 0x2028, 0x2029, 0x202F, 0x205F, 0x3000}
  {
  }

  /** Capital letters become small ones, everything else stays. */
  lemma FoldIs(c: char)
    ensures Fold(c) as int == if 65 <= c as int <= 90 then c as int + 32 else c as int
    ensures Fold(Fold(c)) == Fold(c)
  {
  }

  /** A type is looked up in small letters: the same text, ASCII case aside, without a capital letter. */
  lemma LowerAsciiIs(s: string)
    ensures Same(LowerAscii(s), s) && forall i :: 0 <= i < |s| ==> !('A' <= LowerAscii(s)[i] <= 'Z')
  {
  }

  lemma ComparesIs(a: int, b: int)
    ensures Compares(Equal, a, b) <==> a == b
    ensures Compares(Less, a, b) <==> b - a > 0
    ensures Compares(NotEqual, a, b) <==> !Compares(Equal, a, b)
    ensures Compares(Greater, a, b) <==> Compares(Less, b, a)
    ensures Compares(LessEqual, a, b) <==> !Compares(Greater, a, b)
    ensures Compares(GreaterEqual, a, b) <==> !Compares(Less, a, b)
  {
  }

  lemma TaggedIs(row: Row, tag: string)
    ensures Tagged(row, tag) <==> exists t :: t in row.tags && Same(t, tag)
  {
    if t :| t in row.tags && Same(t, tag) {
      var i :| 0 <= i < |row.tags| && row.tags[i] == t;
    }
  }

  // ---------------------------------------------------------------- trimming

  lemma {:induction false} TrimFrontIs(s: string) returns (k: nat)
    ensures k <= |s| && TrimFront(s) == s[k..] && Blank(s[..k]) && (k < |s| ==> !Space(s[k]))
  {
    if s != "" && Space(s[0]) {
      k := TrimFrontIs(s[1..]);
      assert s[..k + 1] == [s[0]] + s[1..][..k];
      k := k + 1;
    } else {
      k := 0;
    }
  }

  lemma {:induction false} TrimBackIs(s: string) returns (k: nat)
    ensures k <= |s| && TrimBack(s) == s[..k] && Blank(s[k..]) && (k > 0 ==> !Space(s[k - 1]))
  {
    if s != "" && Space(s[|s| - 1]) {
      var init := s[..|s| - 1];
      k := TrimBackIs(init);
      assert s[k..] == init[k..] + [s[|s| - 1]];
    } else {
      k := |s|;
    }
  }

  /** Trimming takes the white space off both ends and nothing else. */
  lemma TrimIs(s: string) returns (from: nat, to: nat)
    ensures from <= to <= |s| && Trim(s) == s[from..to] && Blank(s[..from]) && Blank(s[to..])
    ensures Trim(s) != "" ==> !Space(s[from]) && !Space(s[to - 1])
  {
    from := TrimFrontIs(s);
    var t := s[from..];
    var k := TrimBackIs(t);
    to := from + k;
    assert s[to..] == t[k..] && t[..k] == s[from..to];
  }

  // ---------------------------------------------------------------- words

  predicate Word(w: string) { w != "" && forall i :: 0 <= i < |w| ==> !Space(w[i]) }

  lemma {:induction false} WordsSkipSpace(b: string, s: string)
    requires Blank(b)
    ensures Words(b + s) == Words(s)
  {
    if b == "" {
      assert b + s == s;
    } else {
      assert (b + s)[1..] == b[1..] + s;
      WordsSkipSpace(b[1..], s);
    }
  }

  /** A word ends where white space or the end of the text comes: with `Words` of nothing being nothing, this and
      the one above say what the words of any text are. */
  lemma {:induction false} WordsTakeWord(w: string, s: string)
    requires Word(w) && (s == "" || Space(s[0]))
    ensures Words(w + s) == [w] + Words(s)
  {
    assert (w + s)[1..] == w[1..] + s;
    if |w| == 1 {
      assert w[1..] + s == s;
      if s != "" { assert (w + s)[1] == s[0]; }
      assert w == [w[0]];
    } else {
      assert (w + s)[1] == w[1];
      WordsTakeWord(w[1..], s);
      assert w == [w[0]] + w[1..];
    }
  }

  /** Words between stretches of white space. */
  function Spaced(words: seq<string>, gaps: seq<string>): string
    requires |gaps| == |words| + 1
  {
    if words == [] then gaps[0] else gaps[0] + (words[0] + Spaced(words[1..], gaps[1..]))
  }

  /** However a text is written, its words are those between the white space, in order. */
  lemma {:induction false} WordsAre(words: seq<string>, gaps: seq<string>)
    requires |gaps| == |words| + 1 && forall i :: 0 <= i < |words| ==> Word(words[i])
    requires forall i :: 0 <= i < |gaps| ==> Blank(gaps[i]) && (0 < i < |words| ==> gaps[i] != "")
    ensures Words(Spaced(words, gaps)) == words
    decreases |words|
  {
    if words == [] {
      WordsOfBlank(gaps[0]);
    } else {
      var rest := Spaced(words[1..], gaps[1..]);
      WordsSkipSpace(gaps[0], words[0] + rest);
      assert forall i :: 0 <= i < |gaps[1..]| ==> gaps[1..][i] == gaps[i + 1];
      SpacedStarts(words[1..], gaps[1..]);
      WordsTakeWord(words[0], rest);
      WordsAre(words[1..], gaps[1..]);
    }
  }

  lemma SpacedStarts(words: seq<string>, gaps: seq<string>)
    requires |gaps| == |words| + 1 && Blank(gaps[0]) && (words != [] ==> gaps[0] != "")
    ensures Spaced(words, gaps) == "" || Space(Spaced(words, gaps)[0])
  {
  }

  // ---------------------------------------------------------------- the full-text query

  /** A quoted term up to its closing quote, and what follows; a doubled quote stands for one. */
  function ReadQuoted(s: string): Option<(string, string)> {
    if s == "" then None
    else if s[0] != '"' then
      match ReadQuoted(s[1..]) case None => None case Some(r) => Some(([s[0]] + r.0, r.1))
    else if |s| > 1 && s[1] == '"' then
      match ReadQuoted(s[2..]) case None => None case Some(r) => Some((['"'] + r.0, r.1))
    else Some(("", s[1..]))
  }

  lemma {:induction false} ReadQuotedShortens(s: string)
    ensures ReadQuoted(s).Some? ==> |ReadQuoted(s).value.1| < |s|
    decreases |s|
  {
    if s != "" {
      if s[0] != '"' { ReadQuotedShortens(s[1..]); }
      else if |s| > 1 && s[1] == '"' { ReadQuotedShortens(s[2..]); }
    }
  }

  /** The terms the index reads in a query: quoted prefixes, all of which a row must have. */
  function ReadTerms(s: string): Option<seq<string>>
    decreases |s|
  {
    if s == "" || s[0] != '"' then None
    else
      ReadQuotedShortens(s[1..]);
      match ReadQuoted(s[1..])
      case None => None
      case Some(r) =>
        if r.1 == "*" then Some([r.0])
        else if |r.1| >= 6 && r.1[..6] == "* AND " then
          match ReadTerms(r.1[6..]) case None => None case Some(rest) => Some([r.0] + rest)
        else None
  }

  lemma {:induction false} QuotedRead(word: string, rest: string)
    requires rest == "" || rest[0] != '"'
    ensures ReadQuoted(DoubleQuotes(word) + ("\"" + rest)) == Some((word, rest))
    decreases |word|
  {
    var s := DoubleQuotes(word) + ("\"" + rest);
    if word == "" {
      assert s == "\"" + rest && s[1..] == rest;
    } else {
      QuotedRead(word[1..], rest);
      var more := DoubleQuotes(word[1..]) + ("\"" + rest);
      if word[0] == '"' {
        assert s == ['"', '"'] + more && s[2..] == more;
      } else {
        assert s == [word[0]] + more && s[1..] == more;
      }
      assert word == [word[0]] + word[1..];
    }
  }

  /** The query of a text is read by the index as a prefix term for each of its words, in order. */
  lemma {:induction false} QueryRead(words: seq<string>)
    requires words != []
    ensures ReadTerms(JoinTerms(words)) == Some(words)
    decreases |words|
  {
    var s := JoinTerms(words);
    var rest := if |words| == 1 then "*" else "* AND " + JoinTerms(words[1..]);
    assert s == "\"" + (DoubleQuotes(words[0]) + ("\"" + rest));
    assert s[1..] == DoubleQuotes(words[0]) + ("\"" + rest);
    QuotedRead(words[0], rest);
    if |words| == 1 {
      assert words == [words[0]];
    } else {
      assert rest[..6] == "* AND " && rest[6..] == JoinTerms(words[1..]);
      QueryRead(words[1..]);
      assert words == [words[0]] + words[1..];
    }
  }
}
