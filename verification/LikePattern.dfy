/** SQL text: the LIKE operator as SQLite evaluates it, the pattern that makes it a substring test,
    and quoted string literals. */
module LikePattern {
  import opened Common

  /** LIKE ignores the case of ASCII letters and of nothing else. */
  function Fold(c: char): char { if 'A' <= c <= 'Z' then c - 'A' + 'a' else c }

  predicate Same(a: string, b: string) {
    |a| == |b| && forall i :: 0 <= i < |a| ==> Fold(a[i]) == Fold(b[i])
  }

  /** Does `t` match pattern `p`? `escape` is the character of an ESCAPE clause. */
  predicate Like(p: string, escape: Option<char>, t: string)
    decreases |p|, |t|
  {
    if p == "" then t == ""
    else if p[0] == '%' then Like(p[1..], escape, t) || (t != "" && Like(p, escape, t[1..]))
    else if escape == Some(p[0]) then
      |p| > 1 && t != "" && Fold(p[1]) == Fold(t[0]) && Like(p[2..], escape, t[1..])
    else if p[0] == '_' then t != "" && Like(p[1..], escape, t[1..])
    else t != "" && Fold(p[0]) == Fold(t[0]) && Like(p[1..], escape, t[1..])
  }

  predicate OccursAt(v: string, t: string, i: nat) { i + |v| <= |t| && Same(v, t[i..i + |v|]) }
  predicate Occurs(v: string, t: string) { exists i: nat :: i <= |t| && OccursAt(v, t, i) }

  predicate Special(c: char) { c == '\\' || c == '%' || c == '_' }

  function Escaped(v: string): string {
    if v == "" then "" else (if Special(v[0]) then ['\\', v[0]] else [v[0]]) + Escaped(v[1..])
  }

  function LiteralContains(v: string): string { "%" + Escaped(v) + "%" }

  // ---------------------------------------------------------------- matching

  lemma {:induction false} PercentMatchesAll(escape: Option<char>, t: string)
    ensures Like("%", escape, t)
  {
    if t != "" { PercentMatchesAll(escape, t[1..]); }
  }

  /** A leading percent sign matches at any later position. */
  lemma {:induction false} LeadingPercent(p: string, escape: Option<char>, t: string)
    requires p != "" && p[0] == '%'
    ensures Like(p, escape, t) <==> exists i: nat :: i <= |t| && Like(p[1..], escape, t[i..])
    decreases |t|
  {
    assert t[0..] == t;
    if t != "" {
      LeadingPercent(p, escape, t[1..]);
      assert forall i: nat :: i < |t| ==> t[1..][i..] == t[i + 1..];
      if i: nat :| i <= |t| && Like(p[1..], escape, t[i..]) {
        if i > 0 { assert t[1..][i - 1..] == t[i..]; }
      }
    }
  }

  lemma SameSplit(v: string, t: string)
    requires v != ""
    ensures |v| <= |t| && Same(v, t[..|v|]) <==>
            t != "" && Fold(v[0]) == Fold(t[0]) && |v[1..]| <= |t[1..]| && Same(v[1..], t[1..][..|v| - 1])
  {
    if t != "" && |v| <= |t| {
      assert t[1..][..|v| - 1] == t[..|v|][1..];
      if Fold(v[0]) == Fold(t[0]) && Same(v[1..], t[1..][..|v| - 1]) {
        forall i | 0 <= i < |v| ensures Fold(v[i]) == Fold(t[..|v|][i]) {
          if i > 0 { assert v[1..][i - 1] == v[i]; }
        }
      }
    }
  }

  /** Escaped text followed by a percent sign matches what starts with the text. */
  lemma {:induction false} EscapedPrefix(v: string, t: string)
    ensures Like(Escaped(v) + "%", Some('\\'), t) <==> |v| <= |t| && Same(v, t[..|v|])
    decreases |v|
  {
    if v == "" {
      PercentMatchesAll(Some('\\'), t);
      assert Escaped(v) + "%" == "%";
    } else {
      SameSplit(v, t);
      var p := Escaped(v) + "%";
      var rest := Escaped(v[1..]) + "%";
      if t != "" { EscapedPrefix(v[1..], t[1..]); }
      if Special(v[0]) {
        assert p == ['\\', v[0]] + rest && p[2..] == rest;
      } else {
        assert p == [v[0]] + rest && p[1..] == rest;
      }
    }
  }

  /** With the escape clause, the pattern of a string matches exactly the texts that contain it. */
  lemma LiteralContainsExactly(v: string, t: string)
    ensures Like(LiteralContains(v), Some('\\'), t) <==> Occurs(v, t)
  {
    var p := LiteralContains(v);
    assert p[1..] == Escaped(v) + "%";
    LeadingPercent(p, Some('\\'), t);
    forall i: nat | i <= |t| ensures Like(p[1..], Some('\\'), t[i..]) <==> OccursAt(v, t, i) {
      EscapedPrefix(v, t[i..]);
      if i + |v| <= |t| { assert t[i..][..|v|] == t[i..i + |v|]; }
    }
  }

  // ---------------------------------------------------------------- without escaping

  predicate Wildcard(c: char) { c == '%' || c == '_' }

  lemma {:induction false} PlainPrefix(v: string, t: string)
    requires forall i :: 0 <= i < |v| ==> !Wildcard(v[i])
    ensures Like(v + "%", None, t) <==> |v| <= |t| && Same(v, t[..|v|])
    decreases |v|
  {
    if v == "" {
      PercentMatchesAll(None, t);
      assert v + "%" == "%";
    } else {
      SameSplit(v, t);
      if t != "" { PlainPrefix(v[1..], t[1..]); }
      assert (v + "%")[1..] == v[1..] + "%";
    }
  }

  /** The column filters put the value between percent signs as it is; that is a substring test for
      values without wildcards. */
  lemma PlainContains(v: string, t: string)
    requires forall i :: 0 <= i < |v| ==> !Wildcard(v[i])
    ensures Like("%" + v + "%", None, t) <==> Occurs(v, t)
  {
    var p := "%" + v + "%";
    assert p[1..] == v + "%";
    LeadingPercent(p, None, t);
    forall i: nat | i <= |t| ensures Like(p[1..], None, t[i..]) <==> OccursAt(v, t, i) {
      PlainPrefix(v, t[i..]);
      if i + |v| <= |t| { assert t[i..][..|v|] == t[i..i + |v|]; }
    }
  }

  /** Some part of the text matches the value, whose `%` and `_` keep their meaning. */
  predicate PartMatches(v: string, t: string) { exists i: nat :: i <= |t| && MatchesFrom(v, t, i) }

  predicate MatchesFrom(v: string, t: string, i: nat) {
    exists j: nat :: i <= j <= |t| && Like(v, None, t[i..j])
  }

  /** A trailing percent sign matches whatever comes later. */
  lemma {:induction false} TrailingPercent(v: string, t: string)
    ensures Like(v + "%", None, t) <==> exists j: nat :: j <= |t| && Like(v, None, t[..j])
    decreases |v|, |t|
  {
    if exists j: nat :: j <= |t| && Like(v, None, t[..j]) {
      var j: nat :| j <= |t| && Like(v, None, t[..j]);
      Longer(v, t, j);
    }
    if Like(v + "%", None, t) { var j := Shorter(v, t); }
  }

  lemma {:induction false} Longer(v: string, t: string, j: nat)
    requires j <= |t| && Like(v, None, t[..j])
    ensures Like(v + "%", None, t)
    decreases |v|, |t|
  {
    if v == "" {
      PercentMatchesAll(None, t);
      assert v + "%" == "%";
    } else {
      assert (v + "%")[1..] == v[1..] + "%";
      if v[0] == '%' && Like(v[1..], None, t[..j]) {
        Longer(v[1..], t, j);
      } else {
        assert t[..j][1..] == t[1..][..j - 1];
        Longer(if v[0] == '%' then v else v[1..], t[1..], j - 1);
      }
    }
  }

  lemma {:induction false} Shorter(v: string, t: string) returns (j: nat)
    requires Like(v + "%", None, t)
    ensures j <= |t| && Like(v, None, t[..j])
    decreases |v|, |t|
  {
    if v == "" {
      j := 0;
    } else {
      assert (v + "%")[1..] == v[1..] + "%";
      if v[0] == '%' && Like(v[1..] + "%", None, t) {
        j := Shorter(v[1..], t);
      } else {
        j := Shorter(if v[0] == '%' then v else v[1..], t[1..]);
        j := j + 1;
        assert t[..j][1..] == t[1..][..j - 1];
      }
    }
  }

  /** A value between percent signs matches the texts some part of which it matches. */
  lemma BetweenPercents(v: string, t: string)
    ensures Like("%" + v + "%", None, t) <==> PartMatches(v, t)
  {
    var p := "%" + v + "%";
    assert p[1..] == v + "%";
    LeadingPercent(p, None, t);
    forall i: nat | i <= |t| ensures Like(v + "%", None, t[i..]) <==> MatchesFrom(v, t, i) {
      hide Like;
      TrailingPercent(v, t[i..]);
      assert forall j: nat :: j <= |t[i..]| ==> t[i..][..j] == t[i..i + j];
      if MatchesFrom(v, t, i) {
        var j: nat :| i <= j <= |t| && Like(v, None, t[i..j]);
        assert t[i..][..j - i] == t[i..j];
      }
    }
  }

  /** For a value without wildcards that is a substring test. */
  lemma PlainPartMatches(v: string, t: string)
    requires forall i :: 0 <= i < |v| ==> !Wildcard(v[i])
    ensures PartMatches(v, t) <==> Occurs(v, t)
  {
    BetweenPercents(v, t);
    PlainContains(v, t);
  }

  /** A text of other characters that an unescaped value with a wildcard nevertheless matches. */
  function Stranger(v: string): string {
    if v == "" then "" else (if v[0] == '_' then "x" else if v[0] == '%' then "" else [v[0]]) + Stranger(v[1..])
  }

  lemma {:induction false} StrangerMatches(v: string)
    ensures Like(v, None, Stranger(v))
    decreases |v|
  {
    if v != "" {
      StrangerMatches(v[1..]);
      if v[0] == '%' {
        assert Stranger(v) == Stranger(v[1..]);
      } else {
        assert Stranger(v)[1..] == Stranger(v[1..]);
      }
    }
  }

  lemma {:induction false} StrangerDiffers(v: string)
    ensures forall i :: 0 <= i < |Stranger(v)| ==> !Wildcard(Stranger(v)[i])
    decreases |v|
  {
    if v != "" { StrangerDiffers(v[1..]); }
  }

  lemma {:induction false} MatchWithin(v: string, t: string)
    requires Like(v, None, t)
    ensures Like("%" + v + "%", None, t)
  {
    var p := "%" + v + "%";
    assert p[1..] == v + "%" && t[0..] == t;
    MatchExtended(v, t);
    LeadingPercent(p, None, t);
  }

  lemma {:induction false} MatchExtended(v: string, t: string)
    requires Like(v, None, t)
    ensures Like(v + "%", None, t)
    decreases |v|, |t|
  {
    if v == "" {
      assert v + "%" == "%";
    } else {
      assert (v + "%")[1..] == v[1..] + "%";
      if v[0] == '%' {
        if Like(v[1..], None, t) { MatchExtended(v[1..], t); } else { MatchExtended(v, t[1..]); }
      } else {
        MatchExtended(v[1..], t[1..]);
      }
    }
  }

  /** The unescaped pattern is a substring test exactly for values without wildcards. */
  lemma PlainContainsExactly(v: string)
    ensures (forall t :: Like("%" + v + "%", None, t) <==> Occurs(v, t)) <==> forall i :: 0 <= i < |v| ==> !Wildcard(v[i])
  {
    if forall i :: 0 <= i < |v| ==> !Wildcard(v[i]) {
      forall t ensures Like("%" + v + "%", None, t) <==> Occurs(v, t) { PlainContains(v, t); }
    } else {
      hide Like, Occurs, Wildcard, Stranger;
      StrangerCounts(v);
    }
  }

  /** A text that the pattern of a value with a wildcard matches without containing the value. */
  lemma StrangerCounts(v: string)
    requires exists k :: 0 <= k < |v| && Wildcard(v[k])
    ensures Like("%" + v + "%", None, Stranger(v)) && !Occurs(v, Stranger(v))
  {
    hide Like, Stranger;
    var k :| 0 <= k < |v| && Wildcard(v[k]);
    var t := Stranger(v);
    StrangerMatches(v);
    StrangerDiffers(v);
    MatchWithin(v, t);
    forall i: nat | i <= |t| ensures !OccursAt(v, t, i) {
      if i + |v| <= |t| {
        assert !Wildcard(t[i + k]) && t[i..i + |v|][k] == t[i + k];
      }
    }
  }

  // ---------------------------------------------------------------- literals

  function Doubled(s: string): string {
    if s == "" then "" else (if s[0] == '\'' then "''" else [s[0]]) + Doubled(s[1..])
  }

  function Quote(s: string): string { "'" + Doubled(s) + "'" }

  /** The inside of a quoted literal, up to the quote that is not doubled, and the text after it. */
  function ReadInside(s: string): Option<(string, string)> {
    if s == "" then None
    else if s[0] != '\'' then
      match ReadInside(s[1..]) case None => None case Some(r) => Some(([s[0]] + r.0, r.1))
    else if |s| > 1 && s[1] == '\'' then
      match ReadInside(s[2..]) case None => None case Some(r) => Some((['\''] + r.0, r.1))
    else Some(("", s[1..]))
  }

  function ReadLiteral(s: string): Option<(string, string)> {
    if s == "" || s[0] != '\'' then None else ReadInside(s[1..])
  }

  lemma {:induction false} InsideRead(s: string, rest: string)
    requires rest == "" || rest[0] != '\''
    ensures ReadInside(Doubled(s) + "'" + rest) == Some((s, rest))
    decreases |s|
  {
    var all := Doubled(s) + "'" + rest;
    if s == "" {
      assert all == "'" + rest && all[1..] == rest;
    } else {
      var more := Doubled(s[1..]) + "'" + rest;
      InsideRead(s[1..], rest);
      if s[0] == '\'' {
        assert all == "''" + more && all[2..] == more;
      } else {
        assert all == [s[0]] + more && all[1..] == more;
      }
      assert [s[0]] + s[1..] == s;
    }
  }

  /** A quoted value is read by SQL as that value, and ends where the quoting ends. */
  lemma LiteralRead(s: string, rest: string)
    requires rest == "" || rest[0] != '\''
    ensures ReadLiteral(Quote(s) + rest) == Some((s, rest))
  {
    InsideRead(s, rest);
    assert (Quote(s) + rest)[1..] == Doubled(s) + "'" + rest;
  }

  // ---------------------------------------------------------------- the pattern, as a loop

  lemma {:induction false} EscapedSnoc(v: string, n: nat)
    requires n < |v|
    ensures Escaped(v[..n + 1]) == Escaped(v[..n]) + if Special(v[n]) then ['\\', v[n]] else [v[n]]
    decreases n
  {
    if n > 0 {
      EscapedSnoc(v[1..], n - 1);
      assert v[1..][..n] == v[..n + 1][1..] && v[1..][..n - 1] == v[..n][1..];
    }
  }

  /** `literal_contains_pattern`. */
  method LiteralContainsPattern(value: string) returns (escaped: string)
    ensures forall t :: Like(escaped, Some('\\'), t) <==> Occurs(value, t)
    ensures escaped == LiteralContains(value)
  {
    escaped := "%";
    for i := 0 to |value|
      invariant escaped == "%" + Escaped(value[..i])
    {
      EscapedSnoc(value, i);
      if Special(value[i]) { escaped := escaped + ['\\']; }
      escaped := escaped + [value[i]];
    }
    escaped := escaped + "%";
    assert value[..|value|] == value;
    forall t ensures Like(escaped, Some('\\'), t) <==> Occurs(value, t) { LiteralContainsExactly(value, t); }
  }
}
