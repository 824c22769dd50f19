/** How the name of a ZIP entry becomes a relative path: a list of plain components. */
module ArchivePaths {
  type Path = seq<string>

  datatype PathError = Unsafe | DrivePrefix | TooDeep | Empty
  datatype PathResult = Path(path: Path) | Bad(error: PathError)

  // ---------------------------------------------------------------- splitting at slashes

  function Split(s: string): (parts: seq<string>)
    ensures parts != []
  {
    if s == "" then [""]
    else
      var rest := Split(s[1..]);
      if s[0] == '/' then [""] + rest else [[s[0]] + rest[0]] + rest[1..]
  }

  function Join(parts: seq<string>): string {
    if parts == [] then "" else if |parts| == 1 then parts[0] else parts[0] + "/" + Join(parts[1..])
  }

  lemma {:induction false} SplitOne(s: string)
    requires '/' !in s
    ensures Split(s) == [s]
  {
    if s != "" {
      SplitOne(s[1..]);
      assert [s[0]] + s[1..] == s;
    }
  }

  lemma {:induction false} SplitFirst(s: string, rest: string)
    requires '/' !in s
    ensures Split(s + "/" + rest) == [s] + Split(rest)
  {
    var all := s + "/" + rest;
    if s == "" {
      assert all[1..] == rest;
    } else {
      assert all[1..] == s[1..] + "/" + rest;
      SplitFirst(s[1..], rest);
      assert [s[0]] + s[1..] == s;
    }
  }

  lemma {:induction false} SplitJoin(parts: seq<string>)
    requires parts != [] && forall i :: 0 <= i < |parts| ==> '/' !in parts[i]
    ensures Split(Join(parts)) == parts
  {
    if |parts| == 1 {
      SplitOne(parts[0]);
    } else {
      SplitFirst(parts[0], Join(parts[1..]));
      SplitJoin(parts[1..]);
    }
  }

  lemma {:induction false} SplitChars(s: string, c: char)
    requires c !in s
    ensures forall i :: 0 <= i < |Split(s)| ==> c !in Split(s)[i]
  {
    if s != "" { SplitChars(s[1..], c); }
  }

  lemma {:induction false} SplitNoSlash(s: string)
    ensures forall i :: 0 <= i < |Split(s)| ==> '/' !in Split(s)[i]
  {
    if s != "" { SplitNoSlash(s[1..]); }
  }

  // ---------------------------------------------------------------- components

  /** Path iteration passes over empty parts and single dots. */
  function Components(parts: seq<string>): seq<string> {
    if parts == [] then []
    else
      var init := Components(parts[..|parts| - 1]);
      var last := parts[|parts| - 1];
      if last == "" || last == "." then init else init + [last]
  }

  predicate Drive(part: string) {
    |part| >= 2 && ('a' <= part[0] <= 'z' || 'A' <= part[0] <= 'Z') && part[1] == ':'
  }

  /** A letter and a colon, and anything behind them. */
  lemma DriveIs(part: string)
    ensures Drive(part) <==> exists letter, rest :: (65 <= letter as int <= 90 || 97 <= letter as int <= 122) && part == [letter, ':'] + rest
  {
    if Drive(part) { assert part == [part[0], ':'] + part[2..]; }
  }

  predicate Refused(name: string) {
    '\0' in name || '\\' in name || ".." in Split(name)
  }

  function RelativePath(name: string, maxDepth: nat): PathResult {
    if Refused(name) || (name != "" && name[0] == '/') then Bad(Unsafe)
    else
      var parts := Components(Split(name));
      if parts == [] then Bad(Empty)
      else if Drive(parts[0]) then Bad(DrivePrefix)
      else if |parts| > maxDepth then Bad(TooDeep)
      else Path(parts)
  }

  /** A component that names an entry of its directory and nothing else. */
  predicate PlainComponent(part: string) {
    part != "" && part != "." && part != ".." && '/' !in part && '\\' !in part && '\0' !in part
  }

  predicate PlainPath(p: Path) {
    p != [] && (forall i :: 0 <= i < |p| ==> PlainComponent(p[i])) && !Drive(p[0])
  }

  lemma {:induction false} ComponentsWithin(parts: seq<string>)
    ensures forall i :: 0 <= i < |Components(parts)| ==>
              Components(parts)[i] in parts && Components(parts)[i] != "" && Components(parts)[i] != "."
  {
    if parts != [] { ComponentsWithin(parts[..|parts| - 1]); }
  }

  lemma {:induction false} ComponentsOfPlain(parts: seq<string>)
    requires forall i :: 0 <= i < |parts| ==> parts[i] != "" && parts[i] != "."
    ensures Components(parts) == parts
  {
    if parts != [] { ComponentsOfPlain(parts[..|parts| - 1]); }
  }

  /** An accepted path consists of plain components, at most `maxDepth` of them: joined to a directory
      it stays below it. */
  lemma AcceptedIsPlain(name: string, maxDepth: nat)
    requires RelativePath(name, maxDepth).Path?
    ensures PlainPath(RelativePath(name, maxDepth).path) && |RelativePath(name, maxDepth).path| <= maxDepth
  {
    var parts := Split(name);
    ComponentsWithin(parts);
    SplitNoSlash(name);
    SplitChars(name, '\\');
    SplitChars(name, '\0');
  }

  lemma {:induction false} JoinChars(parts: seq<string>, c: char)
    requires c != '/' && forall i :: 0 <= i < |parts| ==> c !in parts[i]
    ensures c !in Join(parts)
  {
    if |parts| > 1 { JoinChars(parts[1..], c); }
  }

  lemma PlainNotRefused(p: Path)
    requires PlainPath(p)
    ensures !Refused(Join(p)) && Join(p) != "" && Join(p)[0] != '/'
  {
    hide Split, Components;
    SplitJoin(p);
    JoinChars(p, '\\');
    JoinChars(p, '\0');
    assert PlainComponent(p[0]);
    assert ".." !in p;
    assert Join(p)[0] == p[0][0];
  }

  /** A plain path within the depth limit stands for itself as a name. */
  lemma PlainAccepted(p: Path, maxDepth: nat)
    requires PlainPath(p) && |p| <= maxDepth
    ensures RelativePath(Join(p), maxDepth) == Path(p)
  {
    hide Split, Join, Components, Refused;
    SplitJoin(p);
    PlainNotRefused(p);
    PlainComponents(p);
  }

  lemma PlainComponents(p: Path)
    requires PlainPath(p)
    ensures Components(p) == p && !Drive(p[0])
  {
    hide Components;
    ComponentsOfPlain(p);
  }

  /** The plain paths are exactly the names that stand for themselves. */
  lemma NormalForm(p: Path, maxDepth: nat)
    requires p != [] && forall i :: 0 <= i < |p| ==> '/' !in p[i]
    ensures RelativePath(Join(p), maxDepth) == Path(p) <==> PlainPath(p) && |p| <= maxDepth
  {
    hide RelativePath, Join, PlainPath;
    if PlainPath(p) && |p| <= maxDepth { PlainAccepted(p, maxDepth); }
    if RelativePath(Join(p), maxDepth) == Path(p) { AcceptedIsPlain(Join(p), maxDepth); }
  }

  predicate Real(part: string) { part != "" && part != "." }

  lemma {:induction false} ComponentsAre(parts: seq<string>)
    ensures forall part :: part in Components(parts) <==> part in parts && Real(part)
    ensures Components(parts) == [] <==> forall i :: 0 <= i < |parts| ==> !Real(parts[i])
    decreases |parts|
  {
    if parts != [] {
      var k := |parts| - 1;
      ComponentsAre(parts[..k]);
      assert parts == parts[..k] + [parts[k]];
    }
  }

  /** The first real part is the first component. */
  lemma {:induction false} FirstReal(parts: seq<string>, i: nat)
    requires i < |parts| && Real(parts[i]) && forall j :: 0 <= j < i ==> !Real(parts[j])
    ensures Components(parts) != [] && Components(parts)[0] == parts[i]
    decreases |parts|
  {
    var k := |parts| - 1;
    if i < k {
      FirstReal(parts[..k], i);
    } else {
      ComponentsAre(parts[..k]);
    }
  }

  /** What is made of a name, given its parts between the slashes: refused as unsafe if a part has a NUL or a backslash
      or is "..", or if the name begins with a slash; else empty if no part is real, a drive if the first real part
      is one, too deep, or the path of its real parts. */
  lemma PathAnswers(parts: seq<string>, maxDepth: nat)
    requires parts != [] && forall i :: 0 <= i < |parts| ==> '/' !in parts[i]
    ensures
      var r, cs := RelativePath(Join(parts), maxDepth), Components(parts);
      && (r == Bad(Unsafe) <==>
            || (exists i :: 0 <= i < |parts| && ('\0' in parts[i] || '\\' in parts[i] || parts[i] == ".."))
            || (|parts| > 1 && parts[0] == ""))
      && (r != Bad(Unsafe) ==>
            && (r == Bad(Empty) <==> forall i :: 0 <= i < |parts| ==> !Real(parts[i]))
            && (r == Bad(DrivePrefix) <==> cs != [] && Drive(cs[0]))
            && (r == Bad(TooDeep) <==> cs != [] && !Drive(cs[0]) && |cs| > maxDepth)
            && (r.Path? <==> cs != [] && !Drive(cs[0]) && |cs| <= maxDepth)
            && (r.Path? ==> r.path == cs))
  {
    hide Components, Drive, Real;
    SplitJoin(parts);
    ComponentsAre(parts);
    JoinHas(parts, '\0');
    JoinHas(parts, '\\');
    JoinStarts(parts);
    hide Split, Join;
  }

  lemma {:induction false} JoinHas(parts: seq<string>, c: char)
    requires c != '/'
    ensures c in Join(parts) <==> exists i :: 0 <= i < |parts| && c in parts[i]
    decreases |parts|
  {
    if |parts| > 1 {
      JoinHas(parts[1..], c);
      assert forall i :: 0 < i < |parts| ==> parts[i] == parts[1..][i - 1];
    }
  }

  lemma JoinStarts(parts: seq<string>)
    requires parts != [] && '/' !in parts[0]
    ensures Join(parts) != "" && Join(parts)[0] == '/' <==> |parts| > 1 && parts[0] == ""
  {
    if |parts| > 1 && parts[0] != "" { assert Join(parts)[0] == parts[0][0]; }
  }

  /** `relative_path`. */
  method RelativePathOf(name: string, maxDepth: nat) returns (r: PathResult)
    ensures r == RelativePath(name, maxDepth)
  {
    var parts := Split(name);
    if '\0' in name || '\\' in name { return Bad(Unsafe); }
    for i := 0 to |parts|
      invariant ".." !in parts[..i]
    {
      if parts[i] == ".." { return Bad(Unsafe); }
    }
    assert parts[..|parts|] == parts;
    if name != "" && name[0] == '/' { return Bad(Unsafe); }
    var result := [];
    for i := 0 to |parts|
      invariant result == Components(parts[..i]) && |result| <= maxDepth
      invariant result != [] ==> !Drive(result[0])
    {
      assert parts[..i + 1][..i] == parts[..i];
      FirstComponent(parts, i + 1);
      if parts[i] != "" && parts[i] != "." {
        if result == [] && Drive(parts[i]) { return Bad(DrivePrefix); }
        if |result| + 1 > maxDepth { return Bad(TooDeep); }
        result := result + [parts[i]];
      }
    }
    if result == [] { return Bad(Empty); }
    r := Path(result);
  }

  /** Later parts only add components at the end. */
  lemma {:induction false} FirstComponent(parts: seq<string>, n: nat)
    requires n <= |parts|
    ensures Components(parts[..n]) <= Components(parts)
    decreases |parts| - n
  {
    if n == |parts| {
      assert parts[..n] == parts;
    } else {
      FirstComponent(parts, n + 1);
      assert parts[..n + 1][..n] == parts[..n];
    }
  }
}
