/** The wallpaper filters: each predicate as a condition on the columns of a row, and the query they
    make with a search text. The full-text index is an uninterpreted predicate; everything else is
    evaluated as SQL does, unknown on a missing value. */
module WallpaperFilter {
  import opened Common
  import opened Conditions
  import opened LikePattern

  // ---------------------------------------------------------------- rows and atoms

  datatype TextColumn = TypeColumn | RatingColumn | NameColumn | ExternalIdColumn
  datatype NumberColumn = LibraryColumn | WidthColumn | HeightColumn | SizeColumn

  datatype Row = Row(
    ty: Option<string>, rating: Option<string>, name: Option<string>, externalId: Option<string>,
    library: Option<int>, width: Option<int>, height: Option<int>, size: Option<int>, tags: seq<string>)

  datatype StringMatch = Is | IsNot | Contains | ContainsNot
  datatype IntMatch = Equal | NotEqual | Less | LessEqual | Greater | GreaterEqual

  datatype Atom =
    | LikeText(text: TextColumn, pattern: string, escape: Option<char>)
    | NotLikeText(text: TextColumn, pattern: string)
    | EqText(text: TextColumn, value: string)
    | NeText(text: TextColumn, value: string)
    | NullText(text: TextColumn)
    | CompareNumber(number: NumberColumn, op: IntMatch, n: int)
    | HasTag(tag: string)
    | LacksTag(tag: string)
    | TagLike(pattern: string)
    | NoTagLike(pattern: string)
    | Fts(query: string)
    | NotFts(query: string)

  function TextOf(row: Row, c: TextColumn): Option<string> {
    match c
    case TypeColumn => row.ty
    case RatingColumn => row.rating
    case NameColumn => row.name
    case ExternalIdColumn => row.externalId
  }

  function NumberOf(row: Row, c: NumberColumn): Option<int> {
    match c
    case LibraryColumn => row.library
    case WidthColumn => row.width
    case HeightColumn => row.height
    case SizeColumn => row.size
  }

  predicate Compares(op: IntMatch, a: int, b: int) {
    match op
    case Equal => a == b
    case NotEqual => a != b
    case Less => a < b
    case LessEqual => a <= b
    case Greater => a > b
    case GreaterEqual => a >= b
  }

  function Truth(b: bool): Tri { if b then True else False }

  predicate Tagged(row: Row, tag: string) { exists i :: 0 <= i < |row.tags| && Same(row.tags[i], tag) }
  predicate TagLikes(row: Row, pattern: string) { exists i :: 0 <= i < |row.tags| && Like(pattern, None, row.tags[i]) }

  /** SQL's value of an atom on a row; `fts` says which queries the full-text index finds the row for. */
  function Value(a: Atom, row: Row, fts: string -> bool): Tri {
    match a
    case LikeText(c, p, e) => (match TextOf(row, c) case None => Unknown case Some(t) => Truth(Like(p, e, t)))
    case NotLikeText(c, p) => (match TextOf(row, c) case None => Unknown case Some(t) => Truth(!Like(p, None, t)))
    case EqText(c, v) => (match TextOf(row, c) case None => Unknown case Some(t) => Truth(t == v))
    case NeText(c, v) => (match TextOf(row, c) case None => Unknown case Some(t) => Truth(t != v))
    case NullText(c) => Truth(TextOf(row, c).None?)
    case CompareNumber(c, op, n) => (match NumberOf(row, c) case None => Unknown case Some(x) => Truth(Compares(op, x, n)))
    case HasTag(tag) => Truth(Tagged(row, tag))
    case LacksTag(tag) => Truth(!Tagged(row, tag))
    case TagLike(p) => Truth(TagLikes(row, p))
    case NoTagLike(p) => Truth(!TagLikes(row, p))
    case Fts(q) => Truth(fts(q))
    case NotFts(q) => Truth(!fts(q))
  }

  function Env(row: Row, fts: string -> bool): Atom -> Tri { (a: Atom) => Value(a, row, fts) }

  // ---------------------------------------------------------------- filters

  datatype Predicate =
    | Name(value: string, cond: StringMatch)
    | WallpaperType(value: string, cond: StringMatch)
    | Library(id: int, exclude: bool)
    | Width(n: int, op: IntMatch)
    | Height(n: int, op: IntMatch)
    | Size(n: int, op: IntMatch)
    | ContentRating(value: string, cond: StringMatch)
    | Tags(values: seq<string>, cond: StringMatch)

  datatype Filter = Filter(group: int, pred: Predicate)

  /** Unicode's white space. */
  predicate Space(c: char) {
    var n := c as int;
    9 <= n <= 13 || n == 0x20 || n == 0x85 || n == 0xA0 || n == 0x1680 || 0x2000 <= n <= 0x200A
    || n == 0x2028 || n == 0x2029 || n == 0x202F || n == 0x205F || n == 0x3000
  }
  predicate Blank(s: string) { forall i :: 0 <= i < |s| ==> Space(s[i]) }

  /** The words of a text, each a quoted prefix term of the full-text query. */
  function Words(s: string): seq<string> {
    if s == "" then []
    else
      var rest := Words(s[1..]);
      if Space(s[0]) then rest
      else if |s| == 1 || Space(s[1]) || rest == [] then [[s[0]]] + rest
      else [[s[0]] + rest[0]] + rest[1..]
  }

  function DoubleQuotes(s: string): string {
    if s == "" then "" else (if s[0] == '"' then "\"\"" else [s[0]]) + DoubleQuotes(s[1..])
  }

  function Term(word: string): string { "\"" + DoubleQuotes(word) + "\"*" }

  function JoinTerms(words: seq<string>): string {
    if words == [] then "" else if |words| == 1 then Term(words[0]) else Term(words[0]) + " AND " + JoinTerms(words[1..])
  }

  /** `build_fts_match_query`: none without words. */
  function FtsQuery(s: string): Option<string> {
    if Words(s) == [] then None else Some(JoinTerms(Words(s)))
  }

  lemma {:induction false} WordsOfBlank(s: string)
    ensures Words(s) == [] <==> Blank(s)
  {
    if s != "" {
      WordsOfBlank(s[1..]);
      assert Blank(s) ==> Blank(s[1..]) by {
        assert forall i :: 0 <= i < |s| - 1 ==> s[1..][i] == s[i + 1];
      }
      assert Space(s[0]) && Blank(s[1..]) ==> Blank(s) by {
        assert forall i :: 0 < i < |s| ==> s[i] == s[1..][i - 1];
      }
    }
  }

  function Around(v: string): string { "%" + v + "%" }

  function TextContains(v: string): Option<Cond<Atom>> {
    match FtsQuery(v)
    case None => None
    case Some(q) => Some(Any([Cond.Atom(Fts(q)), Cond.Atom(TagLike(Around(v)))]))
  }

  /** `string_condition_to_condition`. */
  function StringCondition(c: TextColumn, cond: StringMatch, v: string, nullMatchesNegative: bool): Cond<Atom> {
    match cond
    case Contains => All([Cond.Atom(LikeText(c, Around(v), None))])
    case Is => All([Cond.Atom(EqText(c, v))])
    case ContainsNot =>
      if nullMatchesNegative then Any([Cond.Atom(NullText(c)), Cond.Atom(NotLikeText(c, Around(v)))])
      else All([Cond.Atom(NotLikeText(c, Around(v)))])
    case IsNot =>
      if nullMatchesNegative then Any([Cond.Atom(NullText(c)), Cond.Atom(NeText(c, v))]) else All([Cond.Atom(NeText(c, v))])
  }

  function NameCondition(v: string, cond: StringMatch): Option<Cond<Atom>> {
    match cond
    case Contains => TextContains(v)
    case ContainsNot =>
      (match FtsQuery(v)
       case None => None
       case Some(q) => Some(All([Cond.Atom(NotFts(q)), Cond.Atom(NoTagLike(Around(v)))])))
    case _ => Some(StringCondition(NameColumn, cond, v, false))
  }

  function NonEmpty(values: seq<string>): seq<string> {
    if values == [] then []
    else
      var last := values[|values| - 1];
      NonEmpty(values[..|values| - 1]) + (if last == "" then [] else [last])
  }

  function TagAtoms(names: seq<string>, has: bool): (cs: seq<Cond<Atom>>)
    ensures |cs| == |names| && forall i :: 0 <= i < |cs| ==> cs[i] == Cond.Atom(if has then HasTag(names[i]) else LacksTag(names[i]))
  {
    seq(|names|, i requires 0 <= i < |names| => Cond.Atom(if has then HasTag(names[i]) else LacksTag(names[i])))
  }

  function TagCondition(values: seq<string>, cond: StringMatch): Option<Cond<Atom>> {
    var names := NonEmpty(values);
    if names == [] then None
    else if cond == Is || cond == Contains then Some(Any(TagAtoms(names, true)))
    else Some(All(TagAtoms(names, false)))
  }

  function LowerAscii(s: string): string { seq(|s|, i requires 0 <= i < |s| => Fold(s[i])) }

  /** `wallpaper_filter_to_condition`. */
  function FilterCondition(p: Predicate): Option<Cond<Atom>> {
    match p
    case Name(v, cond) => NameCondition(v, cond)
    case WallpaperType(v, cond) => Some(StringCondition(TypeColumn, cond, LowerAscii(v), false))
    case Library(id, exclude) => Some(All([Cond.Atom(CompareNumber(LibraryColumn, if exclude then NotEqual else Equal, id))]))
    case Width(n, op) => Some(All([Cond.Atom(CompareNumber(WidthColumn, op, n))]))
    case Height(n, op) => Some(All([Cond.Atom(CompareNumber(HeightColumn, op, n))]))
    case Size(n, op) => Some(All([Cond.Atom(CompareNumber(SizeColumn, op, n))]))
    case ContentRating(v, cond) => Some(StringCondition(RatingColumn, cond, v, true))
    case Tags(values, cond) => TagCondition(values, cond)
  }

  // ---------------------------------------------------------------- what they are to mean

  /** A filter says something unless it looks for no words or no tags. */
  predicate Applies(p: Predicate) {
    match p
    case Name(v, cond) => (cond == Contains || cond == ContainsNot) ==> !Blank(v)
    case Tags(values, _) => exists i :: 0 <= i < |values| && values[i] != ""
    case _ => true
  }

  predicate TextMatches(t: Option<string>, cond: StringMatch, v: string, missingIsOther: bool) {
    match cond
    case Is => t == Some(v)
    case IsNot => if t.None? then missingIsOther else t.value != v
    case Contains => t.Some? && PartMatches(v, t.value)
    case ContainsNot => if t.None? then missingIsOther else !PartMatches(v, t.value)
  }

  predicate FoundBy(v: string, row: Row, fts: string -> bool) {
    (FtsQuery(v).Some? && fts(FtsQuery(v).value)) || exists i :: 0 <= i < |row.tags| && PartMatches(v, row.tags[i])
  }

  predicate NumberMatches(x: Option<int>, op: IntMatch, n: int) { x.Some? && Compares(op, x.value, n) }

  predicate Matches(p: Predicate, row: Row, fts: string -> bool) {
    match p
    case Name(v, cond) =>
      (match cond
       case Contains => FoundBy(v, row, fts)
       case ContainsNot => !FoundBy(v, row, fts)
       case _ => TextMatches(row.name, cond, v, false))
    case WallpaperType(v, cond) => TextMatches(row.ty, cond, LowerAscii(v), false)
    case Library(id, exclude) => NumberMatches(row.library, if exclude then NotEqual else Equal, id)
    case Width(n, op) => NumberMatches(row.width, op, n)
    case Height(n, op) => NumberMatches(row.height, op, n)
    case Size(n, op) => NumberMatches(row.size, op, n)
    case ContentRating(v, cond) => TextMatches(row.rating, cond, v, true)
    case Tags(values, cond) =>
      var some := exists i :: 0 <= i < |values| && values[i] != "" && Tagged(row, values[i]);
      if cond == Is || cond == Contains then some else !some
  }

  // ---------------------------------------------------------------- and do

  lemma OneOf(a: Atom, row: Row, fts: string -> bool)
    ensures Holds(All([Cond.Atom(a)]), Env(row, fts)) <==> Value(a, row, fts) == True
  {
    var parts := [Cond.Atom(a)];
    AllHolds(parts, Env(row, fts));
    assert parts[0] == Cond.Atom(a);
  }

  lemma Either(a: Atom, b: Atom, row: Row, fts: string -> bool)
    ensures Holds(Any([Cond.Atom(a), Cond.Atom(b)]), Env(row, fts)) <==>
            Value(a, row, fts) == True || Value(b, row, fts) == True
    ensures Holds(All([Cond.Atom(a), Cond.Atom(b)]), Env(row, fts)) <==>
            Value(a, row, fts) == True && Value(b, row, fts) == True
  {
    var parts := [Cond.Atom(a), Cond.Atom(b)];
    AnyHolds(parts, Env(row, fts));
    AllHolds(parts, Env(row, fts));
    assert parts[0] == Cond.Atom(a) && parts[1] == Cond.Atom(b);
  }

  lemma StringConditionMeans(c: TextColumn, cond: StringMatch, v: string, nulls: bool, row: Row, fts: string -> bool)
    ensures Holds(StringCondition(c, cond, v, nulls), Env(row, fts)) <==> TextMatches(TextOf(row, c), cond, v, nulls)
  {
    hide Like, PartMatches, Holds, Env;
    if TextOf(row, c).Some? { BetweenPercents(v, TextOf(row, c).value); }
    match cond
    case Contains => OneOf(LikeText(c, Around(v), None), row, fts);
    case Is => OneOf(EqText(c, v), row, fts);
    case ContainsNot =>
      OneOf(NotLikeText(c, Around(v)), row, fts);
      Either(NullText(c), NotLikeText(c, Around(v)), row, fts);
    case IsNot =>
      OneOf(NeText(c, v), row, fts);
      Either(NullText(c), NeText(c, v), row, fts);
  }

  lemma {:induction false} NonEmptyMembers(values: seq<string>, name: string)
    ensures name in NonEmpty(values) <==> name != "" && name in values
    decreases |values|
  {
    if values != [] {
      var k := |values| - 1;
      NonEmptyMembers(values[..k], name);
      assert values == values[..k] + [values[k]];
    }
  }

  lemma TagAtomsMean(names: seq<string>, row: Row, fts: string -> bool)
    ensures Holds(Any(TagAtoms(names, true)), Env(row, fts)) <==> exists i :: 0 <= i < |names| && Tagged(row, names[i])
    ensures Holds(All(TagAtoms(names, false)), Env(row, fts)) <==> forall i :: 0 <= i < |names| ==> !Tagged(row, names[i])
  {
    hide Tagged;
    AnyHolds(TagAtoms(names, true), Env(row, fts));
    AllHolds(TagAtoms(names, false), Env(row, fts));
    assert forall i :: 0 <= i < |names| ==> (Holds(TagAtoms(names, true)[i], Env(row, fts)) <==> Tagged(row, names[i]));
    assert forall i :: 0 <= i < |names| ==> (Holds(TagAtoms(names, false)[i], Env(row, fts)) <==> !Tagged(row, names[i]));
  }

  lemma TagsMean(values: seq<string>, row: Row)
    ensures NonEmpty(values) != [] <==> exists i :: 0 <= i < |values| && values[i] != ""
    ensures (exists i :: 0 <= i < |NonEmpty(values)| && Tagged(row, NonEmpty(values)[i])) <==>
            (exists i :: 0 <= i < |values| && values[i] != "" && Tagged(row, values[i]))
  {
    hide Tagged, NonEmpty;
    var names := NonEmpty(values);
    forall name ensures name in names <==> name != "" && name in values { NonEmptyMembers(values, name); }
    assert names != [] ==> names[0] in names;
    forall i | 0 <= i < |values| && values[i] != "" ensures values[i] in names { assert values[i] in values; }
    forall i | 0 <= i < |names| ensures names[i] != "" && names[i] in values { assert names[i] in names; }
  }

  lemma TagConditionMeans(values: seq<string>, cond: StringMatch, row: Row, fts: string -> bool)
    ensures TagCondition(values, cond).Some? <==> Applies(Tags(values, cond))
    ensures TagCondition(values, cond).Some? ==>
              (Holds(TagCondition(values, cond).value, Env(row, fts)) <==> Matches(Tags(values, cond), row, fts))
  {
    hide Tagged, NonEmpty, Holds, Env, TagAtoms;
    TagsMean(values, row);
    TagAtomsMean(NonEmpty(values), row, fts);
  }

  lemma TagsAround(v: string, row: Row)
    ensures TagLikes(row, Around(v)) <==> exists i :: 0 <= i < |row.tags| && PartMatches(v, row.tags[i])
  {
    hide Like, PartMatches;
    forall i | 0 <= i < |row.tags| ensures Like(Around(v), None, row.tags[i]) <==> PartMatches(v, row.tags[i]) {
      BetweenPercents(v, row.tags[i]);
    }
  }

  /** For values without `%` and `_`, containing is having the value as a part, ASCII case aside. */
  lemma PlainValues(v: string, t: Option<string>, missingIsOther: bool)
    requires forall i :: 0 <= i < |v| ==> !Wildcard(v[i])
    ensures TextMatches(t, Contains, v, missingIsOther) <==> t.Some? && Occurs(v, t.value)
    ensures TextMatches(t, ContainsNot, v, missingIsOther) <==> if t.None? then missingIsOther else !Occurs(v, t.value)
  {
    if t.Some? { PlainPartMatches(v, t.value); }
  }

  lemma PlainFound(v: string, row: Row, fts: string -> bool)
    requires forall i :: 0 <= i < |v| ==> !Wildcard(v[i])
    ensures FoundBy(v, row, fts) <==>
            (FtsQuery(v).Some? && fts(FtsQuery(v).value)) || exists i :: 0 <= i < |row.tags| && Occurs(v, row.tags[i])
  {
    hide PartMatches, Occurs;
    forall i | 0 <= i < |row.tags| ensures PartMatches(v, row.tags[i]) <==> Occurs(v, row.tags[i]) {
      PlainPartMatches(v, row.tags[i]);
    }
  }

  lemma NameMeans(v: string, cond: StringMatch, row: Row, fts: string -> bool)
    ensures NameCondition(v, cond).Some? <==> Applies(Name(v, cond))
    ensures NameCondition(v, cond).Some? ==>
              (Holds(NameCondition(v, cond).value, Env(row, fts)) <==> Matches(Name(v, cond), row, fts))
  {
    hide Holds, Env, Blank, Words, JoinTerms, TagLikes, PartMatches;
    WordsOfBlank(v);
    TagsAround(v, row);
    StringConditionMeans(NameColumn, cond, v, false, row, fts);
    if !Blank(v) {
      var q := FtsQuery(v).value;
      Either(Fts(q), TagLike(Around(v)), row, fts);
      Either(NotFts(q), NoTagLike(Around(v)), row, fts);
    }
  }

  /** A filter compiles to a condition exactly when it applies, and the condition holds of the rows that
      match. */
  lemma FilterMeans(p: Predicate, row: Row, fts: string -> bool)
    ensures FilterCondition(p).Some? <==> Applies(p)
    ensures FilterCondition(p).Some? ==> (Holds(FilterCondition(p).value, Env(row, fts)) <==> Matches(p, row, fts))
  {
    hide Holds, Env, NameCondition, TagCondition, StringCondition;
    match p
    case Name(v, cond) => NameMeans(v, cond, row, fts);
    case WallpaperType(v, cond) => StringConditionMeans(TypeColumn, cond, LowerAscii(v), false, row, fts);
    case Library(id, exclude) => OneOf(CompareNumber(LibraryColumn, if exclude then NotEqual else Equal, id), row, fts);
    case Width(n, op) => OneOf(CompareNumber(WidthColumn, op, n), row, fts);
    case Height(n, op) => OneOf(CompareNumber(HeightColumn, op, n), row, fts);
    case Size(n, op) => OneOf(CompareNumber(SizeColumn, op, n), row, fts);
    case ContentRating(v, cond) => StringConditionMeans(RatingColumn, cond, v, true, row, fts);
    case Tags(values, cond) => TagConditionMeans(values, cond, row, fts);
  }

  // ---------------------------------------------------------------- the search text

  /** `trim`. */
  function TrimFront(s: string): (t: string)
    ensures |t| <= |s|
  {
    if s != "" && Space(s[0]) then TrimFront(s[1..]) else s
  }

  function TrimBack(s: string): (t: string)
    ensures |t| <= |s|
  {
    if s != "" && Space(s[|s| - 1]) then TrimBack(s[..|s| - 1]) else s
  }

  function Trim(s: string): string { TrimBack(TrimFront(s)) }

  lemma {:induction false} TrimFrontBlank(s: string)
    ensures Blank(s) <==> TrimFront(s) == ""
    ensures TrimFront(s) != "" ==> !Space(TrimFront(s)[0])
  {
    if s != "" && Space(s[0]) {
      TrimFrontBlank(s[1..]);
      assert forall i :: 0 < i < |s| ==> s[i] == s[1..][i - 1];
    }
  }

  lemma {:induction false} TrimBackBlank(s: string)
    ensures Blank(s) <==> TrimBack(s) == ""
    ensures TrimBack(s) != "" ==> !Blank(TrimBack(s))
  {
    if s != "" && Space(s[|s| - 1]) {
      TrimBackBlank(s[..|s| - 1]);
      assert forall i :: 0 <= i < |s| - 1 ==> s[i] == s[..|s| - 1][i];
    }
  }

  lemma TrimBlank(s: string)
    ensures Trim(s) == "" <==> Blank(s)
    ensures Trim(s) != "" ==> !Blank(Trim(s))
  {
    TrimFrontBlank(s);
    TrimBackBlank(TrimFront(s));
  }

  /** `wallpaper_search_to_condition`. */
  function SearchCondition(text: string): Option<Cond<Atom>> {
    var t := Trim(text);
    if t == "" then None
    else match TextContains(t)
      case None => None
      case Some(c) => Some(Any([c, Cond.Atom(LikeText(ExternalIdColumn, LiteralContains(t), Some('\\')))]))
  }

  /** The text is found, or occurs literally in the external id. */
  predicate SearchMatches(text: string, row: Row, fts: string -> bool) {
    FoundBy(Trim(text), row, fts) || (row.externalId.Some? && Occurs(Trim(text), row.externalId.value))
  }

  lemma SearchMeans(text: string, row: Row, fts: string -> bool)
    ensures SearchCondition(text).Some? <==> !Blank(text)
    ensures SearchCondition(text).Some? ==>
              (Holds(SearchCondition(text).value, Env(row, fts)) <==> SearchMatches(text, row, fts))
  {
    TrimBlank(text);
    var t := Trim(text);
    if t != "" {
      WordsOfBlank(t);
      TagsAround(t, row);
      var q := FtsQuery(t).value;
      var atom := LikeText(ExternalIdColumn, LiteralContains(t), Some('\\'));
      var parts := [TextContains(t).value, Cond.Atom(atom)];
      Either(Fts(q), TagLike(Around(t)), row, fts);
      AnyHolds(parts, Env(row, fts));
      assert parts[0] == TextContains(t).value && parts[1] == Cond.Atom(atom);
      if row.externalId.Some? { LiteralContainsExactly(t, row.externalId.value); }
    }
  }

  // ---------------------------------------------------------------- the query

  function RulesOf(filters: seq<Filter>): (rules: seq<Rule<Atom>>)
    ensures |rules| == |filters|
    ensures forall i :: 0 <= i < |rules| ==> rules[i] == Rule(filters[i].group, FilterCondition(filters[i].pred))
  {
    seq(|filters|, i requires 0 <= i < |filters| => Rule(filters[i].group, FilterCondition(filters[i].pred)))
  }

  predicate GroupApplies(filters: seq<Filter>, g: int) {
    exists i :: 0 <= i < |filters| && filters[i].group == g && Applies(filters[i].pred)
  }

  predicate GroupMatches(filters: seq<Filter>, g: int, row: Row, fts: string -> bool) {
    forall i :: 0 <= i < |filters| && filters[i].group == g && Applies(filters[i].pred) ==> Matches(filters[i].pred, row, fts)
  }

  predicate Counts(filters: seq<Filter>, l: Logic) { GroupApplies(filters, l.a) && GroupApplies(filters, l.b) }

  predicate LogicMatches(filters: seq<Filter>, l: Logic, row: Row, fts: string -> bool) {
    if l.operator == Or then GroupMatches(filters, l.a, row, fts) || GroupMatches(filters, l.b, row, fts)
    else GroupMatches(filters, l.a, row, fts) && GroupMatches(filters, l.b, row, fts)
  }

  predicate Named(filters: seq<Filter>, logics: seq<Logic>, g: int) {
    exists k :: 0 <= k < |logics| && Counts(filters, logics[k]) && (logics[k].a == g || logics[k].b == g)
  }

  /** The rows a query is to select: every logic between two groups that apply is met, every other group
      that applies is met in full, and the search text, if any, is found. */
  ghost predicate Selects(filters: seq<Filter>, logics: seq<Logic>, text: string, row: Row, fts: string -> bool) {
    && (forall k :: 0 <= k < |logics| && Counts(filters, logics[k]) ==> LogicMatches(filters, logics[k], row, fts))
    && (forall g :: GroupApplies(filters, g) && !Named(filters, logics, g) ==> GroupMatches(filters, g, row, fts))
    && (!Blank(text) ==> SearchMatches(text, row, fts))
  }

  lemma GroupsMean(filters: seq<Filter>, g: int, row: Row, fts: string -> bool)
    ensures Constrains(RulesOf(filters), g) <==> GroupApplies(filters, g)
    ensures GroupHolds(RulesOf(filters), g, Env(row, fts)) <==> GroupMatches(filters, g, row, fts)
  {
    var rules := RulesOf(filters);
    forall i | 0 <= i < |filters|
      ensures rules[i].cond.Some? <==> Applies(filters[i].pred)
      ensures rules[i].cond.Some? ==> (Holds(rules[i].cond.value, Env(row, fts)) <==> Matches(filters[i].pred, row, fts))
    {
      FilterMeans(filters[i].pred, row, fts);
    }
  }

  lemma RulesMean(filters: seq<Filter>, logics: seq<Logic>, row: Row, fts: string -> bool)
    ensures Meaning(RulesOf(filters), logics, Env(row, fts)) <==> Selects(filters, logics, "", row, fts)
  {
    hide Constrains, GroupHolds, GroupApplies, GroupMatches;
    forall g
      ensures Constrains(RulesOf(filters), g) <==> GroupApplies(filters, g)
      ensures GroupHolds(RulesOf(filters), g, Env(row, fts)) <==> GroupMatches(filters, g, row, fts)
    {
      GroupsMean(filters, g, row, fts);
    }
    forall g ensures Referenced(RulesOf(filters), logics, g) <==> Named(filters, logics, g) {
      assert forall k :: 0 <= k < |logics| ==> (Live(RulesOf(filters), logics[k]) <==> Counts(filters, logics[k]));
    }
  }

  /** `tag_list_condition_to_condition`, with its loops. */
  method TagListCondition(values: seq<string>, cond: StringMatch) returns (r: Option<Cond<Atom>>)
    ensures r == TagCondition(values, cond)
  {
    var names := [];
    for i := 0 to |values|
      invariant names == NonEmpty(values[..i])
    {
      assert values[..i + 1][..i] == values[..i];
      if values[i] != "" { names := names + [values[i]]; }
    }
    assert values[..|values|] == values;
    if names == [] { return None; }
    var has := cond == Is || cond == Contains;
    var parts: seq<Cond<Atom>> := [];
    for i := 0 to |names|
      invariant parts == TagAtoms(names, has)[..i]
    {
      parts := parts + [Cond.Atom(if has then HasTag(names[i]) else LacksTag(names[i]))];
    }
    assert parts == TagAtoms(names, has);
    r := Some(if has then Any(parts) else All(parts));
  }

  /** `wallpaper_query_to_condition`: no condition exactly when nothing is asked, and otherwise one that
      holds of the rows the query is to select. */
  method QueryToCondition(filters: seq<Filter>, logics: seq<Logic>, text: string) returns (r: Option<Cond<Atom>>)
    ensures r.None? <==> Blank(text) && forall i :: 0 <= i < |filters| ==> !Applies(filters[i].pred)
    ensures r.Some? ==> forall row, fts: string -> bool :: Holds(r.value, Env(row, fts)) <==> Selects(filters, logics, text, row, fts)
  {
    var grouped := BuildGroupedCondition(RulesOf(filters), logics);
    var search := SearchCondition(text);
    r := match (grouped, search)
      case (Some(f), Some(s)) => Some(All([f, s]))
      case (Some(f), None) => Some(f)
      case (None, Some(s)) => Some(s)
      case (None, None) => None;
    NothingAsked(filters, text);
    forall row, fts: string -> bool ensures r.Some? ==> (Holds(r.value, Env(row, fts)) <==> Selects(filters, logics, text, row, fts)) {
      QueryMeans(filters, logics, text, grouped, row, fts);
    }
  }

  lemma NothingAsked(filters: seq<Filter>, text: string)
    ensures (forall g :: !Constrains(RulesOf(filters), g)) <==> forall i :: 0 <= i < |filters| ==> !Applies(filters[i].pred)
    ensures SearchCondition(text).None? <==> Blank(text)
  {
    var row := Row(None, None, None, None, None, None, None, None, []);
    SearchMeans(text, row, _ => false);
    forall g ensures Constrains(RulesOf(filters), g) <==> GroupApplies(filters, g) { GroupsMean(filters, g, row, _ => false); }
    if i :| 0 <= i < |filters| && Applies(filters[i].pred) { assert GroupApplies(filters, filters[i].group); }
  }

  lemma QueryMeans(filters: seq<Filter>, logics: seq<Logic>, text: string, grouped: Option<Cond<Atom>>, row: Row, fts: string -> bool)
    requires grouped.None? <==> forall g :: !Constrains(RulesOf(filters), g)
    requires grouped.Some? ==> (Holds(grouped.value, Env(row, fts)) <==> Meaning(RulesOf(filters), logics, Env(row, fts)))
    ensures var search := SearchCondition(text);
            && (grouped.Some? && search.Some? ==>
                  (Holds(All([grouped.value, search.value]), Env(row, fts)) <==> Selects(filters, logics, text, row, fts)))
            && (grouped.Some? && search.None? ==> (Holds(grouped.value, Env(row, fts)) <==> Selects(filters, logics, text, row, fts)))
            && (grouped.None? && search.Some? ==> (Holds(search.value, Env(row, fts)) <==> Selects(filters, logics, text, row, fts)))
  {
    hide Meaning, Constrains;
    var search := SearchCondition(text);
    RulesMean(filters, logics, row, fts);
    SearchMeans(text, row, fts);
    Apart(filters, logics, text, row, fts);
    if grouped.Some? && search.Some? {
      var parts := [grouped.value, search.value];
      AllHolds(parts, Env(row, fts));
      assert parts[0] == grouped.value && parts[1] == search.value;
    }
    if grouped.None? { Unconstrained(filters, logics, row, fts); }
  }

  /** The filters and the search text ask separately. */
  lemma Apart(filters: seq<Filter>, logics: seq<Logic>, text: string, row: Row, fts: string -> bool)
    ensures Selects(filters, logics, text, row, fts) <==>
            Selects(filters, logics, "", row, fts) && (!Blank(text) ==> SearchMatches(text, row, fts))
  {
  }

  lemma Unconstrained(filters: seq<Filter>, logics: seq<Logic>, row: Row, fts: string -> bool)
    requires forall g :: !Constrains(RulesOf(filters), g)
    ensures Selects(filters, logics, "", row, fts)
  {
    forall g ensures !GroupApplies(filters, g) { GroupsMean(filters, g, row, fts); }
  }

  // ---------------------------------------------------------------- validation of a selection

  predicate InUse(filters: seq<Filter>, g: int) { exists i :: 0 <= i < |filters| && filters[i].group == g }

  lemma InUseNext(filters: seq<Filter>, i: nat)
    requires i < |filters|
    ensures forall g :: InUse(filters[..i + 1], g) <==> InUse(filters[..i], g) || g == filters[i].group
  {
    var fs, gs := filters[..i], filters[..i + 1];
    forall g ensures InUse(gs, g) <==> InUse(fs, g) || g == filters[i].group {
      if j :| 0 <= j < |fs| && fs[j].group == g { assert gs[j].group == g; }
      if j :| 0 <= j < |gs| && gs[j].group == g { assert j < i ==> fs[j].group == g; }
      assert gs[i].group == filters[i].group;
    }
  }

  /** `WallpaperSelection::validate`: library ids are positive, groups are not negative, and every logic
      names two groups that some filter is in. */
  method Validate(filters: seq<Filter>, logics: seq<Logic>, hiddenLibraries: seq<int>) returns (ok: bool)
    ensures ok <==>
            && (forall i :: 0 <= i < |hiddenLibraries| ==> hiddenLibraries[i] > 0)
            && (forall i :: 0 <= i < |filters| ==>
                  filters[i].group >= 0 && (filters[i].pred.Library? ==> filters[i].pred.id > 0))
            && (forall k :: 0 <= k < |logics| ==>
                  InUse(filters, logics[k].a) && InUse(filters, logics[k].b))
  {
    for i := 0 to |hiddenLibraries|
      invariant forall j :: 0 <= j < i ==> hiddenLibraries[j] > 0
    {
      if hiddenLibraries[i] <= 0 { return false; }
    }
    var groups: set<int> := {};
    for i := 0 to |filters|
      invariant forall j :: 0 <= j < i ==>
        filters[j].group >= 0 && (filters[j].pred.Library? ==> filters[j].pred.id > 0)
      invariant forall g :: g in groups <==> InUse(filters[..i], g)
    {
      InUseNext(filters, i);
      if filters[i].group < 0 || (filters[i].pred.Library? && filters[i].pred.id <= 0) { return false; }
      groups := groups + {filters[i].group};
    }
    assert filters[..|filters|] == filters;
    for k := 0 to |logics|
      invariant forall j :: 0 <= j < k ==> InUse(filters, logics[j].a) && InUse(filters, logics[j].b)
    {
      if logics[k].a !in groups || logics[k].b !in groups { return false; }
    }
    ok := true;
  }
}
