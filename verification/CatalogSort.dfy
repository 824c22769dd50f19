/** Sorting the catalogue by several rules: one stable sort per rule, last rule first, which amounts
    to a single stable sort by the rules taken together. Lower-casing of names is a parameter. */
module CatalogSort {
  import opened Common
  import opened StableSort

  datatype Item = Item(name: string, wpType: string, size: Option<int>, modifiedAt: Option<int>, createAt: int)

  datatype SortKey = Name | WallpaperType | Size | LastModified
  datatype SortRule = SortRule(key: SortKey, descending: bool)

  /** Byte order of two strings, as negative, zero or positive. */
  function CompareText(a: string, b: string): int {
    if a == [] then (if b == [] then 0 else -1)
    else if b == [] then 1
    else if a[0] != b[0] then (if a[0] < b[0] then -1 else 1)
    else CompareText(a[1..], b[1..])
  }

  function CompareNumbers(a: int, b: int): int { if a < b then -1 else if a > b then 1 else 0 }

  function SizeKey(e: Item): int { if e.size.Some? then e.size.value else 0 }
  function ModifiedKey(e: Item): int { if e.modifiedAt.Some? then e.modifiedAt.value else e.createAt }

  function CompareKey(lower: string -> string, key: SortKey, a: Item, b: Item): int {
    match key
    case Name => CompareText(lower(a.name), lower(b.name))
    case WallpaperType => CompareText(a.wpType, b.wpType)
    case Size => CompareNumbers(SizeKey(a), SizeKey(b))
    case LastModified => CompareNumbers(ModifiedKey(a), ModifiedKey(b))
  }

  /** The comparison of one rule. */
  function ByRule(lower: string -> string, rule: SortRule): (Item, Item) -> int {
    (a: Item, b: Item) => if rule.descending then -CompareKey(lower, rule.key, a, b) else CompareKey(lower, rule.key, a, b)
  }

  /** The rules together: the first one that tells two entries apart decides. */
  function Compare(lower: string -> string, rules: seq<SortRule>, a: Item, b: Item): int {
    if rules == [] then 0
    else
      var c := ByRule(lower, rules[0])(a, b);
      if c != 0 then c else Compare(lower, rules[1..], a, b)
  }

  function ByRules(lower: string -> string, rules: seq<SortRule>): (Item, Item) -> int {
    (a: Item, b: Item) => Compare(lower, rules, a, b)
  }

  // ---------------------------------------------------------------- what is asked of the order

  /** `a` comes before `b` in the order of characters: where they first differ, or because it ends there. */
  predicate TextBefore(a: string, b: string) {
    exists n: nat :: n <= |a| && n < |b| && a[..n] == b[..n] && (n == |a| || a[n] < b[n])
  }

  /** The entry's size, 0 when it is not known, and the time it was modified, or else created. */
  predicate HasSize(e: Item, n: int) { e.size == Some(n) || (e.size == None && n == 0) }
  predicate HasTime(e: Item, n: int) { e.modifiedAt == Some(n) || (e.modifiedAt == None && n == e.createAt) }

  ghost predicate Lower(lower: string -> string, key: SortKey, a: Item, b: Item) {
    match key
    case Name => TextBefore(lower(a.name), lower(b.name))
    case WallpaperType => TextBefore(a.wpType, b.wpType)
    case Size => forall m, n :: HasSize(a, m) && HasSize(b, n) ==> m < n
    case LastModified => forall m, n :: HasTime(a, m) && HasTime(b, n) ==> m < n
  }

  ghost predicate Alike(lower: string -> string, key: SortKey, a: Item, b: Item) {
    match key
    case Name => lower(a.name) == lower(b.name)
    case WallpaperType => a.wpType == b.wpType
    case Size => forall m, n :: HasSize(a, m) && HasSize(b, n) ==> m == n
    case LastModified => forall m, n :: HasTime(a, m) && HasTime(b, n) ==> m == n
  }

  /** `a` may stand before `b`: the first rule under which they differ says so, an ascending one because `a` is
      lower, a descending one because `b` is. */
  ghost predicate MayPrecede(lower: string -> string, rules: seq<SortRule>, a: Item, b: Item) {
    if rules == [] then true
    else if Alike(lower, rules[0].key, a, b) then MayPrecede(lower, rules[1..], a, b)
    else if rules[0].descending then Lower(lower, rules[0].key, b, a)
    else Lower(lower, rules[0].key, a, b)
  }

  lemma BehindFirst(a: string, b: string)
    requires a != [] && b != [] && a[0] == b[0]
    ensures TextBefore(a, b) <==> TextBefore(a[1..], b[1..])
  {
    if n: nat :| n <= |a| && n < |b| && a[..n] == b[..n] && (n == |a| || a[n] < b[n]) {
      assert n > 0;
      assert a[1..][..n - 1] == a[..n][1..] && b[1..][..n - 1] == b[..n][1..];
      assert TextBefore(a[1..], b[1..]);
    }
    if n: nat :| n <= |a[1..]| && n < |b[1..]| && a[1..][..n] == b[1..][..n] && (n == |a[1..]| || a[1..][n] < b[1..][n]) {
      assert a[..n + 1] == [a[0]] + a[1..][..n] && b[..n + 1] == [b[0]] + b[1..][..n];
      assert TextBefore(a, b);
    }
  }

  lemma {:induction false} TextMeans(a: string, b: string)
    ensures CompareText(a, b) < 0 <==> TextBefore(a, b)
    ensures CompareText(a, b) == 0 <==> a == b
  {
    if a != [] && b != [] && a[0] == b[0] {
      TextMeans(a[1..], b[1..]);
      BehindFirst(a, b);
      assert a == [a[0]] + a[1..] && b == [b[0]] + b[1..];
      hide TextBefore;
    } else if b != [] && (a == [] || a[0] < b[0]) {
      assert a[..0] == b[..0];
    } else if a != [] && b != [] {
      assert forall n: nat :: 0 < n <= |a| && n <= |b| ==> a[..n][0] != b[..n][0];
    }
  }

  lemma KeyMeans(lower: string -> string, key: SortKey, a: Item, b: Item)
    ensures CompareKey(lower, key, a, b) < 0 <==> Lower(lower, key, a, b)
    ensures CompareKey(lower, key, a, b) == 0 <==> Alike(lower, key, a, b)
  {
    hide TextBefore;
    match key
    case Name => TextMeans(lower(a.name), lower(b.name));
    case WallpaperType => TextMeans(a.wpType, b.wpType);
    case Size => assert HasSize(a, SizeKey(a)) && HasSize(b, SizeKey(b));
    case LastModified => assert HasTime(a, ModifiedKey(a)) && HasTime(b, ModifiedKey(b));
  }

  lemma {:induction false} RulesMean(lower: string -> string, rules: seq<SortRule>, a: Item, b: Item)
    ensures Compare(lower, rules, a, b) <= 0 <==> MayPrecede(lower, rules, a, b)
  {
    hide Lower, Alike, CompareKey;
    if rules != [] {
      KeyMeans(lower, rules[0].key, a, b);
      KeyMeans(lower, rules[0].key, b, a);
      KeyOpposite(lower, rules[0].key, a, b);
      RulesMean(lower, rules[1..], a, b);
    }
  }

  // ---------------------------------------------------------------- they are comparisons

  lemma {:induction false} TextOpposite(a: string, b: string)
    ensures CompareText(a, b) == -CompareText(b, a)
  {
    if a != [] && b != [] && a[0] == b[0] { TextOpposite(a[1..], b[1..]); }
  }

  lemma {:induction false} TextTransitive(a: string, b: string, c: string)
    requires CompareText(a, b) <= 0 && CompareText(b, c) <= 0
    ensures CompareText(a, c) <= 0
  {
    if a != [] && b != [] && c != [] && a[0] == b[0] == c[0] { TextTransitive(a[1..], b[1..], c[1..]); }
  }

  lemma KeyOpposite(lower: string -> string, key: SortKey, a: Item, b: Item)
    ensures CompareKey(lower, key, a, b) == -CompareKey(lower, key, b, a)
  {
    match key
    case Name => TextOpposite(lower(a.name), lower(b.name));
    case WallpaperType => TextOpposite(a.wpType, b.wpType);
    case _ =>
  }

  lemma KeyTransitive(lower: string -> string, key: SortKey, a: Item, b: Item, c: Item)
    requires CompareKey(lower, key, a, b) <= 0 && CompareKey(lower, key, b, c) <= 0
    ensures CompareKey(lower, key, a, c) <= 0
  {
    match key
    case Name => TextTransitive(lower(a.name), lower(b.name), lower(c.name));
    case WallpaperType => TextTransitive(a.wpType, b.wpType, c.wpType);
    case _ =>
  }

  lemma RuleIsComparison(lower: string -> string, rule: SortRule)
    ensures Comparison(ByRule(lower, rule))
  {
    var cmp := ByRule(lower, rule);
    forall x, y ensures cmp(x, y) < 0 <==> cmp(y, x) > 0 { KeyOpposite(lower, rule.key, x, y); }
    forall x, y, z | cmp(x, y) <= 0 && cmp(y, z) <= 0 ensures cmp(x, z) <= 0 {
      if rule.descending {
        KeyOpposite(lower, rule.key, x, y);
        KeyOpposite(lower, rule.key, y, z);
        KeyOpposite(lower, rule.key, x, z);
        KeyTransitive(lower, rule.key, z, y, x);
      } else {
        KeyTransitive(lower, rule.key, x, y, z);
      }
    }
  }

  lemma {:induction false} RulesAreComparison(lower: string -> string, rules: seq<SortRule>)
    ensures Comparison(ByRules(lower, rules))
  {
    if rules != [] {
      RuleIsComparison(lower, rules[0]);
      RulesAreComparison(lower, rules[1..]);
      var first, rest, cmp := ByRule(lower, rules[0]), ByRules(lower, rules[1..]), ByRules(lower, rules);
      forall x, y ensures cmp(x, y) == if first(x, y) != 0 then first(x, y) else rest(x, y) {
      }
      LexicographicIsComparison(first, rest, cmp);
    }
  }

  lemma LexicographicIsComparison<T(!new)>(first: (T, T) -> int, rest: (T, T) -> int, cmp: (T, T) -> int)
    requires Comparison(first) && Comparison(rest)
    requires forall x, y :: cmp(x, y) == if first(x, y) != 0 then first(x, y) else rest(x, y)
    ensures Comparison(cmp)
  {
    forall x, y, z | cmp(x, y) <= 0 && cmp(y, z) <= 0 ensures cmp(x, z) <= 0 {
      assert first(x, y) <= 0 && first(y, z) <= 0;
      Through(first, x, y, z);
    }
  }

  // ---------------------------------------------------------------- repeated sorting

  /** What the loop over the rules computes: the first rule is applied last. */
  function Repeated(lower: string -> string, rules: seq<SortRule>, s: seq<Item>): (t: seq<Item>)
    ensures |t| == |s|
  {
    if rules == [] then s else Sorted(ByRule(lower, rules[0]), Repeated(lower, rules[1..], s))
  }

  lemma UnsortedIsStable(cmp: (Item, Item) -> int, s: seq<Item>)
    requires forall x, y :: cmp(x, y) == 0
    ensures StableSortOf(cmp, s, s)
  {
    IdentityPositions(s);
    assert InOrder(cmp, s, Identity(|s|));
  }

  /** A stable sort by `first` of a stable sort by `rest` is one by both, `first` deciding. */
  lemma SortOverSort<T(!new)>(first: (T, T) -> int, rest: (T, T) -> int, cmp: (T, T) -> int, s: seq<T>, t: seq<T>, u: seq<T>)
    requires forall x, y :: cmp(x, y) == if first(x, y) != 0 then first(x, y) else rest(x, y)
    requires StableSortOf(rest, s, t) && StableSortOf(first, t, u)
    ensures StableSortOf(cmp, s, u)
  {
    var p: seq<nat> :| Positions(p, |s|) && InOrder(rest, s, p) && |p| == |s| && t == At(s, p);
    var q: seq<nat> :| Positions(q, |t|) && InOrder(first, t, q) && |q| == |t| && u == At(t, q);
    var r: seq<nat> := At(p, q);
    PositionsCompose(p, q, |s|);
    forall i, j | 0 <= i < j < |r| ensures Before(cmp, s, r[i], r[j]) {
      ComposedOrder(first, rest, cmp, s, p, q, i, j);
    }
    assert u == At(s, r);
  }

  lemma ComposedOrder<T(!new)>(first: (T, T) -> int, rest: (T, T) -> int, cmp: (T, T) -> int,
                               s: seq<T>, p: seq<nat>, q: seq<nat>, i: nat, j: nat)
    requires forall x, y :: cmp(x, y) == if first(x, y) != 0 then first(x, y) else rest(x, y)
    requires (forall k :: 0 <= k < |p| ==> p[k] < |s|) && (forall k :: 0 <= k < |q| ==> q[k] < |p|)
    requires InOrder(rest, s, p) && InOrder(first, At(s, p), q) && i < j < |q|
    ensures Before(cmp, s, p[q[i]], p[q[j]])
  {
    assert Before(first, At(s, p), q[i], q[j]);
    if first(At(s, p)[q[i]], At(s, p)[q[j]]) == 0 { assert Before(rest, s, p[q[i]], p[q[j]]); }
  }

  lemma {:induction false} RepeatedIsStable(lower: string -> string, rules: seq<SortRule>, s: seq<Item>)
    ensures StableSortOf(ByRules(lower, rules), s, Repeated(lower, rules, s))
  {
    if rules == [] {
      UnsortedIsStable(ByRules(lower, rules), s);
    } else {
      RepeatedIsStable(lower, rules[1..], s);
      RuleIsComparison(lower, rules[0]);
      SortedIsStable(ByRule(lower, rules[0]), Repeated(lower, rules[1..], s));
      SortOverSort(ByRule(lower, rules[0]), ByRules(lower, rules[1..]), ByRules(lower, rules), s,
                   Repeated(lower, rules[1..], s), Repeated(lower, rules, s));
    }
  }

  /** Sorting by each rule from last to first is the one stable sort by all of them. */
  lemma RepeatedIsSingle(lower: string -> string, rules: seq<SortRule>, s: seq<Item>)
    ensures Repeated(lower, rules, s) == Sorted(ByRules(lower, rules), s)
  {
    RepeatedIsStable(lower, rules, s);
    RulesAreComparison(lower, rules);
    SortedIsStable(ByRules(lower, rules), s);
    StableSortUnique(ByRules(lower, rules), s, Repeated(lower, rules, s), Sorted(ByRules(lower, rules), s));
  }

  /** The entries no rule tells apart from a given one come in the order they had, whatever the directions of
      the rules and whatever stands between them. */
  lemma TiesKeepTheirOrder(lower: string -> string, rules: seq<SortRule>, s: seq<Item>, x: Item)
    ensures Ties(ByRules(lower, rules), x, Repeated(lower, rules, s)) == Ties(ByRules(lower, rules), x, s)
  {
    RepeatedIsStable(lower, rules, s);
    RulesAreComparison(lower, rules);
    StableKeepsTies(ByRules(lower, rules), x, s, Repeated(lower, rules, s));
  }

  /** `sort_entries`, in place; the library's stable sort is `Sorted`. */
  method SortEntries(entries: array<Item>, sorts: seq<SortRule>, lower: string -> string)
    modifies entries
    ensures entries[..] == Sorted(ByRules(lower, sorts), old(entries[..]))
    ensures StableSortOf(ByRules(lower, sorts), old(entries[..]), entries[..])
    ensures multiset(entries[..]) == multiset(old(entries[..]))
    ensures forall i, j :: 0 <= i < j < entries.Length ==> MayPrecede(lower, sorts, entries[i], entries[j])
  {
    var k := |sorts|;
    while k > 0
      invariant 0 <= k <= |sorts|
      invariant entries[..] == Repeated(lower, sorts[k..], old(entries[..]))
    {
      k := k - 1;
      assert sorts[k..][1..] == sorts[k + 1..];
      var sorted := Sorted(ByRule(lower, sorts[k]), entries[..]);
      forall i | 0 <= i < entries.Length { entries[i] := sorted[i]; }
      assert entries[..] == sorted;
    }
    assert sorts[0..] == sorts;
    RepeatedIsSingle(lower, sorts, old(entries[..]));
    RepeatedIsStable(lower, sorts, old(entries[..]));
    SortedKeepsAll(ByRules(lower, sorts), old(entries[..]));
    InAskedOrder(lower, sorts, old(entries[..]), entries[..]);
  }

  /** What the stable sort by the rules promises, in terms of the entries alone. */
  lemma InAskedOrder(lower: string -> string, rules: seq<SortRule>, s: seq<Item>, t: seq<Item>)
    requires StableSortOf(ByRules(lower, rules), s, t)
    ensures forall i, j :: 0 <= i < j < |t| ==> MayPrecede(lower, rules, t[i], t[j])
  {
    hide MayPrecede, StableSortOf, Compare;
    StableSortOrdered(ByRules(lower, rules), s, t);
    forall i, j | 0 <= i < j < |t| ensures MayPrecede(lower, rules, t[i], t[j]) {
      assert ByRules(lower, rules)(t[i], t[j]) <= 0;
      RulesMean(lower, rules, t[i], t[j]);
    }
  }

  /** Under a first rule the keys do not decrease along the list, or do not increase when it is descending. */
  lemma FirstRuleDecides(lower: string -> string, rules: seq<SortRule>, s: seq<Item>, i: nat, j: nat)
    requires i < j < |s| && rules != []
    ensures
      var t, key := Repeated(lower, rules, s), rules[0].key;
      if rules[0].descending then !Lower(lower, key, t[i], t[j]) else !Lower(lower, key, t[j], t[i])
  {
    hide Lower, Alike, CompareKey, StableSortOf;
    var t, key := Repeated(lower, rules, s), rules[0].key;
    RepeatedIsStable(lower, rules, s);
    InAskedOrder(lower, rules, s, t);
    assert MayPrecede(lower, rules, t[i], t[j]);
    KeyMeans(lower, key, t[i], t[j]);
    KeyMeans(lower, key, t[j], t[i]);
    KeyOpposite(lower, key, t[i], t[j]);
  }
}
