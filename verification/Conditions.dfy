/** Condition trees under SQL's three-valued logic, and the compilation of grouped filter rules into
    one. The meaning of a rule set is stated over the set of its rules and of its logics. */
module Conditions {
  import opened Common
  import opened Arithmetic

  datatype Tri = True | False | Unknown

  /** A tree over atoms. */
  datatype Cond<A> = Atom(atom: A) | All(parts: seq<Cond<A>>) | Any(parts: seq<Cond<A>>)

  function And3(a: Tri, b: Tri): Tri {
    if a == False || b == False then False else if a == True && b == True then True else Unknown
  }

  function Or3(a: Tri, b: Tri): Tri {
    if a == True || b == True then True else if a == False && b == False then False else Unknown
  }

  function Rank(t: Tri): nat { match t case False => 0 case Unknown => 1 case True => 2 }

  /** Three-valued "and" is the lesser, "or" the greater of two truth values. */
  lemma Kleene(a: Tri, b: Tri)
    ensures Rank(And3(a, b)) == if Rank(a) < Rank(b) then Rank(a) else Rank(b)
    ensures Rank(Or3(a, b)) == if Rank(a) < Rank(b) then Rank(b) else Rank(a)
  {
  }

  /** The truth value SQL computes, given that of the atoms. */
  function Eval<A>(c: Cond<A>, env: A -> Tri): Tri {
    match c
    case Atom(a) => env(a)
    case All(parts) => EvalAll(parts, env)
    case Any(parts) => EvalAny(parts, env)
  }

  function EvalAll<A>(parts: seq<Cond<A>>, env: A -> Tri): Tri {
    if parts == [] then True else And3(Eval(parts[0], env), EvalAll(parts[1..], env))
  }

  function EvalAny<A>(parts: seq<Cond<A>>, env: A -> Tri): Tri {
    if parts == [] then False else Or3(Eval(parts[0], env), EvalAny(parts[1..], env))
  }

  /** A row is selected when its condition is true; unknown does not select it. */
  predicate Holds<A>(c: Cond<A>, env: A -> Tri) { Eval(c, env) == True }

  lemma {:induction false} AllHolds<A>(parts: seq<Cond<A>>, env: A -> Tri)
    ensures Holds(All(parts), env) <==> forall i :: 0 <= i < |parts| ==> Holds(parts[i], env)
  {
    EvalAllTrue(parts, env);
  }

  lemma {:induction false} EvalAllTrue<A>(parts: seq<Cond<A>>, env: A -> Tri)
    ensures EvalAll(parts, env) == True <==> forall i :: 0 <= i < |parts| ==> Holds(parts[i], env)
    decreases |parts|
  {
    if parts != [] {
      EvalAllTrue(parts[1..], env);
      assert forall i :: 0 < i < |parts| ==> parts[i] == parts[1..][i - 1];
    }
  }

  lemma {:induction false} AnyHolds<A>(parts: seq<Cond<A>>, env: A -> Tri)
    ensures Holds(Any(parts), env) <==> exists i :: 0 <= i < |parts| && Holds(parts[i], env)
  {
    EvalAnyTrue(parts, env);
  }

  lemma {:induction false} EvalAnyTrue<A>(parts: seq<Cond<A>>, env: A -> Tri)
    ensures EvalAny(parts, env) == True <==> exists i :: 0 <= i < |parts| && Holds(parts[i], env)
    decreases |parts|
  {
    if parts != [] {
      EvalAnyTrue(parts[1..], env);
      if exists i :: 0 <= i < |parts| && Holds(parts[i], env) {
        var i :| 0 <= i < |parts| && Holds(parts[i], env);
        if i > 0 { assert Holds(parts[1..][i - 1], env); }
      }
      if exists i :: 0 <= i < |parts| - 1 && Holds(parts[1..][i], env) {
        var i :| 0 <= i < |parts| - 1 && Holds(parts[1..][i], env);
        assert Holds(parts[i + 1], env);
      }
    }
  }

  // ---------------------------------------------------------------- rules in groups

  /** A rule: its group, and the condition it compiles to when it constrains anything. */
  datatype Rule<A> = Rule(group: int, cond: Option<Cond<A>>)

  datatype Operator = And | Or
  datatype Logic = Logic(operator: Operator, a: int, b: int)

  predicate Constrains<A>(rules: seq<Rule<A>>, g: int) {
    exists i :: 0 <= i < |rules| && rules[i].group == g && rules[i].cond.Some?
  }

  /** All constraining rules of a group hold. */
  predicate GroupHolds<A>(rules: seq<Rule<A>>, g: int, env: A -> Tri) {
    forall i :: 0 <= i < |rules| && rules[i].group == g && rules[i].cond.Some? ==> Holds(rules[i].cond.value, env)
  }

  /** A logic counts when both its groups constrain. */
  predicate Live<A>(rules: seq<Rule<A>>, l: Logic) { Constrains(rules, l.a) && Constrains(rules, l.b) }

  predicate LogicHolds<A>(rules: seq<Rule<A>>, l: Logic, env: A -> Tri) {
    if l.operator == Or then GroupHolds(rules, l.a, env) || GroupHolds(rules, l.b, env)
    else GroupHolds(rules, l.a, env) && GroupHolds(rules, l.b, env)
  }

  predicate Referenced<A>(rules: seq<Rule<A>>, logics: seq<Logic>, g: int) {
    exists k :: 0 <= k < |logics| && Live(rules, logics[k]) && (logics[k].a == g || logics[k].b == g)
  }

  /** What a rule set asks of a row. */
  ghost predicate Meaning<A>(rules: seq<Rule<A>>, logics: seq<Logic>, env: A -> Tri) {
    && (forall k :: 0 <= k < |logics| && Live(rules, logics[k]) ==> LogicHolds(rules, logics[k], env))
    && (forall g :: Constrains(rules, g) && !Referenced(rules, logics, g) ==> GroupHolds(rules, g, env))
  }

  /** The same rules and the same logics, in whatever order and number. */
  predicate SameMembers<T(==)>(s: seq<T>, t: seq<T>) {
    (forall i :: 0 <= i < |s| ==> s[i] in t) && (forall i :: 0 <= i < |t| ==> t[i] in s)
  }

  lemma ConstrainsSame<A>(rules: seq<Rule<A>>, other: seq<Rule<A>>, g: int)
    requires forall i :: 0 <= i < |rules| ==> rules[i] in other
    ensures Constrains(rules, g) ==> Constrains(other, g)
  {
  }

  lemma GroupSame<A>(rules: seq<Rule<A>>, other: seq<Rule<A>>, g: int, env: A -> Tri)
    requires forall i :: 0 <= i < |rules| ==> rules[i] in other
    ensures GroupHolds(other, g, env) ==> GroupHolds(rules, g, env)
  {
  }

  /** Reordering rules or logics changes nothing, nor does repeating one. */
  lemma OrderIrrelevant<A>(rules: seq<Rule<A>>, other: seq<Rule<A>>, logics: seq<Logic>, more: seq<Logic>, env: A -> Tri)
    requires SameMembers(rules, other) && SameMembers(logics, more)
    ensures Meaning(rules, logics, env) <==> Meaning(other, more, env)
    ensures (exists g :: Constrains(rules, g)) <==> (exists g :: Constrains(other, g))
  {
    forall g
      ensures Constrains(rules, g) <==> Constrains(other, g)
      ensures GroupHolds(rules, g, env) <==> GroupHolds(other, g, env)
    {
      ConstrainsSame(rules, other, g);
      ConstrainsSame(other, rules, g);
      GroupSame(rules, other, g, env);
      GroupSame(other, rules, g, env);
    }
    if Meaning(rules, logics, env) { MeaningWithin(rules, other, logics, more, env); }
    if Meaning(other, more, env) { MeaningWithin(other, rules, more, logics, env); }
  }

  lemma MeaningWithin<A>(rules: seq<Rule<A>>, other: seq<Rule<A>>, logics: seq<Logic>, more: seq<Logic>, env: A -> Tri)
    requires SameMembers(logics, more) && Meaning(rules, logics, env)
    requires forall g :: Constrains(rules, g) <==> Constrains(other, g)
    requires forall g :: GroupHolds(rules, g, env) <==> GroupHolds(other, g, env)
    ensures Meaning(other, more, env)
  {
    forall k | 0 <= k < |more| && Live(other, more[k]) ensures LogicHolds(other, more[k], env) {
      var i :| 0 <= i < |logics| && logics[i] == more[k];
      assert Live(rules, logics[i]);
    }
    forall g ensures Referenced(rules, logics, g) ==> Referenced(other, more, g) {
      ReferencedWithin(rules, other, logics, more, g);
    }
  }

  lemma ReferencedWithin<A>(rules: seq<Rule<A>>, other: seq<Rule<A>>, logics: seq<Logic>, more: seq<Logic>, g: int)
    requires forall k :: 0 <= k < |logics| ==> logics[k] in more
    requires forall g :: Constrains(rules, g) <==> Constrains(other, g)
    ensures Referenced(rules, logics, g) ==> Referenced(other, more, g)
  {
    if Referenced(rules, logics, g) {
      var k :| 0 <= k < |logics| && Live(rules, logics[k]) && (logics[k].a == g || logics[k].b == g);
      assert logics[k] in more;
      var j :| 0 <= j < |more| && more[j] == logics[k];
      assert Live(other, more[j]);
    }
  }

  // ---------------------------------------------------------------- the compiler

  /** The conditions of a group, in rule order. */
  function Bucket<A>(rules: seq<Rule<A>>, g: int): seq<Cond<A>> {
    if rules == [] then []
    else
      var last := rules[|rules| - 1];
      Bucket(rules[..|rules| - 1], g) + (if last.group == g && last.cond.Some? then [last.cond.value] else [])
  }

  function GroupCond<A>(rules: seq<Rule<A>>, g: int): Cond<A> { All(Bucket(rules, g)) }

  function Pair<A>(rules: seq<Rule<A>>, l: Logic): Cond<A> {
    var parts := [GroupCond(rules, l.a), GroupCond(rules, l.b)];
    if l.operator == Or then Any(parts) else All(parts)
  }

  function Pairs<A>(rules: seq<Rule<A>>, logics: seq<Logic>): seq<Cond<A>> {
    if logics == [] then []
    else
      var last := logics[|logics| - 1];
      Pairs(rules, logics[..|logics| - 1]) + (if Live(rules, last) then [Pair(rules, last)] else [])
  }

  function Groups<A>(rules: seq<Rule<A>>, gs: seq<int>): (cs: seq<Cond<A>>)
    ensures |cs| == |gs| && forall i :: 0 <= i < |gs| ==> cs[i] == GroupCond(rules, gs[i])
  {
    seq(|gs|, i requires 0 <= i < |gs| => GroupCond(rules, gs[i]))
  }

  lemma {:induction false} BucketMembers<A>(rules: seq<Rule<A>>, g: int, env: A -> Tri)
    ensures GroupHolds(rules, g, env) <==> forall i :: 0 <= i < |Bucket(rules, g)| ==> Holds(Bucket(rules, g)[i], env)
    ensures Constrains(rules, g) <==> Bucket(rules, g) != []
    decreases |rules|
  {
    if rules != [] {
      var n := |rules| - 1;
      BucketMembers(rules[..n], g, env);
      var b, last := Bucket(rules[..n], g), rules[n];
      assert rules == rules[..n] + [last];
      GroupHoldsNext(rules[..n], last, g, env);
      if last.group == g && last.cond.Some? {
        HoldNext(b, last.cond.value, env);
        assert Bucket(rules, g) == b + [last.cond.value];
      } else {
        assert Bucket(rules, g) == b;
      }
    }
  }

  lemma HoldNext<A>(cs: seq<Cond<A>>, c: Cond<A>, env: A -> Tri)
    ensures (forall i :: 0 <= i < |cs + [c]| ==> Holds((cs + [c])[i], env)) <==>
            (forall i :: 0 <= i < |cs| ==> Holds(cs[i], env)) && Holds(c, env)
  {
    var all := cs + [c];
    assert all[|cs|] == c && forall i :: 0 <= i < |cs| ==> all[i] == cs[i];
  }

  lemma GroupHoldsNext<A>(rules: seq<Rule<A>>, last: Rule<A>, g: int, env: A -> Tri)
    ensures var applies := last.group == g && last.cond.Some?;
            && (GroupHolds(rules + [last], g, env) <==>
                GroupHolds(rules, g, env) && (applies ==> Holds(last.cond.value, env)))
            && (Constrains(rules + [last], g) <==> Constrains(rules, g) || applies)
  {
    var all := rules + [last];
    assert all[|rules|] == last && forall i :: 0 <= i < |rules| ==> all[i] == rules[i];
  }

  lemma GroupCondHolds<A>(rules: seq<Rule<A>>, g: int, env: A -> Tri)
    ensures Holds(GroupCond(rules, g), env) <==> GroupHolds(rules, g, env)
  {
    BucketMembers(rules, g, env);
    AllHolds(Bucket(rules, g), env);
  }

  lemma PairHolds<A>(rules: seq<Rule<A>>, l: Logic, env: A -> Tri)
    ensures Holds(Pair(rules, l), env) <==> LogicHolds(rules, l, env)
  {
    var parts := [GroupCond(rules, l.a), GroupCond(rules, l.b)];
    GroupCondHolds(rules, l.a, env);
    GroupCondHolds(rules, l.b, env);
    AllHolds(parts, env);
    AnyHolds(parts, env);
    assert parts[0] == GroupCond(rules, l.a) && parts[1] == GroupCond(rules, l.b);
  }

  lemma {:induction false} PairsHold<A>(rules: seq<Rule<A>>, logics: seq<Logic>, env: A -> Tri)
    ensures (forall i :: 0 <= i < |Pairs(rules, logics)| ==> Holds(Pairs(rules, logics)[i], env)) <==>
            (forall k :: 0 <= k < |logics| && Live(rules, logics[k]) ==> LogicHolds(rules, logics[k], env))
    decreases |logics|
  {
    if logics != [] {
      var n := |logics| - 1;
      PairsHold(rules, logics[..n], env);
      PairHolds(rules, logics[n], env);
      var ps := Pairs(rules, logics[..n]);
      assert forall i :: 0 <= i < n ==> logics[..n][i] == logics[i];
      assert forall i :: 0 <= i < |ps| ==> Pairs(rules, logics)[i] == ps[i];
      if Live(rules, logics[n]) { assert Pairs(rules, logics)[|ps|] == Pair(rules, logics[n]); }
    }
  }

  /** The tree means what the rules mean, when `rest` lists the groups left over. */
  lemma CompiledMeaning<A>(rules: seq<Rule<A>>, logics: seq<Logic>, rest: seq<int>, env: A -> Tri)
    requires forall g :: g in rest <==> Constrains(rules, g) && !Referenced(rules, logics, g)
    ensures Holds(All(Pairs(rules, logics) + Groups(rules, rest)), env) <==> Meaning(rules, logics, env)
  {
    hide Holds, Pairs, GroupCond, Constrains, Referenced, Live, LogicHolds, GroupHolds;
    var ps, gs := Pairs(rules, logics), Groups(rules, rest);
    AllHolds(ps + gs, env);
    PairsHold(rules, logics, env);
    GroupsHold(rules, rest, env);
    BothHold(ps, gs, env);
  }

  lemma GroupsHold<A>(rules: seq<Rule<A>>, rest: seq<int>, env: A -> Tri)
    ensures (forall i :: 0 <= i < |rest| ==> Holds(Groups(rules, rest)[i], env)) <==>
            (forall g :: g in rest ==> GroupHolds(rules, g, env))
  {
    hide Holds, GroupCond, GroupHolds;
    forall g ensures Holds(GroupCond(rules, g), env) <==> GroupHolds(rules, g, env) { GroupCondHolds(rules, g, env); }
    forall i | 0 <= i < |rest| ensures rest[i] in rest && (Holds(Groups(rules, rest)[i], env) <==> GroupHolds(rules, rest[i], env)) {
    }
  }

  lemma BothHold<A>(ps: seq<Cond<A>>, gs: seq<Cond<A>>, env: A -> Tri)
    ensures (forall i :: 0 <= i < |ps + gs| ==> Holds((ps + gs)[i], env)) <==>
            (forall i :: 0 <= i < |ps| ==> Holds(ps[i], env)) && (forall i :: 0 <= i < |gs| ==> Holds(gs[i], env))
  {
    hide Holds;
    assert forall i :: 0 <= i < |ps| ==> (ps + gs)[i] == ps[i];
    assert forall i :: 0 <= i < |gs| ==> (ps + gs)[|ps| + i] == gs[i];
  }

  /** `build_grouped_condition`. */
  method BuildGroupedCondition<A(!new)>(rules: seq<Rule<A>>, logics: seq<Logic>) returns (r: Option<Cond<A>>)
    ensures r.None? <==> forall g :: !Constrains(rules, g)
    ensures r.Some? ==> forall env: A -> Tri :: Holds(r.value, env) <==> Meaning(rules, logics, env)
  {
    hide Meaning, Holds, Pairs, Constrains, Referenced;
    var buckets := FillBuckets(rules);
    assert (forall g :: g !in buckets) ==> buckets == map[];
    if buckets == map[] { return None; }
    var pairs, referenced := PairUp(rules, logics, buckets);
    var outer := pairs;
    var keys := buckets.Keys;
    ghost var rest: seq<int> := [];
    assert Groups(rules, rest) == [];
    while keys != {}
      invariant keys <= buckets.Keys
      invariant outer == pairs + Groups(rules, rest)
      invariant forall g :: g in rest <==> g in buckets && g !in keys && g !in referenced
      decreases |keys|
    {
      ghost var least := LeastOf(keys);
      var group :| group in keys && forall x :: x in keys ==> group <= x;
      keys := keys - {group};
      if group !in referenced {
        assert Groups(rules, rest + [group]) == Groups(rules, rest) + [GroupCond(rules, group)];
        outer := outer + [All(buckets[group])];
        rest := rest + [group];
      }
    }
    r := Some(All(outer));
    forall env: A -> Tri ensures Holds(r.value, env) <==> Meaning(rules, logics, env) {
      CompiledMeaning(rules, logics, rest, env);
    }
  }

  method FillBuckets<A>(rules: seq<Rule<A>>) returns (buckets: map<int, seq<Cond<A>>>)
    ensures forall g :: g in buckets <==> Constrains(rules, g)
    ensures forall g :: g in buckets ==> buckets[g] == Bucket(rules, g)
  {
    buckets := map[];
    for i := 0 to |rules|
      invariant forall g :: g in buckets <==> Bucket(rules[..i], g) != []
      invariant forall g :: g in buckets ==> buckets[g] == Bucket(rules[..i], g)
    {
      assert rules[..i + 1][..i] == rules[..i];
      var f := rules[i];
      if f.cond.Some? {
        var before := if f.group in buckets then buckets[f.group] else [];
        buckets := buckets[f.group := before + [f.cond.value]];
      }
    }
    assert rules[..|rules|] == rules;
    forall g ensures Constrains(rules, g) <==> Bucket(rules, g) != [] { BucketMembers(rules, g, _ => True); }
  }

  method PairUp<A>(rules: seq<Rule<A>>, logics: seq<Logic>, buckets: map<int, seq<Cond<A>>>)
    returns (pairs: seq<Cond<A>>, referenced: set<int>)
    requires forall g :: g in buckets <==> Constrains(rules, g)
    requires forall g :: g in buckets ==> buckets[g] == Bucket(rules, g)
    ensures pairs == Pairs(rules, logics)
    ensures forall g :: g in referenced <==> Referenced(rules, logics, g)
  {
    pairs, referenced := [], {};
    for k := 0 to |logics|
      invariant pairs == Pairs(rules, logics[..k])
      invariant forall g :: g in referenced <==> Referenced(rules, logics[..k], g)
    {
      assert logics[..k + 1][..k] == logics[..k];
      var logic := logics[k];
      forall g
        ensures Referenced(rules, logics[..k + 1], g) <==>
                Referenced(rules, logics[..k], g) || (Live(rules, logic) && (logic.a == g || logic.b == g))
      {
        ReferencedNext(rules, logics, k, g);
      }
      if logic.a !in buckets || logic.b !in buckets { continue; }
      var parts := [All(buckets[logic.a]), All(buckets[logic.b])];
      pairs := pairs + [if logic.operator == Or then Any(parts) else All(parts)];
      referenced := referenced + {logic.a, logic.b};
    }
    assert logics[..|logics|] == logics;
  }

  lemma ReferencedNext<A>(rules: seq<Rule<A>>, logics: seq<Logic>, k: nat, g: int)
    requires k < |logics|
    ensures Referenced(rules, logics[..k + 1], g) <==>
            Referenced(rules, logics[..k], g) || (Live(rules, logics[k]) && (logics[k].a == g || logics[k].b == g))
  {
    var more := logics[..k + 1];
    assert more[k] == logics[k] && forall i :: 0 <= i < k ==> more[i] == logics[..k][i];
  }
}
