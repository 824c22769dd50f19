/** Stable sorting by a comparison, and why its result is the only one possible. The order of the
    result is kept as a list of positions, so that stability can be said of equal elements. */
module StableSort {
  /** A comparison as `Ordering` is: negative, zero or positive, total and transitive. */
  ghost predicate Comparison<T(!new)>(cmp: (T, T) -> int) {
    && (forall x, y :: cmp(x, y) < 0 <==> cmp(y, x) > 0)
    && (forall x, y, z :: cmp(x, y) <= 0 && cmp(y, z) <= 0 ==> cmp(x, z) <= 0)
  }

  /** Position `i` comes before position `j` in a stable sort of `s`. */
  predicate Before<T>(cmp: (T, T) -> int, s: seq<T>, i: nat, j: nat)
    requires i < |s| && j < |s|
  {
    cmp(s[i], s[j]) < 0 || (cmp(s[i], s[j]) == 0 && i < j)
  }

  predicate Positions(p: seq<nat>, n: nat) {
    (forall i :: 0 <= i < |p| ==> p[i] < n) && forall v: nat :: v < n ==> v in p
  }

  predicate InOrder<T>(cmp: (T, T) -> int, s: seq<T>, p: seq<nat>)
    requires forall i :: 0 <= i < |p| ==> p[i] < |s|
  {
    forall i, j :: 0 <= i < j < |p| ==> Before(cmp, s, p[i], p[j])
  }

  function At<T>(s: seq<T>, p: seq<nat>): (t: seq<T>)
    requires forall i :: 0 <= i < |p| ==> p[i] < |s|
    ensures |t| == |p| && forall i :: 0 <= i < |p| ==> t[i] == s[p[i]]
  {
    seq(|p|, i requires 0 <= i < |p| => s[p[i]])
  }

  /** `t` is `s` with its elements in the order of `cmp`, equal ones in the order they had. */
  ghost predicate StableSortOf<T>(cmp: (T, T) -> int, s: seq<T>, t: seq<T>) {
    exists p: seq<nat> :: Positions(p, |s|) && InOrder(cmp, s, p) && |p| == |s| && t == At(s, p)
  }

  // ---------------------------------------------------------------- there is one

  /** The positions of a stable sort, by insertion. */
  function Order<T>(cmp: (T, T) -> int, s: seq<T>, n: nat): (p: seq<nat>)
    requires n <= |s|
    ensures |p| == n && forall i :: 0 <= i < n ==> p[i] < n
  {
    if n == 0 then [] else Insert(cmp, s, Order(cmp, s, n - 1), n - 1)
  }

  /** Behind everything that does not come after it. */
  function Insert<T>(cmp: (T, T) -> int, s: seq<T>, p: seq<nat>, x: nat): (q: seq<nat>)
    requires x < |s| && forall i :: 0 <= i < |p| ==> p[i] < x
    ensures |q| == |p| + 1 && forall i :: 0 <= i < |q| ==> q[i] <= x
  {
    if p == [] || cmp(s[p[|p| - 1]], s[x]) <= 0 then p + [x]
    else Insert(cmp, s, p[..|p| - 1], x) + [p[|p| - 1]]
  }

  function Sorted<T>(cmp: (T, T) -> int, s: seq<T>): (t: seq<T>)
    ensures |t| == |s|
  {
    At(s, Order(cmp, s, |s|))
  }

  lemma {:induction false} InsertMembers<T>(cmp: (T, T) -> int, s: seq<T>, p: seq<nat>, x: nat)
    requires x < |s| && forall i :: 0 <= i < |p| ==> p[i] < x
    ensures forall v: nat :: v in Insert(cmp, s, p, x) <==> v in p || v == x
    decreases |p|
  {
    if p != [] {
      var k := |p| - 1;
      InsertMembers(cmp, s, p[..k], x);
      assert p == p[..k] + [p[k]];
    }
  }

  lemma {:induction false} InsertOrdered<T(!new)>(cmp: (T, T) -> int, s: seq<T>, p: seq<nat>, x: nat)
    requires Comparison(cmp) && x < |s| && (forall i :: 0 <= i < |p| ==> p[i] < x) && InOrder(cmp, s, p)
    ensures InOrder(cmp, s, Insert(cmp, s, p, x))
    decreases |p|
  {
    if p != [] {
      var k := |p| - 1;
      var q := Insert(cmp, s, p[..k], x);
      if cmp(s[p[k]], s[x]) <= 0 {
        forall i | 0 <= i <= k ensures Before(cmp, s, p[i], x) {
          if i < k {
            assert Before(cmp, s, p[i], p[k]);
            Through(cmp, s[p[i]], s[p[k]], s[x]);
          }
        }
      } else {
        InsertOrdered(cmp, s, p[..k], x);
        forall i | 0 <= i < |q| ensures Before(cmp, s, q[i], p[k]) {
          InsertMembers(cmp, s, p[..k], x);
          assert q[i] in q;
          if q[i] != x {
            var j :| 0 <= j < k && p[..k][j] == q[i];
            assert Before(cmp, s, p[j], p[k]);
          }
        }
      }
    }
  }

  lemma Through<T(!new)>(cmp: (T, T) -> int, a: T, b: T, c: T)
    requires Comparison(cmp) && cmp(a, b) <= 0 && cmp(b, c) <= 0
    ensures cmp(a, c) <= 0 && (cmp(a, b) < 0 || cmp(b, c) < 0 ==> cmp(a, c) < 0)
  {
    if cmp(a, c) == 0 {
      assert cmp(c, a) == 0;
      assert cmp(c, b) <= 0 && cmp(b, a) <= 0;
    }
  }

  lemma {:induction false} OrderIsOrder<T(!new)>(cmp: (T, T) -> int, s: seq<T>, n: nat)
    requires Comparison(cmp) && n <= |s|
    ensures Positions(Order(cmp, s, n), n) && InOrder(cmp, s, Order(cmp, s, n))
  {
    hide Comparison, Insert, InOrder;
    if n == 0 {
      NothingToOrder(cmp, s);
    } else {
      OrderIsOrder(cmp, s, n - 1);
      InsertMembers(cmp, s, Order(cmp, s, n - 1), n - 1);
      InsertOrdered(cmp, s, Order(cmp, s, n - 1), n - 1);
    }
  }

  lemma NothingToOrder<T>(cmp: (T, T) -> int, s: seq<T>)
    ensures InOrder(cmp, s, [])
  {
  }

  lemma SortedIsStable<T(!new)>(cmp: (T, T) -> int, s: seq<T>)
    requires Comparison(cmp)
    ensures StableSortOf(cmp, s, Sorted(cmp, s))
  {
    OrderIsOrder(cmp, s, |s|);
  }

  lemma {:induction false} InsertKeepsAll<T>(cmp: (T, T) -> int, s: seq<T>, p: seq<nat>, x: nat)
    requires x < |s| && forall i :: 0 <= i < |p| ==> p[i] < x
    ensures multiset(At(s, Insert(cmp, s, p, x))) == multiset(At(s, p)) + multiset{s[x]}
    decreases |p|
  {
    if p == [] || cmp(s[p[|p| - 1]], s[x]) <= 0 {
      assert At(s, p + [x]) == At(s, p) + [s[x]];
    } else {
      var k := |p| - 1;
      InsertKeepsAll(cmp, s, p[..k], x);
      assert At(s, p) == At(s, p[..k]) + [s[p[k]]];
      assert At(s, Insert(cmp, s, p, x)) == At(s, Insert(cmp, s, p[..k], x)) + [s[p[k]]];
    }
  }

  lemma {:induction false} OrderKeepsAll<T>(cmp: (T, T) -> int, s: seq<T>, n: nat)
    requires n <= |s|
    ensures multiset(At(s, Order(cmp, s, n))) == multiset(s[..n])
  {
    if n > 0 {
      OrderKeepsAll(cmp, s, n - 1);
      InsertKeepsAll(cmp, s, Order(cmp, s, n - 1), n - 1);
      assert s[..n] == s[..n - 1] + [s[n - 1]];
    }
  }

  /** Sorting neither loses nor adds an element. */
  lemma SortedKeepsAll<T>(cmp: (T, T) -> int, s: seq<T>)
    ensures multiset(Sorted(cmp, s)) == multiset(s)
  {
    OrderKeepsAll(cmp, s, |s|);
    assert s[..|s|] == s;
  }

  /** No element of a stable sort is greater than a later one. */
  lemma StableSortOrdered<T>(cmp: (T, T) -> int, s: seq<T>, t: seq<T>)
    requires StableSortOf(cmp, s, t)
    ensures forall i, j :: 0 <= i < j < |t| ==> cmp(t[i], t[j]) <= 0
  {
    var p: seq<nat> :| Positions(p, |s|) && InOrder(cmp, s, p) && |p| == |s| && t == At(s, p);
    forall i, j | 0 <= i < j < |t| ensures cmp(t[i], t[j]) <= 0 {
      assert Before(cmp, s, p[i], p[j]);
    }
  }

  // ---------------------------------------------------------------- arrangements

  function Identity(n: nat): (p: seq<nat>)
    ensures |p| == n && forall i :: 0 <= i < n ==> p[i] == i
  {
    seq(n, i requires 0 <= i < n => i)
  }

  lemma IdentityPositions<T>(s: seq<T>)
    ensures Positions(Identity(|s|), |s|) && At(s, Identity(|s|)) == s
  {
    forall v: nat | v < |s| ensures v in Identity(|s|) {
      assert Identity(|s|)[v] == v;
    }
  }

  lemma PositionsCompose(p: seq<nat>, q: seq<nat>, n: nat)
    requires Positions(p, n) && |p| == n && Positions(q, n)
    ensures Positions(At(p, q), n)
  {
    var r := At(p, q);
    forall v: nat | v < n ensures v in r {
      assert v in p;
      var i: nat :| i < n && p[i] == v;
      assert i in q;
      var j :| 0 <= j < |q| && q[j] == i;
      assert r[j] == v;
    }
  }

  // ---------------------------------------------------------------- there is only one

  lemma BeforeOneWay<T(!new)>(cmp: (T, T) -> int, s: seq<T>, i: nat, j: nat)
    requires Comparison(cmp) && i < |s| && j < |s| && Before(cmp, s, i, j)
    ensures !Before(cmp, s, j, i)
  {
  }

  /** Two arrangements of the same positions in the same order are the same. */
  lemma {:induction false} SameArrangement<T(!new)>(cmp: (T, T) -> int, s: seq<T>, p: seq<nat>, q: seq<nat>)
    requires Comparison(cmp)
    requires (forall i :: 0 <= i < |p| ==> p[i] < |s|) && (forall i :: 0 <= i < |q| ==> q[i] < |s|)
    requires InOrder(cmp, s, p) && InOrder(cmp, s, q) && forall v: nat :: v in p <==> v in q
    ensures p == q
    decreases |p|
  {
    assert q != [] ==> q[0] in q;
    if p != [] {
      assert p[0] in q;
      FirstAgrees(cmp, s, p, q);
      forall v: nat ensures v in p[1..] <==> v in q[1..] {
        TailMembers(cmp, s, p, v);
        TailMembers(cmp, s, q, v);
      }
      SameArrangement(cmp, s, p[1..], q[1..]);
      assert p == [p[0]] + p[1..] && q == [q[0]] + q[1..];
    }
  }

  lemma FirstAgrees<T(!new)>(cmp: (T, T) -> int, s: seq<T>, p: seq<nat>, q: seq<nat>)
    requires Comparison(cmp) && p != [] && q != []
    requires (forall i :: 0 <= i < |p| ==> p[i] < |s|) && (forall i :: 0 <= i < |q| ==> q[i] < |s|)
    requires InOrder(cmp, s, p) && InOrder(cmp, s, q) && forall v: nat :: v in p <==> v in q
    ensures p[0] == q[0]
  {
    assert p[0] in q && q[0] in p;
    var i :| 0 <= i < |q| && q[i] == p[0];
    var j :| 0 <= j < |p| && p[j] == q[0];
    if i > 0 { BeforeOneWay(cmp, s, q[0], q[i]); }
  }

  lemma TailMembers<T(!new)>(cmp: (T, T) -> int, s: seq<T>, p: seq<nat>, v: nat)
    requires Comparison(cmp) && p != [] && (forall i :: 0 <= i < |p| ==> p[i] < |s|) && InOrder(cmp, s, p)
    ensures v in p[1..] <==> v in p && v != p[0]
  {
    if v in p[1..] {
      var i :| 0 <= i < |p| - 1 && p[1..][i] == v;
      assert Before(cmp, s, p[0], p[i + 1]);
      BeforeOneWay(cmp, s, p[0], p[i + 1]);
    }
    if v in p && v != p[0] {
      var i :| 0 <= i < |p| && p[i] == v;
      assert p[1..][i - 1] == v;
    }
  }

  lemma StableSortUnique<T(!new)>(cmp: (T, T) -> int, s: seq<T>, t: seq<T>, u: seq<T>)
    requires Comparison(cmp) && StableSortOf(cmp, s, t) && StableSortOf(cmp, s, u)
    ensures t == u
  {
    var p: seq<nat> :| Positions(p, |s|) && InOrder(cmp, s, p) && |p| == |s| && t == At(s, p);
    var q: seq<nat> :| Positions(q, |s|) && InOrder(cmp, s, q) && |q| == |s| && u == At(s, q);
    forall v: nat ensures v in p <==> v in q {
    }
    SameArrangement(cmp, s, p, q);
  }

  // ---------------------------------------------------------------- ties

  /** The elements of `s` that compare equal to `x`, in the order they have in `s`. */
  function Ties<T>(cmp: (T, T) -> int, x: T, s: seq<T>): seq<T> {
    if s == [] then []
    else
      var last := s[|s| - 1];
      Ties(cmp, x, s[..|s| - 1]) + if cmp(x, last) == 0 then [last] else []
  }

  function TiePositions<T>(cmp: (T, T) -> int, x: T, s: seq<T>, p: seq<nat>): (q: seq<nat>)
    requires forall i :: 0 <= i < |p| ==> p[i] < |s|
    ensures forall i :: 0 <= i < |q| ==> q[i] < |s|
  {
    if p == [] then []
    else
      var last := p[|p| - 1];
      TiePositions(cmp, x, s, p[..|p| - 1]) + if cmp(x, s[last]) == 0 then [last] else []
  }

  lemma {:induction false} TiesAt<T>(cmp: (T, T) -> int, x: T, s: seq<T>, p: seq<nat>)
    requires forall i :: 0 <= i < |p| ==> p[i] < |s|
    ensures Ties(cmp, x, At(s, p)) == At(s, TiePositions(cmp, x, s, p))
    decreases |p|
  {
    if p != [] {
      var init := p[..|p| - 1];
      TiesAt(cmp, x, s, init);
      assert At(s, p)[..|p| - 1] == At(s, init);
    }
  }

  lemma {:induction false} TieMembers<T>(cmp: (T, T) -> int, x: T, s: seq<T>, p: seq<nat>)
    requires forall i :: 0 <= i < |p| ==> p[i] < |s|
    ensures forall v: nat :: v in TiePositions(cmp, x, s, p) <==> v in p && cmp(x, s[v]) == 0
    decreases |p|
  {
    if p != [] {
      TieMembers(cmp, x, s, p[..|p| - 1]);
      assert p == p[..|p| - 1] + [p[|p| - 1]];
    }
  }

  lemma {:induction false} TiesInOrder<T>(cmp: (T, T) -> int, x: T, s: seq<T>, p: seq<nat>)
    requires (forall i :: 0 <= i < |p| ==> p[i] < |s|) && InOrder(cmp, s, p)
    ensures InOrder(cmp, s, TiePositions(cmp, x, s, p))
    decreases |p|
  {
    if p != [] {
      var init, last := p[..|p| - 1], p[|p| - 1];
      var q := TiePositions(cmp, x, s, init);
      TiesInOrder(cmp, x, s, init);
      forall i | 0 <= i < |q| ensures Before(cmp, s, q[i], last) {
        TieMembers(cmp, x, s, init);
        assert q[i] in q;
        var j :| 0 <= j < |init| && init[j] == q[i];
        assert Before(cmp, s, p[j], p[|p| - 1]);
      }
    }
  }

  /** In the list itself equal elements are in the order of their positions. */
  lemma {:induction false} TiesAsTheyWere<T(!new)>(cmp: (T, T) -> int, x: T, s: seq<T>, n: nat)
    requires Comparison(cmp) && n <= |s|
    ensures InOrder(cmp, s, TiePositions(cmp, x, s, Identity(n)))
  {
    if n > 0 {
      var q := TiePositions(cmp, x, s, Identity(n - 1));
      assert Identity(n)[..n - 1] == Identity(n - 1);
      TiesAsTheyWere(cmp, x, s, n - 1);
      TieMembers(cmp, x, s, Identity(n - 1));
      if cmp(x, s[n - 1]) == 0 {
        forall i | 0 <= i < |q| ensures Before(cmp, s, q[i], n - 1) {
          assert q[i] in q;
          assert cmp(s[q[i]], x) == 0;
          Equals(cmp, s[q[i]], x, s[n - 1]);
        }
      }
    }
  }

  lemma Equals<T(!new)>(cmp: (T, T) -> int, a: T, b: T, c: T)
    requires Comparison(cmp) && cmp(a, b) == 0 && cmp(b, c) == 0
    ensures cmp(a, c) == 0
  {
    assert cmp(b, a) == 0 && cmp(c, b) == 0;
    assert cmp(a, c) <= 0 && cmp(c, a) <= 0;
  }

  /** A stable sort leaves equal elements, wherever they are, in the order they had. */
  lemma StableKeepsTies<T(!new)>(cmp: (T, T) -> int, x: T, s: seq<T>, t: seq<T>)
    requires Comparison(cmp) && StableSortOf(cmp, s, t)
    ensures Ties(cmp, x, t) == Ties(cmp, x, s)
  {
    var p: seq<nat> :| Positions(p, |s|) && InOrder(cmp, s, p) && |p| == |s| && t == At(s, p);
    var id := Identity(|s|);
    IdentityPositions(s);
    TiesInOrder(cmp, x, s, p);
    TiesAsTheyWere(cmp, x, s, |s|);
    TieMembers(cmp, x, s, p);
    TieMembers(cmp, x, s, id);
    SameArrangement(cmp, s, TiePositions(cmp, x, s, p), TiePositions(cmp, x, s, id));
    TiesAt(cmp, x, s, p);
    TiesAt(cmp, x, s, id);
  }
}
