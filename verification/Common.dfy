/** Definitions shared by every component: the usual option type, machine-word limits,
    and the Linux error numbers the bridge returns negated. */
module Common {
  datatype Option<+T> = None | Some(value: T)

  const U16_LIMIT: nat := 0x1_0000
  const U32_LIMIT: nat := 0x1_0000_0000
  const U64_LIMIT: nat := 0x1_0000_0000_0000_0000

  const ENOENT := -2
  const E2BIG := -7
  const EAGAIN := -11
  const EBUSY := -16
  const EINVAL := -22
  const EPIPE := -32
  const ERANGE := -34
  const ETIME := -62
  const EOVERFLOW := -75
  const EMSGSIZE := -90
  const EOPNOTSUPP := -95
  const ENOTCONN := -107
  const ETIMEDOUT := -110
  const ESTALE := -116
}

/** Octets. */
module Bytes {
  type byte = x: nat | x < 256
}

/** The few facts about products and remainders that the solver is not left to find. */
module Arithmetic {
  lemma MulMono(a: int, b: int, m: nat)
    requires a <= b
    ensures a * m <= b * m
  {
  }

  /** A number written as quotient and remainder has that remainder. */
  lemma RemainderUnique(a: nat, q: nat, r: nat, m: nat)
    requires r < m && a == q * m + r
    ensures a % m == r
  {
    var q' := a / m;
    assert a == q' * m + a % m;
    if q' < q {
      assert (q' + 1) * m == q' * m + m;
      MulMono(q' + 1, q, m);
    } else if q < q' {
      assert (q + 1) * m == q * m + m;
      MulMono(q + 1, q', m);
    }
  }

  /** A finite set of numbers has a least one. */
  lemma {:induction false} LeastOf(s: set<int>) returns (m: int)
    requires s != {}
    ensures m in s && forall x :: x in s ==> m <= x
    decreases |s|
  {
    assert (forall x :: x !in s) ==> s == {};
    m :| m in s;
    if s != {m} {
      var n := LeastOf(s - {m});
      assert forall x :: x in s ==> x == m || x in s - {m};
      if n < m { m := n; }
    } else {
      assert forall x :: x in s ==> x in {m};
    }
  }
}
