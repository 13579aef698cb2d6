/** The sum of a balance table. */
module Sums {
  import opened Types

  ghost function Sum(m: map<Address, int>): int {
    if m == map[] then 0
    else
      var a :| a in m;
      m[a] + Sum(m - {a})
  }

  /** Any entry can be taken out first. */
  lemma {:induction false} SumSplit(m: map<Address, int>, a: Address)
    requires a in m
    ensures Sum(m) == m[a] + Sum(m - {a})
    decreases |m|
  {
    var b :| b in m && Sum(m) == m[b] + Sum(m - {b});
    if a != b {
      assert a in m - {b} && b in m - {a};
      SumSplit(m - {b}, a);
      SumSplit(m - {a}, b);
      assert m - {b} - {a} == m - {a} - {b};
    }
  }

  lemma SumUpdate(m: map<Address, int>, a: Address, v: int)
    ensures Sum(m[a := v]) == Sum(m) - (if a in m then m[a] else 0) + v
  {
    var updated := m[a := v];
    SumSplit(updated, a);
    if a in m {
      SumSplit(m, a);
      assert updated - {a} == m - {a};
    } else {
      assert updated - {a} == m;
    }
  }

  /** No entry of a non-negative table exceeds the sum, nor do two of them together. */
  lemma {:induction false} SumBounds(m: map<Address, int>)
    requires forall a | a in m :: m[a] >= 0
    ensures Sum(m) >= 0
    ensures forall a | a in m :: m[a] <= Sum(m)
    decreases |m|
  {
    if m != map[] {
      var b :| b in m;
      SumSplit(m, b);
      SumBounds(m - {b});
      forall a | a in m
        ensures m[a] <= Sum(m)
      {
        if a != b {
          assert a in m - {b};
        }
      }
    }
  }

  lemma {:induction false} SumBoundsPair(m: map<Address, int>, a: Address, b: Address)
    requires forall x | x in m :: m[x] >= 0
    requires a in m && b in m && a != b
    ensures m[a] + m[b] <= Sum(m)
  {
    SumSplit(m, a);
    assert b in m - {a};
    SumBounds(m - {a});
  }

  /** If one entry is less than the sum, another one is positive. */
  lemma {:induction false} AnotherPositive(m: map<Address, int>, a: Address) returns (b: Address)
    requires forall x | x in m :: m[x] >= 0
    requires (if a in m then m[a] else 0) < Sum(m)
    ensures b in m && b != a && m[b] > 0
    decreases |m|
  {
    var c :| c in m;
    SumSplit(m, c);
    if c != a && m[c] > 0 {
      b := c;
    } else {
      b := AnotherPositive(m - {c}, a);
    }
  }
}
