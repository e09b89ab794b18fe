/** Dictionary arithmetic shared by both gut compartments: sums of table
    values, the additive merge of one table into another, and the pruning
    of zero entries. Cell counts are natural numbers, metabolite amounts and
    growth rates are exact reals. */
module Tables {

  /** Python's `sum(d.values())` over a table of cell counts. */
  ghost function Total<K>(m: map<K, nat>): nat
    decreases |m.Keys|
  {
    if m == map[] then 0
    else
      var k :| k in m;
      assert |(m - {k}).Keys| < |m.Keys| by { assert (m - {k}).Keys == m.Keys - {k}; }
      m[k] + Total(m - {k})
  }

  /** Python's `sum(d.values())` over a table of reals. */
  ghost function RealTotal<K>(m: map<K, real>): real
    decreases |m.Keys|
  {
    if m == map[] then 0.0
    else
      var k :| k in m;
      assert |(m - {k}).Keys| < |m.Keys| by { assert (m - {k}).Keys == m.Keys - {k}; }
      m[k] + RealTotal(m - {k})
  }

  /** Any key can be taken out first: the sum does not depend on the order
      in which the table is visited. */
  lemma {:induction false} TotalRemove<K>(m: map<K, nat>, k: K)
    requires k in m
    ensures Total(m) == m[k] + Total(m - {k})
    decreases |m.Keys|
  {
    var j :| j in m && Total(m) == m[j] + Total(m - {j});
    if j != k {
      assert (m - {j}).Keys == m.Keys - {j};
      assert (m - {k}).Keys == m.Keys - {k};
      TotalRemove(m - {j}, k);
      TotalRemove(m - {k}, j);
      assert m - {j} - {k} == m - {k} - {j};
    }
  }

  lemma {:induction false} RealTotalRemove<K>(m: map<K, real>, k: K)
    requires k in m
    ensures RealTotal(m) == m[k] + RealTotal(m - {k})
    decreases |m.Keys|
  {
    var j :| j in m && RealTotal(m) == m[j] + RealTotal(m - {j});
    if j != k {
      assert (m - {j}).Keys == m.Keys - {j};
      assert (m - {k}).Keys == m.Keys - {k};
      RealTotalRemove(m - {j}, k);
      RealTotalRemove(m - {k}, j);
      assert m - {j} - {k} == m - {k} - {j};
    }
  }

  /** Overwriting one entry changes the sum by the difference. */
  lemma TotalUpdate<K>(m: map<K, nat>, k: K, v: nat)
    ensures k in m ==> Total(m[k := v]) + m[k] == Total(m) + v
    ensures k !in m ==> Total(m[k := v]) == Total(m) + v
  {
    TotalRemove(m[k := v], k);
    assert m[k := v] - {k} == m - {k};
    if k in m { TotalRemove(m, k); } else { assert m - {k} == m; }
  }

  lemma RealTotalUpdate<K>(m: map<K, real>, k: K, v: real)
    ensures k in m ==> RealTotal(m[k := v]) == RealTotal(m) - m[k] + v
    ensures k !in m ==> RealTotal(m[k := v]) == RealTotal(m) + v
  {
    RealTotalRemove(m[k := v], k);
    assert m[k := v] - {k} == m - {k};
    if k in m { RealTotalRemove(m, k); } else { assert m - {k} == m; }
  }

  /** Two tables over the same keys whose entries add up to a third one have
      sums that add up to its sum. */
  lemma {:induction false} TotalSplit<K>(whole: map<K, nat>, left: map<K, nat>, right: map<K, nat>)
    requires whole.Keys == left.Keys == right.Keys
    requires forall k :: k in whole ==> whole[k] == left[k] + right[k]
    ensures Total(whole) == Total(left) + Total(right)
    decreases |whole.Keys|
  {
    if whole != map[] {
      var k :| k in whole;
      TotalRemove(whole, k);
      TotalRemove(left, k);
      TotalRemove(right, k);
      assert (whole - {k}).Keys == whole.Keys - {k};
      TotalSplit(whole - {k}, left - {k}, right - {k});
    }
  }

  /** No entry exceeds the sum. */
  lemma TotalAtLeast<K>(m: map<K, nat>, k: K)
    requires k in m
    ensures Total(m) >= m[k]
  {
    TotalRemove(m, k);
  }

  /** A positive sum of counts has a positive entry. */
  lemma {:induction false} TotalPositive<K>(m: map<K, nat>)
    requires Total(m) > 0
    ensures exists k :: k in m && m[k] > 0
    decreases |m.Keys|
  {
    assert m != map[];
    var k :| k in m;
    TotalRemove(m, k);
    if m[k] == 0 {
      assert (m - {k}).Keys == m.Keys - {k};
      TotalPositive(m - {k});
      var j :| j in m - {k} && (m - {k})[j] > 0;
      assert j in m && m[j] > 0;
    }
  }

  /** A positive sum of reals has a positive entry. */
  lemma {:induction false} PositiveEntry<K>(m: map<K, real>)
    requires RealTotal(m) > 0.0
    ensures exists k :: k in m && m[k] > 0.0
    decreases |m.Keys|
  {
    assert m != map[];
    var k :| k in m;
    RealTotalRemove(m, k);
    if m[k] <= 0.0 {
      assert (m - {k}).Keys == m.Keys - {k};
      PositiveEntry(m - {k});
      var j :| j in m - {k} && (m - {k})[j] > 0.0;
      assert j in m && m[j] > 0.0;
    }
  }

  /** Value of key `k` in `m`, or 0 when absent (`d.get(k, 0)`). */
  function CountAt<K>(m: map<K, nat>, k: K): nat
  {
    if k in m then m[k] else 0
  }

  function AmountAt<K>(m: map<K, real>, k: K): real
  {
    if k in m then m[k] else 0.0
  }

  /** The additive merge: an incoming value is added to the present one, or
      copied when the key is absent. */
  function AddCounts<K>(into: map<K, nat>, incoming: map<K, nat>): (r: map<K, nat>)
  {
    map k | k in into.Keys + incoming.Keys :: CountAt(into, k) + CountAt(incoming, k)
  }

  function AddAmounts<K>(into: map<K, real>, incoming: map<K, real>): (r: map<K, real>)
  {
    map k | k in into.Keys + incoming.Keys :: AmountAt(into, k) + AmountAt(incoming, k)
  }

  /** The table without its zero entries. */
  function NonZero<K>(m: map<K, nat>): (r: map<K, nat>)
    ensures r.Keys <= m.Keys
    ensures forall k :: k in r ==> r[k] > 0 && r[k] == m[k]
    ensures forall k :: k in m && m[k] != 0 ==> k in r
  {
    map k | k in m && m[k] != 0 :: m[k]
  }

  /** The merge keeps every key, adds the incoming count to a present key,
      copies an absent one, and leaves keys not in the input unchanged. */
  lemma AddCountsSpec<K>(into: map<K, nat>, incoming: map<K, nat>)
    ensures AddCounts(into, incoming).Keys == into.Keys + incoming.Keys
    ensures forall k :: k in incoming && k in into ==> AddCounts(into, incoming)[k] == into[k] + incoming[k]
    ensures forall k :: k in incoming && k !in into ==> AddCounts(into, incoming)[k] == incoming[k]
    ensures forall k :: k in into && k !in incoming ==> AddCounts(into, incoming)[k] == into[k]
  {
  }

  /** Merging conserves cells: the merged table holds both sums. */
  lemma {:induction false} AddCountsTotal<K>(into: map<K, nat>, incoming: map<K, nat>)
    ensures Total(AddCounts(into, incoming)) == Total(into) + Total(incoming)
    decreases |incoming.Keys|
  {
    if incoming == map[] {
      assert AddCounts(into, incoming) == into;
    } else {
      var k :| k in incoming;
      var rest := incoming - {k};
      assert rest.Keys == incoming.Keys - {k};
      AddCountsTotal(into, rest);
      TotalRemove(incoming, k);
      AddCountsTotalStep(into, incoming, k);
    }
  }

  lemma AddCountsTotalStep<K>(into: map<K, nat>, incoming: map<K, nat>, k: K)
    requires k in incoming
    ensures Total(AddCounts(into, incoming)) == Total(AddCounts(into, incoming - {k})) + incoming[k]
  {
    var prev := AddCounts(into, incoming - {k});
    AddCountsStep(into, incoming, k);
    TotalUpdate(prev, k, CountAt(into, k) + incoming[k]);
  }

  /** Merging one more incoming key updates only that key. */
  lemma AddCountsStep<K>(into: map<K, nat>, incoming: map<K, nat>, k: K)
    requires k in incoming
    ensures AddCounts(into, incoming) == AddCounts(into, incoming - {k})[k := CountAt(into, k) + incoming[k]]
  {
    var lhs := AddCounts(into, incoming);
    var rhs := AddCounts(into, incoming - {k})[k := CountAt(into, k) + incoming[k]];
    assert lhs.Keys == rhs.Keys;
    forall j | j in lhs ensures lhs[j] == rhs[j] {
      if j != k {
        assert CountAt(incoming, j) == CountAt(incoming - {k}, j);
      }
    }
  }

  /** Pruning zero entries does not change the sum. */
  lemma {:induction false} NonZeroTotal<K>(m: map<K, nat>)
    ensures Total(NonZero(m)) == Total(m)
    decreases |m.Keys|
  {
    if m != map[] {
      var k :| k in m;
      TotalRemove(m, k);
      assert (m - {k}).Keys == m.Keys - {k};
      NonZeroTotal(m - {k});
      NonZeroRemove(m, k);
      if m[k] != 0 {
        TotalRemove(NonZero(m), k);
      }
    }
  }

  lemma NonZeroRemove<K>(m: map<K, nat>, k: K)
    requires k in m
    ensures m[k] == 0 ==> NonZero(m) == NonZero(m - {k})
    ensures m[k] != 0 ==> k in NonZero(m) && NonZero(m) - {k} == NonZero(m - {k})
  {
    if m[k] == 0 {
      assert NonZero(m).Keys == NonZero(m - {k}).Keys;
    } else {
      assert (NonZero(m) - {k}).Keys == NonZero(m - {k}).Keys;
    }
  }

  /** One more incoming key moved from the pending set to the merged part. */
  lemma AddCountsGrow<K>(into: map<K, nat>, incoming: map<K, nat>, todo: set<K>, k: K)
    requires todo <= incoming.Keys && k in todo
    ensures var before := AddCounts(into, incoming - todo);
            (k in before <==> k in into) &&
            (k in into ==> before[k] == into[k]) &&
            AddCounts(into, incoming - (todo - {k})) == before[k := CountAt(into, k) + incoming[k]]
  {
    var after := incoming - (todo - {k});
    assert after - {k} == incoming - todo;
    AddCountsStep(into, after, k);
  }

  lemma AddAmountsGrow<K>(into: map<K, real>, incoming: map<K, real>, todo: set<K>, k: K)
    requires todo <= incoming.Keys && k in todo
    ensures var before := AddAmounts(into, incoming - todo);
            (k in before <==> k in into) &&
            (k in into ==> before[k] == into[k]) &&
            AddAmounts(into, incoming - (todo - {k})) == before[k := AmountAt(into, k) + incoming[k]]
  {
    var after := incoming - (todo - {k});
    assert after - {k} == incoming - todo;
    AddAmountsStep(into, after, k);
  }

  /** Merging one more incoming key updates only that key. */
  lemma AddAmountsStep<K>(into: map<K, real>, incoming: map<K, real>, k: K)
    requires k in incoming
    ensures AddAmounts(into, incoming) == AddAmounts(into, incoming - {k})[k := AmountAt(into, k) + incoming[k]]
  {
    var lhs := AddAmounts(into, incoming);
    var rhs := AddAmounts(into, incoming - {k})[k := AmountAt(into, k) + incoming[k]];
    assert lhs.Keys == rhs.Keys;
    forall j | j in lhs ensures lhs[j] == rhs[j] {
      if j != k {
        assert AmountAt(incoming, j) == AmountAt(incoming - {k}, j);
      }
    }
  }

  /** The loop of `add_to_microbiome`, visiting the incoming keys in any order. */
  method MergeCounts<K>(into: map<K, nat>, incoming: map<K, nat>) returns (r: map<K, nat>)
    ensures r == AddCounts(into, incoming)
  {
    r := into;
    var todo := incoming.Keys;
    while todo != {}
      invariant todo <= incoming.Keys
      invariant r == AddCounts(into, incoming - todo)
      decreases |todo|
    {
      var k :| k in todo;
      AddCountsGrow(into, incoming, todo, k);
      if k in r {
        r := r[k := r[k] + incoming[k]];
      } else {
        r := r[k := incoming[k]];
      }
      todo := todo - {k};
    }
    assert incoming - {} == incoming;
  }

  /** The loop of the large intestine's `add_to_metabolome`, and of the
      per-metabolite summing of species exchange deltas. */
  method MergeAmounts<K>(into: map<K, real>, incoming: map<K, real>) returns (r: map<K, real>)
    ensures r == AddAmounts(into, incoming)
  {
    r := into;
    var todo := incoming.Keys;
    while todo != {}
      invariant todo <= incoming.Keys
      invariant r == AddAmounts(into, incoming - todo)
      decreases |todo|
    {
      var k :| k in todo;
      AddAmountsGrow(into, incoming, todo, k);
      if k in r {
        r := r[k := r[k] + incoming[k]];
      } else {
        r := r[k := incoming[k]];
      }
      todo := todo - {k};
    }
    assert incoming - {} == incoming;
  }

  /** `sum(d.values())` over cell counts, visiting keys in any order. */
  method SumCounts<K>(m: map<K, nat>) returns (s: nat)
    ensures s == Total(m)
  {
    s := 0;
    var rest := m;
    while rest != map[]
      invariant s + Total(rest) == Total(m)
      decreases |rest.Keys|
    {
      var k :| k in rest;
      TotalRemove(rest, k);
      assert (rest - {k}).Keys == rest.Keys - {k};
      s := s + rest[k];
      rest := rest - {k};
    }
  }

  /** `sum(d.values())` over reals, visiting keys in any order. */
  method SumReals<K>(m: map<K, real>) returns (s: real)
    ensures s == RealTotal(m)
  {
    s := 0.0;
    var rest := m;
    while rest != map[]
      invariant s + RealTotal(rest) == RealTotal(m)
      decreases |rest.Keys|
    {
      var k :| k in rest;
      RealTotalRemove(rest, k);
      assert (rest - {k}).Keys == rest.Keys - {k};
      s := s + rest[k];
      rest := rest - {k};
    }
  }
}
