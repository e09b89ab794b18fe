/** What `metabolise` does to a compartment's metabolite pool: the fan-out of
    one task per resident species against a snapshot of the pool, the
    per-metabolite summing of the species' deltas in completion order, the
    zero-guarded merge of that sum into the pool, and the compartment's own
    optimisation whose deltas are merged without that guard. */
module Pools {
  import opened Wrappers
  import opened Tables
  import opened Exchange

  /** The per-metabolite sum of the deltas of a set of finished tasks,
      taking the tasks in an arbitrary order. */
  ghost function CombineOutcomes(outcomes: map<string, TaskOutcome>): map<string, real>
    decreases |outcomes.Keys|
  {
    if outcomes == map[] then map[]
    else
      var s :| s in outcomes;
      assert |(outcomes - {s}).Keys| < |outcomes.Keys| by {
        assert (outcomes - {s}).Keys == outcomes.Keys - {s};
      }
      AddAmounts(CombineOutcomes(outcomes - {s}), DeltaOf(outcomes[s]))
  }

  /** Adding two deltas one after the other gives the same table in either order. */
  lemma AddAmountsSwap(acc: map<string, real>, x: map<string, real>, y: map<string, real>)
    ensures AddAmounts(AddAmounts(acc, x), y) == AddAmounts(AddAmounts(acc, y), x)
  {
    var l := AddAmounts(AddAmounts(acc, x), y);
    var r := AddAmounts(AddAmounts(acc, y), x);
    assert l.Keys == r.Keys;
    forall m | m in l ensures l[m] == r[m] {
      assert l[m] == AmountAt(acc, m) + AmountAt(x, m) + AmountAt(y, m);
    }
  }

  /** Any finished task may be the one merged last. */
  lemma {:induction false} CombineRemove(outcomes: map<string, TaskOutcome>, s: string)
    requires s in outcomes
    ensures CombineOutcomes(outcomes) == AddAmounts(CombineOutcomes(outcomes - {s}), DeltaOf(outcomes[s]))
    decreases |outcomes.Keys|
  {
    var j :| j in outcomes && CombineOutcomes(outcomes) == AddAmounts(CombineOutcomes(outcomes - {j}), DeltaOf(outcomes[j]));
    if j != s {
      assert (outcomes - {j}).Keys == outcomes.Keys - {j};
      assert (outcomes - {s}).Keys == outcomes.Keys - {s};
      CombineRemove(outcomes - {j}, s);
      CombineRemove(outcomes - {s}, j);
      assert outcomes - {j} - {s} == outcomes - {s} - {j};
      AddAmountsSwap(CombineOutcomes(outcomes - {j} - {s}), DeltaOf(outcomes[s]), DeltaOf(outcomes[j]));
    }
  }

  /** The loop over `as_completed`: deltas summed per metabolite in the order
      the tasks finished. */
  function CombineInOrder(results: seq<TaskOutcome>): map<string, real>
  {
    if results == [] then map[]
    else AddAmounts(CombineInOrder(results[..|results| - 1]), DeltaOf(results[|results| - 1]))
  }

  /** The outcomes of the tasks of `order`, in that order. */
  function Completions(outcomes: map<string, TaskOutcome>, order: seq<string>): (results: seq<TaskOutcome>)
    requires forall i :: 0 <= i < |order| ==> order[i] in outcomes
    ensures |results| == |order|
    ensures forall i :: 0 <= i < |order| ==> results[i] == outcomes[order[i]]
  {
    seq(|order|, i requires 0 <= i < |order| => outcomes[order[i]])
  }

  /** Whatever order the species' tasks complete in, the summed deltas are
      the same. */
  lemma {:induction false} CompletionOrderIrrelevant(outcomes: map<string, TaskOutcome>, order: seq<string>)
    requires forall i, j :: 0 <= i < j < |order| ==> order[i] != order[j]
    requires (set i | 0 <= i < |order| :: order[i]) == outcomes.Keys
    ensures CombineInOrder(Completions(outcomes, order)) == CombineOutcomes(outcomes)
  {
    if order == [] {
      assert outcomes.Keys == {};
      assert outcomes == map[];
    } else {
      var n := |order| - 1;
      var last := order[n];
      PrefixCovers(outcomes, order);
      CompletionOrderIrrelevant(outcomes - {last}, order[..n]);
      CompletionsSnoc(outcomes, order);
      CombineRemove(outcomes, last);
    }
  }

  /** Without its last task, the order covers the other tasks. */
  lemma PrefixCovers(outcomes: map<string, TaskOutcome>, order: seq<string>)
    requires order != []
    requires forall i, j :: 0 <= i < j < |order| ==> order[i] != order[j]
    requires (set i | 0 <= i < |order| :: order[i]) == outcomes.Keys
    ensures var n := |order| - 1;
            (set i | 0 <= i < n :: order[..n][i]) == (outcomes - {order[n]}).Keys
  {
    var n := |order| - 1;
    var prefix := order[..n];
    forall x | x in (outcomes - {order[n]}).Keys ensures x in set i | 0 <= i < n :: prefix[i] {
      var i :| 0 <= i < |order| && order[i] == x;
      assert i != n;
      assert prefix[i] == x;
    }
  }

  /** The last completion is merged last. */
  lemma CompletionsSnoc(outcomes: map<string, TaskOutcome>, order: seq<string>)
    requires order != []
    requires forall i :: 0 <= i < |order| ==> order[i] in outcomes
    ensures var n := |order| - 1;
            var rest := outcomes - {order[n]};
            (forall i :: 0 <= i < n ==> order[..n][i] in rest) ==>
              CombineInOrder(Completions(outcomes, order)) ==
                AddAmounts(CombineInOrder(Completions(rest, order[..n])), DeltaOf(outcomes[order[n]]))
  {
    var n := |order| - 1;
    var rest := outcomes - {order[n]};
    if forall i :: 0 <= i < n ==> order[..n][i] in rest {
      assert Completions(outcomes, order)[..n] == Completions(rest, order[..n]);
    }
  }

  /** A task that failed or timed out contributes nothing to the summed deltas. */
  lemma FailedTaskContributesNothing(outcomes: map<string, TaskOutcome>, s: string)
    requires s in outcomes && outcomes[s] == Failed
    ensures CombineOutcomes(outcomes) == CombineOutcomes(outcomes - {s})
  {
    CombineRemove(outcomes, s);
    var c := CombineOutcomes(outcomes - {s});
    assert AddAmounts(c, map[]) == c;
  }

  /** The table `metabolise` returns: every resident species, with the rate
      its task reported, or 0 when it reported nothing. */
  function RatesFrom(residents: map<string, nat>, outcomes: map<string, TaskOutcome>): (rates: map<string, real>)
    ensures rates.Keys == residents.Keys
    ensures forall s :: s in rates && (s !in outcomes || outcomes[s].Failed?) ==> rates[s] == 0.0
  {
    map s | s in residents :: if s in outcomes && outcomes[s].Finished? then outcomes[s].rate else 0.0
  }

  /** Every resident species' task, each run against the same snapshot and
      the community's total biomass. */
  ghost function SpeciesOutcomes(section: Section, snapshot: map<string, real>, microbiome: map<string, nat>,
                                 provider: string -> Option<ExchangeModel>, round3: real -> real): (outcomes: map<string, TaskOutcome>)
    ensures outcomes.Keys == microbiome.Keys
  {
    var total := CellBiomass(Total(microbiome));
    map s | s in microbiome :: SpeciesTask(section, snapshot, provider(s), microbiome[s], total, round3)
  }

  /** Merging the summed species deltas into the pool: a present metabolite
      takes the new sum unless that sum is exactly zero, in which case the old
      amount stays; an absent one is added when its delta is non-zero. */
  function GuardedMerge(pool: map<string, real>, combined: map<string, real>): (r: map<string, real>)
  {
    map m | m in pool.Keys + combined.Keys && (m in pool || combined[m] != 0.0) ::
      if m in pool && m in combined && pool[m] + combined[m] != 0.0 then pool[m] + combined[m]
      else if m in pool then pool[m]
      else combined[m]
  }

  lemma GuardedMergeSpec(pool: map<string, real>, combined: map<string, real>)
    ensures pool.Keys <= GuardedMerge(pool, combined).Keys
    ensures forall m :: m in pool && m !in combined ==> GuardedMerge(pool, combined)[m] == pool[m]
    ensures forall m :: m in pool && m in combined ==>
              GuardedMerge(pool, combined)[m] == (if pool[m] + combined[m] != 0.0 then pool[m] + combined[m] else pool[m])
    ensures forall m :: m !in pool ==> (m in GuardedMerge(pool, combined) <==> m in combined && combined[m] != 0.0)
    ensures forall m :: m !in pool && m in combined && combined[m] != 0.0 ==> GuardedMerge(pool, combined)[m] == combined[m]
  {
  }

  /** The guard keeps a stale amount: a metabolite whose amount the deltas
      exactly use up keeps its old, non-zero amount rather than 0. */
  lemma GuardKeepsUsedUpAmount()
    ensures GuardedMerge(map["glc" := 5.0], map["glc" := -5.0]) == map["glc" := 5.0]
  {
    var r := GuardedMerge(map["glc" := 5.0], map["glc" := -5.0]);
    assert "glc" in r;
    assert r.Keys == {"glc"};
  }

  /** Merging the compartment's own exchange amounts, one exchange after the
      other: a present metabolite always takes the added amount, an absent one
      is added only when its amount is non-zero. */
  function HostMerge(pool: map<string, real>, pairs: seq<(string, real)>): (r: map<string, real>)
  {
    if pairs == [] then pool
    else
      var prev := HostMerge(pool, pairs[..|pairs| - 1]);
      var met := pairs[|pairs| - 1].0;
      var amount := pairs[|pairs| - 1].1;
      if met in prev then prev[met := prev[met] + amount]
      else if amount != 0.0 then prev[met := amount]
      else prev
  }

  /** After the host merge a metabolite is in the pool exactly when it was
      before or some exchange moved a non-zero amount of it, and its amount is
      the old one plus the sum of all its exchange amounts. */
  lemma {:induction false} HostMergeAt(pool: map<string, real>, pairs: seq<(string, real)>, met: string)
    ensures met in HostMerge(pool, pairs) <==>
              met in pool || exists i :: 0 <= i < |pairs| && pairs[i].0 == met && pairs[i].1 != 0.0
    ensures met in HostMerge(pool, pairs) ==> HostMerge(pool, pairs)[met] == AmountAt(pool, met) + SumFor(pairs, met)
  {
    if pairs != [] {
      var n := |pairs| - 1;
      var prefix := pairs[..n];
      HostMergeAt(pool, prefix, met);
      assert forall i :: 0 <= i < n ==> prefix[i] == pairs[i];
      var prev := HostMerge(pool, prefix);
      if pairs[n].0 == met && met !in prev {
        forall i | 0 <= i < |prefix| && prefix[i].0 == met ensures prefix[i].1 == 0.0 {
          assert pairs[i] == prefix[i];
        }
        SumForZero(prefix, met);
      }
    }
  }

  lemma {:induction false} SumForZero(pairs: seq<(string, real)>, met: string)
    requires forall i :: 0 <= i < |pairs| && pairs[i].0 == met ==> pairs[i].1 == 0.0
    ensures SumFor(pairs, met) == 0.0
  {
    if pairs != [] {
      var prefix := pairs[..|pairs| - 1];
      assert forall i :: 0 <= i < |prefix| ==> prefix[i] == pairs[i];
      SumForZero(prefix, met);
    }
  }

  /** The host model's solution for the bounds it gets from `pool`. */
  function HostSolution(section: Section, pool: map<string, real>, host: ExchangeModel,
                        hostBiomass: real, round3: real -> real): Solution
    requires hostBiomass > 0.0
  {
    host.optimize(HostBounds(pool, host.exchanges, hostBiomass, StepHours(section), round3))
  }

  /** The pool after the host step. */
  function HostUpdate(section: Section, pool: map<string, real>, host: ExchangeModel,
                      hostBiomass: real, round3: real -> real): map<string, real>
    requires hostBiomass > 0.0
  {
    HostMerge(pool, ExchangeAmounts(host.exchanges, HostSolution(section, pool, host, hostBiomass, round3),
                                    hostBiomass, StepHours(section)))
  }

  /** One more finished task adds its delta to the running sum. */
  lemma CombineStep(done: map<string, TaskOutcome>, s: string, outcome: TaskOutcome)
    requires s !in done
    ensures CombineOutcomes(done[s := outcome]) == AddAmounts(CombineOutcomes(done), DeltaOf(outcome))
    ensures outcome.Failed? ==> CombineOutcomes(done[s := outcome]) == CombineOutcomes(done)
  {
    CombineRemove(done[s := outcome], s);
    assert done[s := outcome] - {s} == done;
    var c := CombineOutcomes(done);
    assert AddAmounts(c, map[]) == c;
  }

  /** One more finished task records its rate; a failed one leaves the table as it was. */
  lemma RatesStep(residents: map<string, nat>, done: map<string, TaskOutcome>, s: string, outcome: TaskOutcome)
    requires s in residents && s !in done
    ensures RatesFrom(residents, done[s := outcome]) ==
              if outcome.Finished? then RatesFrom(residents, done)[s := outcome.rate] else RatesFrom(residents, done)
  {
  }

  /** `total_biomass`: the summed dry weight of every resident species. */
  method TotalBiomass(microbiome: map<string, nat>) returns (totalBiomass: real)
    ensures totalBiomass == CellBiomass(Total(microbiome))
  {
    totalBiomass := 0.0;
    var rest := microbiome;
    while rest != map[]
      invariant totalBiomass + CellBiomass(Total(rest)) == CellBiomass(Total(microbiome))
      decreases |rest.Keys|
    {
      var s :| s in rest;
      TotalRemove(rest, s);
      assert (rest - {s}).Keys == rest.Keys - {s};
      totalBiomass := totalBiomass + CellBiomass(rest[s]);
      rest := rest - {s};
    }
  }

  /** Lines 85-108 of both `metabolise` methods: the total biomass, one task
      per resident species, completions taken in any order, rates recorded and
      deltas summed per metabolite. */
  method FanOut(section: Section, snapshot: map<string, real>, microbiome: map<string, nat>,
                provider: string -> Option<ExchangeModel>, round3: real -> real)
    returns (rates: map<string, real>, combined: map<string, real>)
    ensures rates == RatesFrom(microbiome, SpeciesOutcomes(section, snapshot, microbiome, provider, round3))
    ensures combined == CombineOutcomes(SpeciesOutcomes(section, snapshot, microbiome, provider, round3))
  {
    var totalBiomass := TotalBiomass(microbiome);
    ghost var outcomes := SpeciesOutcomes(section, snapshot, microbiome, provider, round3);
    rates := map s | s in microbiome :: 0.0;
    combined := map[];
    var pending := microbiome.Keys;
    ghost var done: map<string, TaskOutcome> := map[];
    FanOutStart(microbiome, outcomes);
    while pending != {}
      invariant FanOutState(microbiome, outcomes, pending, done, rates, combined)
      decreases |pending|
    {
      var s :| s in pending;
      var outcome := SpeciesTask(section, snapshot, provider(s), microbiome[s], totalBiomass, round3);
      assert outcome == outcomes[s];
      FanOutStep(microbiome, outcomes, pending, done, rates, combined, s);
      if outcome.Finished? {
        rates := rates[s := outcome.rate];
        combined := MergeAmounts(combined, outcome.delta);
      }
      done := done[s := outcome];
      pending := pending - {s};
    }
    FanOutEnd(microbiome, outcomes, done, rates, combined);
  }

  /** The tasks of `done` have completed, those of `pending` not yet; the
      rates and the summed deltas are those of the completed tasks. */
  ghost predicate FanOutState(microbiome: map<string, nat>, outcomes: map<string, TaskOutcome>,
                              pending: set<string>, done: map<string, TaskOutcome>,
                              rates: map<string, real>, combined: map<string, real>)
  {
    outcomes.Keys == microbiome.Keys &&
    pending <= microbiome.Keys &&
    (forall t :: t in done <==> t in microbiome && t !in pending) &&
    (forall t :: t in done ==> done[t] == outcomes[t]) &&
    rates == RatesFrom(microbiome, done) &&
    combined == CombineOutcomes(done)
  }

  lemma FanOutStart(microbiome: map<string, nat>, outcomes: map<string, TaskOutcome>)
    requires outcomes.Keys == microbiome.Keys
    ensures FanOutState(microbiome, outcomes, microbiome.Keys, map[], map s | s in microbiome :: 0.0, map[])
  {
    assert RatesFrom(microbiome, map[]) == map s | s in microbiome :: 0.0;
  }

  lemma FanOutStep(microbiome: map<string, nat>, outcomes: map<string, TaskOutcome>,
                   pending: set<string>, done: map<string, TaskOutcome>,
                   rates: map<string, real>, combined: map<string, real>, s: string)
    requires FanOutState(microbiome, outcomes, pending, done, rates, combined)
    requires s in pending
    ensures var o := outcomes[s];
            FanOutState(microbiome, outcomes, pending - {s}, done[s := o],
                        if o.Finished? then rates[s := o.rate] else rates,
                        if o.Finished? then AddAmounts(combined, o.delta) else combined)
  {
    var o := outcomes[s];
    CombineStep(done, s, o);
    RatesStep(microbiome, done, s, o);
  }

  lemma FanOutEnd(microbiome: map<string, nat>, outcomes: map<string, TaskOutcome>,
                  done: map<string, TaskOutcome>, rates: map<string, real>, combined: map<string, real>)
    requires FanOutState(microbiome, outcomes, {}, done, rates, combined)
    ensures rates == RatesFrom(microbiome, outcomes) && combined == CombineOutcomes(outcomes)
  {
    assert done.Keys == outcomes.Keys;
    assert done == outcomes;
  }

  /** Merging one more metabolite's summed delta touches only that metabolite. */
  lemma GuardedMergeStep(pool: map<string, real>, done: map<string, real>, m: string, amount: real)
    requires m !in done
    ensures m in GuardedMerge(pool, done) <==> m in pool
    ensures m in pool ==> GuardedMerge(pool, done)[m] == pool[m]
    ensures GuardedMerge(pool, done[m := amount]) ==
              if m in pool && pool[m] + amount != 0.0 then GuardedMerge(pool, done)[m := pool[m] + amount]
              else if m !in pool && amount != 0.0 then GuardedMerge(pool, done)[m := amount]
              else GuardedMerge(pool, done)
  {
    var g := GuardedMerge(pool, done);
    var h := GuardedMerge(pool, done[m := amount]);
    if m in pool && pool[m] + amount != 0.0 {
      GuardedMergeSame(pool, done, m, amount, g[m := pool[m] + amount]);
    } else if m !in pool && amount != 0.0 {
      GuardedMergeSame(pool, done, m, amount, g[m := amount]);
    } else {
      GuardedMergeSame(pool, done, m, amount, g);
    }
  }

  /** `e` agrees with the merge of `done[m := amount]` away from `m`, and at
      `m` as the guard says: then it is that merge. */
  lemma GuardedMergeSame(pool: map<string, real>, done: map<string, real>, m: string, amount: real,
                         e: map<string, real>)
    requires m !in done
    requires forall k :: k != m ==> (k in e <==> k in GuardedMerge(pool, done))
    requires forall k :: k != m && k in e ==> e[k] == GuardedMerge(pool, done)[k]
    requires m in e <==> m in pool || amount != 0.0
    requires m in e ==> e[m] == if m in pool && pool[m] + amount != 0.0 then pool[m] + amount
                                else if m in pool then pool[m] else amount
    ensures GuardedMerge(pool, done[m := amount]) == e
  {
    var h := GuardedMerge(pool, done[m := amount]);
    assert h.Keys == e.Keys;
    forall k | k in h ensures h[k] == e[k] {
    }
  }

  /** One more metabolite moved from the pending set to the merged part. */
  lemma GuardedMergeGrow(pool: map<string, real>, combined: map<string, real>, todo: set<string>, m: string)
    requires todo <= combined.Keys && m in todo
    ensures var before := GuardedMerge(pool, combined - todo);
            var amount := combined[m];
            (m in before <==> m in pool) &&
            (m in pool ==> before[m] == pool[m]) &&
            GuardedMerge(pool, combined - (todo - {m})) ==
              if m in pool && pool[m] + amount != 0.0 then before[m := pool[m] + amount]
              else if m !in pool && amount != 0.0 then before[m := amount]
              else before
  {
    assert (combined - todo)[m := combined[m]] == combined - (todo - {m});
    GuardedMergeStep(pool, combined - todo, m, combined[m]);
  }

  /** Lines 110-114 (small) and 248-252 (large): the summed species deltas
      merged into the pool one metabolite at a time. */
  method ApplySpeciesDeltas(pool: map<string, real>, combined: map<string, real>) returns (r: map<string, real>)
    ensures r == GuardedMerge(pool, combined)
  {
    r := pool;
    var todo := combined.Keys;
    while todo != {}
      invariant todo <= combined.Keys
      invariant r == GuardedMerge(pool, combined - todo)
      decreases |todo|
    {
      var m :| m in todo;
      var amount := combined[m];
      GuardedMergeGrow(pool, combined, todo, m);
      if m in r && r[m] + amount != 0.0 {
        r := r[m := r[m] + amount];
      } else if m !in r && amount != 0.0 {
        r := r[m := amount];
      }
      todo := todo - {m};
    }
    assert combined - {} == combined;
  }

  /** The merge of one more exchange, as the loop of the host step does it. */
  lemma HostMergeSnoc(pool: map<string, real>, pairs: seq<(string, real)>, i: nat)
    requires i < |pairs|
    ensures var prev := HostMerge(pool, pairs[..i]);
            var (met, amount) := pairs[i];
            HostMerge(pool, pairs[..i + 1]) ==
              if met in prev then prev[met := prev[met] + amount]
              else if amount != 0.0 then prev[met := amount]
              else prev
  {
    assert pairs[..i + 1][..i] == pairs[..i];
  }

  /** Lines 116-133 (small) and 254-272 (large): the compartment's own model
      gets its bounds from the pool, is optimised, and its exchange amounts
      are merged into the pool exchange by exchange. */
  method HostStep(section: Section, pool: map<string, real>, host: ExchangeModel,
                  hostBiomass: real, round3: real -> real)
    returns (growth: real, r: map<string, real>)
    requires hostBiomass > 0.0
    ensures growth == HostSolution(section, pool, host, hostBiomass, round3).objective
    ensures r == HostUpdate(section, pool, host, hostBiomass, round3)
  {
    var step := StepHours(section);
    var solution := host.optimize(HostBounds(pool, host.exchanges, hostBiomass, step, round3));
    growth := solution.objective;
    var pairs := ExchangeAmounts(host.exchanges, solution, hostBiomass, step);
    r := pool;
    var i := 0;
    while i < |pairs|
      invariant 0 <= i <= |pairs|
      invariant r == HostMerge(pool, pairs[..i])
    {
      var (met, amount) := pairs[i];
      HostMergeSnoc(pool, pairs, i);
      if met in r {
        r := r[met := r[met] + amount];
      } else if amount != 0.0 {
        r := r[met := amount];
      }
      i := i + 1;
    }
    assert pairs[..i] == pairs;
  }
}
