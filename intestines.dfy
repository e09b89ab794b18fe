/** The two gut compartments. Each owns a metabolite pool (`metabolome`,
    metabolite id to mmol) and a community (`microbiome`, species id to cell
    count) that its methods update in place. The small intestine replaces
    its pool on intake and hands pool and cells on to the large intestine;
    the large intestine adds to its pool and washes cells out. */
module Intestines {
  import opened Wrappers
  import opened Tables
  import opened Exchange
  import opened Pools

  /** How a transfer ends. The Python code raises on the zero-sum growth
      table (`ZeroDivisionError`) and when `random.choices` gets no positive
      total weight; `OutOfDraws` means the draw budget given to the model ran
      out before the target was met. */
  datatype TransferOutcome = Moved | ZeroTotalGrowth | NoPositiveWeight | OutOfDraws

  /** `1 - rate / total` per species: the weight with which a species is
      picked for transfer. */
  function TransferWeights(rates: map<string, real>, total: real): (w: map<string, real>)
    requires total != 0.0
    ensures w.Keys == rates.Keys
  {
    map s | s in rates :: 1.0 - rates[s] / total
  }

  /** The weights add up to the number of species minus the rates' sum over
      `total`. */
  lemma {:induction false} TransferWeightsTotal(rates: map<string, real>, total: real)
    requires total != 0.0
    ensures RealTotal(TransferWeights(rates, total)) == |rates.Keys| as real - RealTotal(rates) / total
    decreases |rates.Keys|
  {
    var w := TransferWeights(rates, total);
    if rates != map[] {
      var k :| k in rates;
      var rest := rates - {k};
      assert rest.Keys == rates.Keys - {k};
      TransferWeightsTotal(rest, total);
      WeightsStep(rates, total, k);
      RealTotalRemove(rates, k);
      WeightsArithmetic(rates[k], RealTotal(rest), total, RealTotal(TransferWeights(rest, total)), |rest.Keys| as real);
    } else {
      assert w == map[];
      assert RealTotal(rates) == 0.0 && |rates.Keys| == 0;
      ZeroOver(total);
    }
  }

  lemma ZeroOver(d: real)
    requires d != 0.0
    ensures 0.0 / d == 0.0
  {
  }

  lemma WeightsStep(rates: map<string, real>, total: real, k: string)
    requires total != 0.0 && k in rates
    ensures RealTotal(TransferWeights(rates, total)) ==
              1.0 - rates[k] / total + RealTotal(TransferWeights(rates - {k}, total))
    ensures |rates.Keys| == |(rates - {k}).Keys| + 1
  {
    var w := TransferWeights(rates, total);
    RealTotalRemove(w, k);
    assert w - {k} == TransferWeights(rates - {k}, total);
    assert (rates - {k}).Keys == rates.Keys - {k};
  }

  /** The sum step of `TransferWeightsTotal` over plain reals. */
  lemma WeightsArithmetic(a: real, b: real, d: real, restWeights: real, restCount: real)
    requires d != 0.0
    requires restWeights == restCount - b / d
    ensures 1.0 - a / d + restWeights == (restCount + 1.0) - (a + b) / d
  {
    assert (a + b) / d == a / d + b / d;
  }

  /** With the rates' own sum as `total`, the weights of n species add up to
      n - 1: they can be drawn from exactly when there are two or more. */
  lemma WeightsSumToOneLess(rates: map<string, real>)
    requires RealTotal(rates) != 0.0
    ensures RealTotal(TransferWeights(rates, RealTotal(rates))) == |rates.Keys| as real - 1.0
    ensures RealTotal(TransferWeights(rates, RealTotal(rates))) > 0.0 <==> |rates.Keys| >= 2
  {
    var t := RealTotal(rates);
    TransferWeightsTotal(rates, t);
    DivideSelf(t);
  }

  lemma DivideSelf(d: real)
    requires d != 0.0
    ensures d / d == 1.0
  {
    assert 1.0 * d == d;
  }

  /** The weights `random.choices` draws with: `1 - rate / total`, with the
      rates' own sum as total (none when that sum is zero, where the Python
      code has already raised). */
  ghost function DrawWeights(rates: map<string, real>): (w: map<string, real>)
    ensures w.Keys <= rates.Keys
  {
    if RealTotal(rates) == 0.0 then map[] else TransferWeights(rates, RealTotal(rates))
  }

  /** The species a draw can return. `random.choices` bisects the running
      sums of the weights at a point below their total, so the species it
      returns always has a positive weight. */
  function Drawable(weights: map<string, real>): (d: set<string>)
    ensures d <= weights.Keys
    ensures forall s :: s in d <==> s in weights && weights[s] > 0.0
  {
    set s | s in weights && weights[s] > 0.0
  }

  /** The entries of `cells` for the species in `keep`. */
  function Restrict(cells: map<string, nat>, keep: set<string>): (r: map<string, nat>)
    ensures r.Keys == cells.Keys * keep
    ensures forall s :: s in r ==> r[s] == cells[s]
  {
    map s | s in cells && s in keep :: cells[s]
  }

  /** `remaining` and `tally` split the community, and only species that
      can be drawn have cells in `tally`. */
  ghost predicate Drawn(microbiome: map<string, nat>, weights: map<string, real>,
                        remaining: map<string, nat>, tally: map<string, nat>)
  {
    remaining.Keys == microbiome.Keys && tally.Keys == microbiome.Keys &&
    (forall s :: s in microbiome ==> remaining[s] + tally[s] == microbiome[s]) &&
    (forall s :: s in microbiome && s !in Drawable(weights) ==> tally[s] == 0)
  }

  /** Moving `k` cells of a drawable species `s` from `remaining` to `tally`. */
  lemma TakeCells(microbiome: map<string, nat>, weights: map<string, real>,
                  remaining: map<string, nat>, tally: map<string, nat>, s: string, k: nat)
    requires Drawn(microbiome, weights, remaining, tally)
    requires s in Drawable(weights) && s in microbiome && k <= remaining[s]
    ensures Drawn(microbiome, weights, remaining[s := remaining[s] - k], tally[s := tally[s] + k])
    ensures Total(tally[s := tally[s] + k]) == Total(tally) + k
    ensures Total(Restrict(remaining[s := remaining[s] - k], Drawable(weights))) + k ==
            Total(Restrict(remaining, Drawable(weights)))
  {
    hide Total;
    TotalUpdate(tally, s, tally[s] + k);
    var drawable := Drawable(weights);
    RestrictUpdate(remaining, drawable, s, remaining[s] - k);
    TotalUpdate(Restrict(remaining, drawable), s, remaining[s] - k);
  }

  /** Updating a kept entry commutes with restricting. */
  lemma RestrictUpdate(cells: map<string, nat>, keep: set<string>, s: string, v: nat)
    requires s in cells && s in keep
    ensures Restrict(cells[s := v], keep) == Restrict(cells, keep)[s := v]
  {
  }

  /** Lines 147-153 (small) and 283-288 (large), as written: draw a species
      with positive weight, take between 0 and all of its remaining cells,
      and repeat until at least `target` cells are taken. `fuel` bounds the
      number of draws. When the drawable species hold fewer than `target`
      cells the target is out of reach (`TransferStalls`). */
  method Deplete(microbiome: map<string, nat>, weights: map<string, real>, target: int, fuel: nat)
    returns (outcome: TransferOutcome, remaining: map<string, nat>, tally: map<string, nat>)
    requires weights.Keys <= microbiome.Keys
    requires target > 0 ==> RealTotal(weights) > 0.0
    ensures outcome == Moved || outcome == OutOfDraws
    ensures Drawn(microbiome, weights, remaining, tally)
    ensures Total(microbiome) == Total(remaining) + Total(tally)
    ensures outcome == Moved ==> Total(tally) >= target
    ensures target <= 0 ==> outcome == Moved && remaining == microbiome && Total(tally) == 0
  {
    remaining := microbiome;
    tally := map s | s in microbiome :: 0;
    var transferred := 0;
    var draws := fuel;
    TotalSplit(microbiome, remaining, tally);
    outcome := Moved;
    while transferred < target
      invariant Drawn(microbiome, weights, remaining, tally)
      invariant transferred == Total(tally)
      invariant target <= 0 ==> remaining == microbiome
      decreases draws
    {
      if draws == 0 {
        outcome := OutOfDraws;
        break;
      }
      PositiveEntry(weights);
      var s :| s in Drawable(weights);
      var k :| 0 <= k <= remaining[s];
      TakeCells(microbiome, weights, remaining, tally, s, k);
      remaining := remaining[s := remaining[s] - k];
      tally := tally[s := tally[s] + k];
      transferred := transferred + k;
      draws := draws - 1;
    }
    TotalSplit(microbiome, remaining, tally);
  }

  /** Growth rates {A: 0.5, B: 0.0} give A the weight 0 and B the weight 1,
      so only B is ever drawn. With 10^10 cells of A, 10^9 of B and a draw
      of 10^3, the target is above every cell B has: whatever the number of
      draws, the loop as written never reaches its target. */
  method TransferStalls(fuel: nat) returns (outcome: TransferOutcome)
    ensures outcome == OutOfDraws
  {
    var microbiome: map<string, nat> := map["A" := 10000000000, "B" := 1000000000];
    var rates := map["A" := 0.5, "B" := 0.0];
    var weights := TransferWeights(rates, 0.5);
    assert weights == map["A" := 0.0, "B" := 1.0];
    RealTotalRemove(weights, "A");
    assert weights - {"A"} == map["B" := 1.0];
    RealTotalRemove(map["B" := 1.0], "B");
    assert map["B" := 1.0] - {"B"} == map[];
    var remaining, tally;
    outcome, remaining, tally := Deplete(microbiome, weights, 11000000000 - 1000, fuel);
    assert "A" !in Drawable(weights);
    TotalRemove(tally, "A");
    TotalRemove(tally - {"A"}, "B");
    assert tally - {"A"} - {"B"} == map[];
  }

  /** The loop of lines 147-153 corrected: it also ends once the drawable
      species have no cells left, so it never stops short of the target
      while a draw could still take cells, and never runs on when none
      can. */
  method DepleteDrawable(microbiome: map<string, nat>, weights: map<string, real>, target: int, fuel: nat)
    returns (outcome: TransferOutcome, remaining: map<string, nat>, tally: map<string, nat>)
    requires weights.Keys <= microbiome.Keys
    ensures outcome == Moved || outcome == OutOfDraws
    ensures Drawn(microbiome, weights, remaining, tally)
    ensures Total(microbiome) == Total(remaining) + Total(tally)
    ensures outcome == Moved ==>
              Total(tally) >= target || forall s :: s in Drawable(weights) ==> remaining[s] == 0
    ensures outcome == OutOfDraws ==>
              Total(tally) < target && exists s :: s in Drawable(weights) && remaining[s] > 0
    ensures target <= 0 ==> outcome == Moved && remaining == microbiome && Total(tally) == 0
  {
    remaining := microbiome;
    tally := map s | s in microbiome :: 0;
    TotalSplit(microbiome, remaining, tally);
    var drawable := SumCounts(Restrict(microbiome, Drawable(weights)));
    var goal := if target < drawable then target else drawable;
    var transferred := 0;
    var draws := fuel;
    outcome := Moved;
    while transferred < goal
      invariant Drawn(microbiome, weights, remaining, tally)
      invariant transferred == Total(tally)
      invariant Total(Restrict(remaining, Drawable(weights))) + transferred == drawable
      invariant target <= 0 ==> remaining == microbiome
      decreases draws
    {
      var left := Restrict(remaining, Drawable(weights));
      TotalPositive(left);
      var j :| j in left && left[j] > 0;
      if draws == 0 {
        assert j in Drawable(weights) && remaining[j] > 0;
        outcome := OutOfDraws;
        break;
      }
      var s :| s in Drawable(weights);
      var k :| 0 <= k <= remaining[s];
      TakeCells(microbiome, weights, remaining, tally, s, k);
      remaining := remaining[s := remaining[s] - k];
      tally := tally[s := tally[s] + k];
      transferred := transferred + k;
      draws := draws - 1;
    }
    TotalSplit(microbiome, remaining, tally);
    if outcome == Moved && transferred < target {
      forall s | s in Drawable(weights) ensures remaining[s] == 0 {
        TotalAtLeast(Restrict(remaining, Drawable(weights)), s);
      }
    }
  }

  /** The zero-sum growth table on which `transfer` raises `ZeroDivisionError`. */
  ghost predicate ZeroGrowthTotal(rates: map<string, real>)
  {
    rates != map[] && RealTotal(rates) == 0.0
  }

  /** The case where `random.choices` raises: the loop would run, but the
      weights have no positive total (fewer than two species). */
  ghost predicate NothingToDraw(rates: map<string, real>, cells: int, washoutDraw: int)
  {
    !ZeroGrowthTotal(rates) && cells > washoutDraw && |rates.Keys| < 2
  }

  /** The part of `transfer` both compartments share (lines 142-153 and
      279-288): the growth total, the weights, the target of total count
      minus `washoutDraw`, and the draws, with the corrected loop. The
      counts drawn are in `tally`, what is left in `remaining`. */
  method DrawCells(microbiome: map<string, nat>, rates: map<string, real>, washoutDraw: int, fuel: nat)
    returns (outcome: TransferOutcome, remaining: map<string, nat>, tally: map<string, nat>)
    requires rates.Keys <= microbiome.Keys
    ensures outcome == ZeroTotalGrowth <==> ZeroGrowthTotal(rates)
    ensures outcome == NoPositiveWeight <==> NothingToDraw(rates, Total(microbiome), washoutDraw)
    ensures outcome == Moved || outcome == OutOfDraws ==>
              Drawn(microbiome, DrawWeights(rates), remaining, tally) &&
              Total(microbiome) == Total(remaining) + Total(tally)
    ensures outcome == Moved ==>
              (Total(tally) >= Total(microbiome) - washoutDraw ||
               forall s :: s in Drawable(DrawWeights(rates)) ==> remaining[s] == 0) &&
              (Total(microbiome) <= washoutDraw ==> remaining == microbiome)
    ensures outcome == OutOfDraws ==>
              exists s :: s in Drawable(DrawWeights(rates)) && remaining[s] > 0
  {
    remaining, tally := microbiome, map[];
    var total := SumReals(rates);
    if rates != map[] && total == 0.0 {
      outcome := ZeroTotalGrowth;
      return;
    }
    var weights := if rates == map[] then map[] else TransferWeights(rates, total);
    assert weights == DrawWeights(rates);
    var weightTotal := SumReals(weights);
    if rates != map[] { WeightsSumToOneLess(rates); }
    var cells := SumCounts(microbiome);
    var target := cells - washoutDraw;
    if target > 0 && weightTotal <= 0.0 {
      outcome := NoPositiveWeight;
      return;
    }
    outcome, remaining, tally := DepleteDrawable(microbiome, weights, target, fuel);
  }

  /** A transfer that did not raise, from the community `before` to `after`
      with `tally` cells drawn per species: only drawable species lose
      cells, each count drops by its tally and zeros are pruned, cells are
      conserved, and the draws stop once at least the total count minus
      `washoutDraw` is taken or the drawable species are empty. */
  ghost predicate DrawnOut(before: map<string, nat>, after: map<string, nat>, tally: map<string, nat>,
                           rates: map<string, real>, washoutDraw: int)
  {
    tally.Keys == before.Keys &&
    (forall s :: s in tally ==> tally[s] <= before[s]) &&
    (forall s :: s in tally && s !in Drawable(DrawWeights(rates)) ==> tally[s] == 0) &&
    (forall s :: s in after <==> s in before && tally[s] < before[s]) &&
    (forall s :: s in after ==> after[s] == before[s] - tally[s]) &&
    Total(before) == Total(after) + Total(tally) &&
    (Total(tally) >= Total(before) - washoutDraw ||
     forall s :: s in Drawable(DrawWeights(rates)) ==> s !in after) &&
    (Total(before) <= washoutDraw ==> after == NonZero(before))
  }

  /** What one metabolism step makes of a compartment: the growth rate per
      resident species, the new pool and the compartment's own growth rate. */
  datatype MetabolismStep = MetabolismStep(rates: map<string, real>, pool: map<string, real>, growth: real)

  /** The step at `section` from the pool `before` with the community
      `cells`: every species' task runs against `before`, their summed
      deltas are merged with the zero-sum guard, and the host's solution
      updates the result. */
  ghost function Metabolism(section: Section, before: map<string, real>, cells: map<string, nat>,
                            host: ExchangeModel, hostBiomass: real,
                            provider: string -> Option<ExchangeModel>, round3: real -> real): (step: MetabolismStep)
    requires hostBiomass > 0.0
    ensures step.rates.Keys == cells.Keys
  {
    var outcomes := SpeciesOutcomes(section, before, cells, provider, round3);
    var afterSpecies := GuardedMerge(before, CombineOutcomes(outcomes));
    MetabolismStep(RatesFrom(cells, outcomes),
                   HostUpdate(section, afterSpecies, host, hostBiomass, round3),
                   HostSolution(section, afterSpecies, host, hostBiomass, round3).objective)
  }

  class LargeIntestine {
    var metabolome: map<string, real>
    var microbiome: map<string, nat>
    var growthRate: real
    const model: ExchangeModel

    /** Hours between intakes, hours between outputs, and the host's dry weight (gDCW). */
    const inputFrequency: nat := 4
    const outputFrequency: nat := 24
    const biomass: real := 370.0

    constructor (model: ExchangeModel)
      ensures metabolome == map[] && microbiome == map[] && growthRate == 0.0
      ensures this.model == model
    {
      metabolome := map[];
      microbiome := map[];
      growthRate := 0.0;
      this.model := model;
    }

    /** Additive merge: every incoming amount is added to the present one,
        pool entries not in the input stay. */
    method AddToMetabolome(metabolites: map<string, real>)
      modifies this`metabolome
      ensures metabolome == AddAmounts(old(metabolome), metabolites)
    {
      metabolome := MergeAmounts(metabolome, metabolites);
    }

    /** Additive merge of cell counts. */
    method AddToMicrobiome(microbes: map<string, nat>)
      modifies this`microbiome
      ensures microbiome == AddCounts(old(microbiome), microbes)
    {
      microbiome := MergeCounts(microbiome, microbes);
    }

    /** One 20-hour step: every species' task against a snapshot of the pool,
        the guarded merge of their summed deltas, then the host's own step.
        The community's counts are not changed (the tasks' growth updates
        happen in worker processes). */
    method Metabolise(provider: string -> Option<ExchangeModel>, round3: real -> real)
      returns (rates: map<string, real>)
      modifies this`metabolome, this`growthRate
      ensures MetabolismStep(rates, metabolome, growthRate) ==
                Metabolism(Large, old(metabolome), microbiome, model, biomass, provider, round3)
      ensures rates.Keys == microbiome.Keys
    {
      var combined;
      rates, combined := FanOut(Large, metabolome, microbiome, provider, round3);
      metabolome := ApplySpeciesDeltas(metabolome, combined);
      growthRate, metabolome := HostStep(Large, metabolome, model, biomass, round3);
    }

    /** Washout: the pool is emptied and cells are drawn out until at least
        the total count minus `washoutDraw` are gone; zero counts are pruned.
        `washoutDraw` stands for a uniform draw between 10^8 and 10^10. */
    method Transfer(rates: map<string, real>, washoutDraw: int, fuel: nat)
      returns (outcome: TransferOutcome, tally: map<string, nat>)
      requires rates.Keys <= microbiome.Keys
      requires 100000000 <= washoutDraw <= 10000000000
      modifies this`metabolome, this`microbiome
      ensures metabolome == map[]
      ensures outcome == ZeroTotalGrowth <==> ZeroGrowthTotal(rates)
      ensures outcome == NoPositiveWeight <==> NothingToDraw(rates, Total(old(microbiome)), washoutDraw)
      ensures outcome != Moved ==> microbiome == old(microbiome)
      ensures outcome == Moved ==> DrawnOut(old(microbiome), microbiome, tally, rates, washoutDraw)
    {
      metabolome := map[];
      var remaining;
      outcome, remaining, tally := DrawCells(microbiome, rates, washoutDraw, fuel);
      if outcome == Moved {
        NonZeroTotal(remaining);
        microbiome := NonZero(remaining);
      }
    }
  }

  class SmallIntestine {
    var metabolome: map<string, real>
    var microbiome: map<string, nat>
    var growthRate: real
    const model: ExchangeModel

    /** Hours between intakes, hours between outputs, and the host's dry weight (gDCW). */
    const inputFrequency: nat := 24
    const outputFrequency: nat := 4
    const biomass: real := 640.0

    constructor (model: ExchangeModel)
      ensures metabolome == map[] && microbiome == map[] && growthRate == 0.0
      ensures this.model == model
    {
      metabolome := map[];
      microbiome := map[];
      growthRate := 0.0;
      this.model := model;
    }

    /** Intake replaces the whole pool. */
    method AddToMetabolome(metabolites: map<string, real>)
      modifies this`metabolome
      ensures metabolome == metabolites
    {
      metabolome := metabolites;
    }

    /** Additive merge of cell counts. */
    method AddToMicrobiome(microbes: map<string, nat>)
      modifies this`microbiome
      ensures microbiome == AddCounts(old(microbiome), microbes)
    {
      microbiome := MergeCounts(microbiome, microbes);
    }

    /** One 4-hour step, as in the large intestine. */
    method Metabolise(provider: string -> Option<ExchangeModel>, round3: real -> real)
      returns (rates: map<string, real>)
      modifies this`metabolome, this`growthRate
      ensures MetabolismStep(rates, metabolome, growthRate) ==
                Metabolism(Small, old(metabolome), microbiome, model, biomass, provider, round3)
      ensures rates.Keys == microbiome.Keys
    {
      var combined;
      rates, combined := FanOut(Small, metabolome, microbiome, provider, round3);
      metabolome := ApplySpeciesDeltas(metabolome, combined);
      growthRate, metabolome := HostStep(Small, metabolome, model, biomass, round3);
    }

    /** The pool goes to the large intestine (added to its pool) and this one
        is emptied; then cells are drawn until at least the total count minus
        `washoutDraw` are taken, the non-zero tallies are added to the large
        intestine and zero counts are pruned here. `washoutDraw` stands for
        a uniform draw between 10^3 and 10^8. */
    method Transfer(large: LargeIntestine, rates: map<string, real>, washoutDraw: int, fuel: nat)
      returns (outcome: TransferOutcome, tally: map<string, nat>)
      requires rates.Keys <= microbiome.Keys
      requires 1000 <= washoutDraw <= 100000000
      modifies this`metabolome, this`microbiome, large`metabolome, large`microbiome
      ensures metabolome == map[]
      ensures large.metabolome == AddAmounts(old(large.metabolome), old(metabolome))
      ensures outcome == ZeroTotalGrowth <==> ZeroGrowthTotal(rates)
      ensures outcome == NoPositiveWeight <==> NothingToDraw(rates, Total(old(microbiome)), washoutDraw)
      ensures outcome != Moved ==> microbiome == old(microbiome) && large.microbiome == old(large.microbiome)
      ensures outcome == Moved ==>
                DrawnOut(old(microbiome), microbiome, tally, rates, washoutDraw) &&
                large.microbiome == AddCounts(old(large.microbiome), NonZero(tally)) &&
                Total(large.microbiome) + Total(microbiome) == Total(old(large.microbiome)) + Total(old(microbiome))
    {
      large.AddToMetabolome(metabolome);
      metabolome := map[];
      var remaining;
      outcome, remaining, tally := DrawCells(microbiome, rates, washoutDraw, fuel);
      if outcome == Moved {
        NonZeroTotal(remaining);
        NonZeroTotal(tally);
        AddCountsTotal(large.microbiome, NonZero(tally));
        large.AddToMicrobiome(NonZero(tally));
        microbiome := NonZero(remaining);
      }
    }
  }
}
