/** The simulation clock (`simulate`): an integer hour `t` that starts at 0
    and, while it is below the duration, runs three blocks, each guarded by
    a modular test of `t`: intake and small-intestine metabolism (advancing
    `t` by 4), transfer and large-intestine metabolism (advancing `t` by
    20), and large-intestine washout.

    The diet, gas and microbe samplers, the two washout draws and the
    per-species model loader are supplied in an `Environment`, indexed by
    iteration; the species and cell counts drawn within a transfer are
    free choices of the transfer loop. Each CSV record is an event carrying the hour and
    the values written. */
module Clock {
  import opened Wrappers
  import opened Tables
  import opened Exchange
  import opened Pools
  import opened Intestines

  datatype Environment = Environment(
    diet: nat -> map<string, real>,
    gases: nat -> map<string, real>,
    inoculum: nat -> map<string, nat>,
    smallModel: ExchangeModel,
    largeModel: ExchangeModel,
    provider: string -> Option<ExchangeModel>,
    round3: real -> real,
    smallDraw: nat -> int,
    largeDraw: nat -> int,
    fuel: nat)

  datatype Event =
    | Intake(hour: int, pool: map<string, real>, microbes: map<string, nat>)
    | SmallMetabolised(rates: map<string, real>)
    | SmallRecorded(hour: int, metabolome: map<string, real>, microbiome: map<string, nat>, growth: real)
    | SmallTransfer(hour: int, rates: map<string, real>, outcome: TransferOutcome)
    | LargeMetabolised(rates: map<string, real>)
    | LargeRecorded(hour: int, metabolome: map<string, real>, microbiome: map<string, nat>, growth: real)
    | LargeWashout(hour: int, rates: map<string, real>, outcome: TransferOutcome)

  /** The merged intake: the sampled diet overlaid with the sampled gases,
      a gas overriding a diet entry with the same key. */
  function IntakePool(diet: map<string, real>, gases: map<string, real>): (pool: map<string, real>)
  {
    diet + gases
  }

  lemma IntakeGasesWin(diet: map<string, real>, gases: map<string, real>)
    ensures IntakePool(diet, gases).Keys == diet.Keys + gases.Keys
    ensures forall m :: m in gases ==> IntakePool(diet, gases)[m] == gases[m]
    ensures forall m :: m in diet && m !in gases ==> IntakePool(diet, gases)[m] == diet[m]
  {
  }

  /** Number of iterations for a duration: ceil(duration / 24), none when the
      duration is not positive. */
  function Iterations(duration: int): (n: nat)
  {
    if duration <= 0 then 0 else (duration + 23) / 24
  }

  lemma IterationsBound(duration: int, n: nat)
    requires n == 0 || 24 * (n - 1) < duration
    requires 24 * n >= duration
    ensures n == Iterations(duration)
  {
  }

  /** The events of iteration `k` up to the large-intestine record: the
      intake at hour 24k, the small-intestine record at 24k + 4 after
      metabolism, the transfer at 24k + 4 with that iteration's
      small-intestine rates and, unless the transfer raised, the
      large-intestine rates and record at 24k + 24. Each recorded community
      has as keys exactly the species of the rate table returned just
      before. */
  ghost predicate OpeningFits(opening: seq<Event>, k: nat, env: Environment)
  {
    (|opening| == 4 || |opening| == 6) &&
    opening[0] == Intake(24 * k, IntakePool(env.diet(k), env.gases(k)), env.inoculum(k)) &&
    opening[1].SmallMetabolised? &&
    opening[2].SmallRecorded? && opening[2].hour == 24 * k + 4 &&
    opening[2].microbiome.Keys == opening[1].rates.Keys &&
    opening[3].SmallTransfer? && opening[3].hour == 24 * k + 4 && opening[3].rates == opening[1].rates &&
    (|opening| == 4 <==> opening[3].outcome != Moved) &&
    (|opening| == 6 ==>
       opening[4].LargeMetabolised? &&
       opening[5].LargeRecorded? && opening[5].hour == 24 * k + 24 &&
       opening[5].microbiome.Keys == opening[4].rates.Keys)
  }

  /** The events of iteration `k` in order: the opening and, when the
      transfer did not raise, the washout at 24k + 24 with that iteration's
      large-intestine rates. */
  ghost predicate RoundFits(round: seq<Event>, k: nat, env: Environment)
  {
    (|round| == 4 && OpeningFits(round, k, env)) ||
    (|round| == 7 && OpeningFits(round[..6], k, env) &&
     round[6].LargeWashout? && round[6].hour == 24 * k + 24 && round[6].rates == round[4].rates)
  }

  /** The round ended with a transfer or washout that raised. */
  predicate Aborts(round: seq<Event>)
  {
    |round| == 4 || (|round| == 7 && round[6].LargeWashout? && round[6].outcome != Moved)
  }

  /** Lines 143-153: intake (gases over diet) replaces the small
      intestine's pool, the sampled microbes join its community, and it
      metabolises from the intake. */
  method SmallBlock(small: SmallIntestine, k: nat, env: Environment) returns (rates: map<string, real>)
    modifies small`metabolome, small`microbiome, small`growthRate
    ensures small.microbiome == AddCounts(old(small.microbiome), env.inoculum(k))
    ensures MetabolismStep(rates, small.metabolome, small.growthRate) ==
              Metabolism(Small, IntakePool(env.diet(k), env.gases(k)), small.microbiome, small.model, small.biomass,
                         env.provider, env.round3)
    ensures rates.Keys == small.microbiome.Keys
  {
    small.AddToMetabolome(IntakePool(env.diet(k), env.gases(k)));
    small.AddToMicrobiome(env.inoculum(k));
    rates := small.Metabolise(env.provider, env.round3);
  }

  /** Lines 166-169: the transfer, then, if it did not raise, the large
      intestine metabolises from its pool with the small intestine's added. */
  method LargeBlock(small: SmallIntestine, large: LargeIntestine, smallRates: map<string, real>,
                    k: nat, env: Environment)
    returns (outcome: TransferOutcome, tally: map<string, nat>, largeRates: map<string, real>)
    requires smallRates.Keys <= small.microbiome.Keys
    requires 1000 <= env.smallDraw(k) <= 100000000
    modifies small`metabolome, small`microbiome, large`metabolome, large`microbiome, large`growthRate
    ensures small.metabolome == map[]
    ensures outcome == ZeroTotalGrowth <==> ZeroGrowthTotal(smallRates)
    ensures outcome == NoPositiveWeight <==>
              NothingToDraw(smallRates, Total(old(small.microbiome)), env.smallDraw(k))
    ensures outcome != Moved ==>
              small.microbiome == old(small.microbiome) && large.microbiome == old(large.microbiome) &&
              large.metabolome == AddAmounts(old(large.metabolome), old(small.metabolome)) &&
              large.growthRate == old(large.growthRate)
    ensures outcome == Moved ==>
              DrawnOut(old(small.microbiome), small.microbiome, tally, smallRates, env.smallDraw(k)) &&
              large.microbiome == AddCounts(old(large.microbiome), NonZero(tally)) &&
              Total(large.microbiome) + Total(small.microbiome) ==
                Total(old(large.microbiome)) + Total(old(small.microbiome)) &&
              MetabolismStep(largeRates, large.metabolome, large.growthRate) ==
                Metabolism(Large, AddAmounts(old(large.metabolome), old(small.metabolome)), large.microbiome,
                           large.model, large.biomass, env.provider, env.round3) &&
              largeRates.Keys == large.microbiome.Keys
  {
    hide Accumulate, AddAmounts, AddCounts, AmountAt, Capped, CellBiomass, CombineInOrder, CombineOutcomes, Completions, CountAt, DeltaOf, DrawWeights, Drawable, Drawn, DrawnOut, ExchangeAmounts, FanOutState, GuardedMerge, HostBounds, HostLowerBound, HostMerge, HostSolution, HostUpdate, KeysOf, Metabolism, NonZero, NothingToDraw, Overwrite, RatesFrom, RealTotal, Restrict, SpeciesBounds, SpeciesLowerBound, SpeciesOutcomes, SpeciesTask, StepHours, SumFor, Total, TransferWeights, ZeroGrowthTotal;
    outcome, tally := small.Transfer(large, smallRates, env.smallDraw(k), env.fuel);
    largeRates := map[];
    if outcome == Moved {
      largeRates := large.Metabolise(env.provider, env.round3);
    }
  }

  /** The first two blocks of a pass, entered at hour `t` = 24k: both
      modular tests hold in turn, so both blocks run unless the transfer
      raises. The small-intestine record holds the pool and growth that
      metabolism makes of the intake; the cells the transfer draws out of
      the recorded small community are those the large community gains;
      the large-intestine record holds what metabolism makes of its pool
      with the small one added, and is the large intestine's state. */
  method Opening(small: SmallIntestine, large: LargeIntestine, t0: int, k: nat, env: Environment)
    returns (opening: seq<Event>, t: int)
    requires t0 == 24 * k
    requires 1000 <= env.smallDraw(k) <= 100000000
    modifies small`metabolome, small`microbiome, small`growthRate,
             large`metabolome, large`microbiome, large`growthRate
    ensures OpeningFits(opening, k, env)
    ensures t == if |opening| == 4 then t0 + 4 else t0 + 24
    ensures opening[2].microbiome == AddCounts(old(small.microbiome), env.inoculum(k))
    ensures MetabolismStep(opening[1].rates, opening[2].metabolome, opening[2].growth) ==
              Metabolism(Small, IntakePool(env.diet(k), env.gases(k)), opening[2].microbiome, small.model,
                         small.biomass, env.provider, env.round3)
    ensures small.metabolome == map[]
    ensures opening[3].outcome == ZeroTotalGrowth <==> ZeroGrowthTotal(opening[1].rates)
    ensures opening[3].outcome == NoPositiveWeight <==>
              NothingToDraw(opening[1].rates, Total(opening[2].microbiome), env.smallDraw(k))
    ensures |opening| == 4 ==>
              small.microbiome == opening[2].microbiome && large.microbiome == old(large.microbiome) &&
              large.metabolome == AddAmounts(old(large.metabolome), opening[2].metabolome)
    ensures |opening| == 6 ==>
              (exists tally :: DrawnOut(opening[2].microbiome, small.microbiome, tally, opening[1].rates,
                                        env.smallDraw(k)) &&
                               opening[5].microbiome == AddCounts(old(large.microbiome), NonZero(tally))) &&
              Total(opening[5].microbiome) + Total(small.microbiome) ==
                Total(old(large.microbiome)) + Total(opening[2].microbiome) &&
              MetabolismStep(opening[4].rates, opening[5].metabolome, opening[5].growth) ==
                Metabolism(Large, AddAmounts(old(large.metabolome), opening[2].metabolome), opening[5].microbiome,
                           large.model, large.biomass, env.provider, env.round3) &&
              large.microbiome == opening[5].microbiome && large.metabolome == opening[5].metabolome
  {
    hide Accumulate, AddAmounts, AddCounts, AmountAt, Capped, CellBiomass, CombineInOrder, CombineOutcomes, Completions, CountAt, DeltaOf, DrawWeights, Drawable, Drawn, DrawnOut, ExchangeAmounts, FanOutState, GuardedMerge, HostBounds, HostLowerBound, HostMerge, HostSolution, HostUpdate, KeysOf, Metabolism, NonZero, NothingToDraw, Overwrite, RatesFrom, RealTotal, Restrict, SpeciesBounds, SpeciesLowerBound, SpeciesOutcomes, SpeciesTask, StepHours, SumFor, Total, TransferWeights, ZeroGrowthTotal;
    t := t0;
    var smallRates: map<string, real> := map[];
    opening := [];

    assert t % small.inputFrequency == 0;
    if t % small.inputFrequency == 0 {
      smallRates := SmallBlock(small, k, env);
      t := t + small.outputFrequency;
      opening := [Intake(24 * k, IntakePool(env.diet(k), env.gases(k)), env.inoculum(k)),
                  SmallMetabolised(smallRates),
                  SmallRecorded(t, small.metabolome, small.microbiome, small.growthRate)];
    }

    assert t == 24 * k + 4 && t % small.inputFrequency == 4;
    if t % small.inputFrequency == 4 {
      ghost var recorded := small.microbiome;
      var outcome, tally, largeRates := LargeBlock(small, large, smallRates, k, env);
      opening := opening + [SmallTransfer(t, smallRates, outcome)];
      if outcome == Moved {
        assert DrawnOut(recorded, small.microbiome, tally, smallRates, env.smallDraw(k));
        t := t + large.outputFrequency - 4;
        opening := opening + [LargeMetabolised(largeRates),
                              LargeRecorded(t, large.metabolome, large.microbiome, large.growthRate)];
      }
    }
  }

  /** One pass of the loop body, entered at hour `t` = 24k: the opening,
      then, unless the transfer raised, the washout, which empties the
      large pool and draws out of the recorded large community. */
  method Iteration(small: SmallIntestine, large: LargeIntestine, t0: int, k: nat, env: Environment)
    returns (round: seq<Event>, t: int)
    requires t0 == 24 * k
    requires 1000 <= env.smallDraw(k) <= 100000000
    requires 100000000 <= env.largeDraw(k) <= 10000000000
    modifies small`metabolome, small`microbiome, small`growthRate,
             large`metabolome, large`microbiome, large`growthRate
    ensures RoundFits(round, k, env)
    ensures !Aborts(round) ==> t == t0 + 24
    ensures round[2].microbiome == AddCounts(old(small.microbiome), env.inoculum(k))
    ensures MetabolismStep(round[1].rates, round[2].metabolome, round[2].growth) ==
              Metabolism(Small, IntakePool(env.diet(k), env.gases(k)), round[2].microbiome, small.model,
                         small.biomass, env.provider, env.round3)
    ensures small.metabolome == map[]
    ensures round[3].outcome == ZeroTotalGrowth <==> ZeroGrowthTotal(round[1].rates)
    ensures round[3].outcome == NoPositiveWeight <==>
              NothingToDraw(round[1].rates, Total(round[2].microbiome), env.smallDraw(k))
    ensures |round| == 4 ==>
              small.microbiome == round[2].microbiome && large.microbiome == old(large.microbiome) &&
              large.metabolome == AddAmounts(old(large.metabolome), round[2].metabolome)
    ensures |round| == 7 ==>
              (exists tally :: DrawnOut(round[2].microbiome, small.microbiome, tally, round[1].rates, env.smallDraw(k)) &&
                               round[5].microbiome == AddCounts(old(large.microbiome), NonZero(tally))) &&
              Total(round[5].microbiome) + Total(small.microbiome) ==
                Total(old(large.microbiome)) + Total(round[2].microbiome) &&
              MetabolismStep(round[4].rates, round[5].metabolome, round[5].growth) ==
                Metabolism(Large, AddAmounts(old(large.metabolome), round[2].metabolome), round[5].microbiome,
                           large.model, large.biomass, env.provider, env.round3)
    ensures |round| == 7 ==>
              large.metabolome == map[] &&
              (round[6].outcome == ZeroTotalGrowth <==> ZeroGrowthTotal(round[4].rates)) &&
              (round[6].outcome == NoPositiveWeight <==>
                 NothingToDraw(round[4].rates, Total(round[5].microbiome), env.largeDraw(k))) &&
              (round[6].outcome != Moved ==> large.microbiome == round[5].microbiome) &&
              (round[6].outcome == Moved ==>
                 exists tally :: DrawnOut(round[5].microbiome, large.microbiome, tally, round[4].rates, env.largeDraw(k)))
  {
    hide Accumulate, AddAmounts, AddCounts, AmountAt, Capped, CellBiomass, CombineInOrder, CombineOutcomes, Completions, CountAt, DeltaOf, DrawWeights, Drawable, Drawn, DrawnOut, ExchangeAmounts, FanOutState, GuardedMerge, HostBounds, HostLowerBound, HostMerge, HostSolution, HostUpdate, KeysOf, Metabolism, NonZero, NothingToDraw, Overwrite, RatesFrom, RealTotal, Restrict, SpeciesBounds, SpeciesLowerBound, SpeciesOutcomes, SpeciesTask, StepHours, SumFor, Total, TransferWeights, ZeroGrowthTotal;
    round, t := Opening(small, large, t0, k, env);
    if |round| == 4 {
      return;
    }

    assert t == 24 * k + 24 && t % large.outputFrequency == 0;
    if t % large.outputFrequency == 0 {
      var largeRates := round[4].rates;
      ghost var recorded := large.microbiome;
      var outcome, tally := large.Transfer(largeRates, env.largeDraw(k), env.fuel);
      ghost var opening := round;
      round := round + [LargeWashout(t, largeRates, outcome)];
      assert round[..6] == opening;
      if outcome == Moved {
        assert DrawnOut(recorded, large.microbiome, tally, largeRates, env.largeDraw(k));
      }
    }
  }

  /** The `while t < duration` loop of `simulate`. */
  method Simulate(duration: int, env: Environment) returns (rounds: seq<seq<Event>>, aborted: bool)
    requires forall k :: 1000 <= env.smallDraw(k) <= 100000000
    requires forall k :: 100000000 <= env.largeDraw(k) <= 10000000000
    ensures forall k :: 0 <= k < |rounds| ==> RoundFits(rounds[k], k, env)
    ensures forall k :: 0 <= k < |rounds| - 1 ==> !Aborts(rounds[k])
    ensures aborted <==> |rounds| > 0 && Aborts(rounds[|rounds| - 1])
    ensures !aborted ==> |rounds| == Iterations(duration)
    ensures |rounds| <= Iterations(duration)
  {
    hide RoundFits, OpeningFits, Accumulate, AddAmounts, AddCounts, AmountAt, Capped, CellBiomass, CombineInOrder, CombineOutcomes, Completions, CountAt, DeltaOf, DrawWeights, Drawable, Drawn, DrawnOut, ExchangeAmounts, FanOutState, GuardedMerge, HostBounds, HostLowerBound, HostMerge, HostSolution, HostUpdate, KeysOf, Metabolism, NonZero, NothingToDraw, Overwrite, RatesFrom, RealTotal, Restrict, SpeciesBounds, SpeciesLowerBound, SpeciesOutcomes, SpeciesTask, StepHours, SumFor, Total, TransferWeights, ZeroGrowthTotal;
    var small := new SmallIntestine(env.smallModel);
    var large := new LargeIntestine(env.largeModel);
    var t := 0;
    var k: nat := 0;
    rounds := [];
    aborted := false;
    while t < duration
      invariant t == 24 * k && |rounds| == k
      invariant k == 0 || 24 * (k - 1) < duration
      invariant forall j :: 0 <= j < k ==> RoundFits(rounds[j], j, env)
      invariant forall j :: 0 <= j < k ==> !Aborts(rounds[j])
      decreases duration - t
    {
      var round;
      round, t := Iteration(small, large, t, k, env);
      rounds := rounds + [round];
      if Aborts(round) {
        aborted := true;
        return;
      }
      k := k + 1;
    }
    IterationsBound(duration, k);
  }
}
