/** One species' metabolic step (`process_species` of both compartments) and
    the exchange lower-bound policy shared by the species tasks and the
    compartment's own ("host") optimisation.

    The flux-balance solver is external: an exchange model is the list of the
    metabolites its exchange reactions carry (the first metabolite of each
    reaction) and an `optimize` function from lower bounds to a solution.
    Python's `round(x, 3)` is the parameter `round3`. */
module Exchange {
  import opened Wrappers
  import opened Tables

  /** Every exchange keeps at least this uptake capacity: bounds are `<= -1e-6`. */
  const MinUptake: real := 0.000001

  /** Volume (cm^3) and dry weight per volume (gDCW/cm^3) of one bacterial cell. */
  const CellVolume: real := 0.000000000001
  const DryWeightPerVolume: real := 0.33

  /** Dry weight (gDCW) of `count` cells. */
  function CellBiomass(count: nat): (b: real)
    ensures b >= 0.0
    ensures b == 0.0 <==> count == 0
  {
    count as real * CellVolume * DryWeightPerVolume
  }

  /** The two compartments: the small intestine steps 4 hours
      (`output_frequency`), the large intestine 20 hours
      (`output_frequency - input_frequency` = 24 - 4). */
  datatype Section = Small | Large

  function StepHours(section: Section): (h: nat)
    ensures h > 0
  {
    match section
    case Small => 4
    case Large => 24 - 4
  }

  /** The smaller of -1e-6 and the rounded value. */
  function Capped(rounded: real): (lb: real)
    ensures lb <= -MinUptake && lb <= rounded
    ensures lb == -MinUptake || lb == rounded
  {
    if rounded < -MinUptake then rounded else -MinUptake
  }

  /** Lower bound a species task sets on an exchange of metabolite `met`:
      its biomass share of the snapshot's amount, spread over its biomass and
      the step, rounded, capped at -1e-6; -1e-6 when `met` is absent. The
      species' own biomass cancels out: the bound is the amount spread over
      the whole community's biomass. */
  function SpeciesLowerBound(snapshot: map<string, real>, met: string, biomass: real,
                             totalBiomass: real, step: nat, round3: real -> real): (lb: real)
    requires biomass != 0.0 && totalBiomass != 0.0 && step > 0
    ensures lb <= -MinUptake
    ensures met !in snapshot ==> lb == -MinUptake
    ensures met in snapshot ==>
              var rounded := round3(-snapshot[met] / (totalBiomass * step as real));
              lb <= rounded && (lb == -MinUptake || lb == rounded)
  {
    if met in snapshot then
      var share := snapshot[met] * (biomass / totalBiomass);
      var perGram := -share / (biomass * step as real);
      ShareCancels(snapshot[met], biomass, totalBiomass, step as real);
      assert perGram == -snapshot[met] / (totalBiomass * step as real);
      Capped(round3(perGram))
    else
      -MinUptake
  }

  lemma ShareCancels(availability: real, biomass: real, totalBiomass: real, step: real)
    requires biomass != 0.0 && totalBiomass != 0.0 && step != 0.0
    ensures -(availability * (biomass / totalBiomass)) / (biomass * step)
            == -availability / (totalBiomass * step)
  {
    var q := biomass / totalBiomass;
    assert q * totalBiomass == biomass;
    calc {
      -(availability * q) / (biomass * step);
      { assert biomass * step == q * (totalBiomass * step); }
      -(availability * q) / (q * (totalBiomass * step));
      -availability / (totalBiomass * step);
    }
  }

  /** Lower bound the compartment sets on its own exchange of `met`: the
      pool's amount spread over the compartment's fixed biomass and the step,
      rounded, capped at -1e-6; -1e-6 when `met` is absent from the pool. */
  function HostLowerBound(pool: map<string, real>, met: string, hostBiomass: real,
                          step: nat, round3: real -> real): (lb: real)
    requires hostBiomass > 0.0 && step > 0
    ensures lb <= -MinUptake
    ensures met !in pool ==> lb == -MinUptake
    ensures met in pool ==>
              var rounded := round3(-pool[met] / (hostBiomass * step as real));
              lb <= rounded && (lb == -MinUptake || lb == rounded)
  {
    if met in pool then Capped(round3(-pool[met] / (hostBiomass * step as real)))
    else -MinUptake
  }

  /** Result of the external optimiser for given lower bounds: the objective
      value (a growth rate, 1/hour) and the flux through the i-th exchange. */
  datatype Solution = Solution(objective: real, flux: nat -> real)

  /** A metabolic model as the simulation sees it. */
  datatype ExchangeModel = ExchangeModel(exchanges: seq<string>, optimize: seq<real> -> Solution)

  /** What the parent process receives from one species task: a growth rate
      and the per-metabolite exchange delta, or nothing when the task raised
      an exception that the compartment's `metabolise` swallowed. */
  datatype TaskOutcome = Failed | Finished(rate: real, delta: map<string, real>)

  function DeltaOf(o: TaskOutcome): map<string, real>
  {
    if o.Finished? then o.delta else map[]
  }

  /** The metabolites named by a list of (metabolite, amount) pairs. */
  function KeysOf(pairs: seq<(string, real)>): set<string>
  {
    set i | 0 <= i < |pairs| :: pairs[i].0
  }

  /** Sum of the amounts paired with `met`. */
  function SumFor(pairs: seq<(string, real)>, met: string): real
  {
    if pairs == [] then 0.0
    else SumFor(pairs[..|pairs| - 1], met) + (if pairs[|pairs| - 1].0 == met then pairs[|pairs| - 1].1 else 0.0)
  }

  /** Amounts stored per metabolite in list order: a later pair for the same
      metabolite overwrites an earlier one (small intestine). */
  function Overwrite(pairs: seq<(string, real)>): (d: map<string, real>)
    ensures d.Keys == KeysOf(pairs)
  {
    if pairs == [] then map[]
    else
      var prefix := pairs[..|pairs| - 1];
      assert KeysOf(pairs) == KeysOf(prefix) + {pairs[|pairs| - 1].0} by {
        forall m | m in KeysOf(pairs) ensures m in KeysOf(prefix) + {pairs[|pairs| - 1].0} {
          var i :| 0 <= i < |pairs| && pairs[i].0 == m;
          if i < |pairs| - 1 { assert prefix[i] == pairs[i]; }
        }
      }
      Overwrite(prefix)[pairs[|pairs| - 1].0 := pairs[|pairs| - 1].1]
  }

  /** Amounts added per metabolite in list order, from 0: pairs for
      the same metabolite add up (large intestine). */
  function Accumulate(pairs: seq<(string, real)>): (d: map<string, real>)
  {
    if pairs == [] then map[]
    else
      var prev := Accumulate(pairs[..|pairs| - 1]);
      var last := pairs[|pairs| - 1];
      prev[last.0 := AmountAt(prev, last.0) + last.1]
  }

  /** Overwriting keeps, for each metabolite, the amount of its last pair. */
  lemma {:induction false} OverwriteLastWins(pairs: seq<(string, real)>, i: nat)
    requires i < |pairs|
    requires forall j :: i < j < |pairs| ==> pairs[j].0 != pairs[i].0
    ensures Overwrite(pairs)[pairs[i].0] == pairs[i].1
  {
    if i < |pairs| - 1 {
      var prefix := pairs[..|pairs| - 1];
      assert prefix[i] == pairs[i];
      OverwriteLastWins(prefix, i);
    }
  }

  /** Accumulating yields, for each metabolite named, the sum of its amounts. */
  lemma {:induction false} AccumulateSums(pairs: seq<(string, real)>)
    ensures Accumulate(pairs).Keys == KeysOf(pairs)
    ensures forall m :: m in KeysOf(pairs) ==> Accumulate(pairs)[m] == SumFor(pairs, m)
  {
    if pairs != [] {
      var prefix := pairs[..|pairs| - 1];
      AccumulateSums(prefix);
      assert KeysOf(pairs) == KeysOf(prefix) + {pairs[|pairs| - 1].0} by {
        forall m | m in KeysOf(pairs) ensures m in KeysOf(prefix) + {pairs[|pairs| - 1].0} {
          var i :| 0 <= i < |pairs| && pairs[i].0 == m;
          if i < |pairs| - 1 { assert prefix[i] == pairs[i]; }
        }
      }
      forall m | m in KeysOf(pairs) ensures Accumulate(pairs)[m] == SumFor(pairs, m) {
        if m !in KeysOf(prefix) {
          SumForAbsent(prefix, m);
        }
      }
    }
  }

  lemma {:induction false} SumForAbsent(pairs: seq<(string, real)>, met: string)
    requires met !in KeysOf(pairs)
    ensures SumFor(pairs, met) == 0.0
  {
    if pairs != [] {
      var prefix := pairs[..|pairs| - 1];
      assert KeysOf(prefix) <= KeysOf(pairs) by {
        forall m | m in KeysOf(prefix) ensures m in KeysOf(pairs) {
          var i :| 0 <= i < |prefix| && prefix[i].0 == m;
          assert pairs[i] == prefix[i];
        }
      }
      SumForAbsent(prefix, met);
    }
  }

  /** Lower bounds a species task sets on its model's exchanges. */
  function SpeciesBounds(snapshot: map<string, real>, mets: seq<string>, biomass: real,
                         totalBiomass: real, step: nat, round3: real -> real): (bounds: seq<real>)
    requires biomass != 0.0 && totalBiomass != 0.0 && step > 0
    ensures |bounds| == |mets|
    ensures forall i :: 0 <= i < |mets| ==> bounds[i] <= -MinUptake
  {
    seq(|mets|, i requires 0 <= i < |mets| =>
      SpeciesLowerBound(snapshot, mets[i], biomass, totalBiomass, step, round3))
  }

  /** Lower bounds the compartment sets on its own model's exchanges. */
  function HostBounds(pool: map<string, real>, mets: seq<string>, hostBiomass: real,
                      step: nat, round3: real -> real): (bounds: seq<real>)
    requires hostBiomass > 0.0 && step > 0
    ensures |bounds| == |mets|
    ensures forall i :: 0 <= i < |mets| ==> bounds[i] <= -MinUptake
  {
    seq(|mets|, i requires 0 <= i < |mets| =>
      HostLowerBound(pool, mets[i], hostBiomass, step, round3))
  }

  /** Per exchange, the metabolite and `flux * biomass * step`. */
  function ExchangeAmounts(mets: seq<string>, solution: Solution, biomass: real, step: nat): (pairs: seq<(string, real)>)
    ensures |pairs| == |mets|
    ensures forall i :: 0 <= i < |mets| ==> pairs[i].0 == mets[i]
    ensures forall i :: 0 <= i < |mets| ==> pairs[i].1 == solution.flux(i) * biomass * step as real
  {
    seq(|mets|, i requires 0 <= i < |mets| => (mets[i], solution.flux(i) * biomass * step as real))
  }

  /** `process_species`: loads the species' model (`None` when the load timed
      out or failed), sets the exchange bounds, optimises, and returns the
      growth rate with the exchange delta. Dividing by a zero biomass raises
      an exception, as does a missing model. The small intestine catches
      every exception and returns rate 0 and an empty delta; the large
      intestine lets it reach `metabolise`, which skips that task. */
  function SpeciesTask(section: Section, snapshot: map<string, real>, model: Option<ExchangeModel>,
                       count: nat, totalBiomass: real, round3: real -> real): (o: TaskOutcome)
    ensures section == Small ==> o.Finished?
    ensures model.None? ==> DeltaOf(o) == map[] && (o.Finished? ==> o.rate == 0.0)
    ensures model.Some? ==> DeltaOf(o).Keys <= set m | m in model.value.exchanges
  {
    var failure := if section == Small then Finished(0.0, map[]) else Failed;
    if model.None? then failure
    else
      var mets := model.value.exchanges;
      var biomass := CellBiomass(count);
      if (biomass == 0.0 || totalBiomass == 0.0) && exists i | 0 <= i < |mets| :: mets[i] in snapshot then
        failure
      else
        var bounds := if biomass == 0.0 || totalBiomass == 0.0
                      then seq(|mets|, i => -MinUptake)
                      else SpeciesBounds(snapshot, mets, biomass, totalBiomass, StepHours(section), round3);
        var solution := model.value.optimize(bounds);
        var pairs := ExchangeAmounts(mets, solution, biomass, StepHours(section));
        assert KeysOf(pairs) == set m | m in mets by {
          forall m | m in mets ensures m in KeysOf(pairs) {
            var i :| 0 <= i < |mets| && mets[i] == m;
            assert pairs[i].0 == m;
          }
        }
        AccumulateSums(pairs);
        Finished(solution.objective, if section == Small then Overwrite(pairs) else Accumulate(pairs))
  }
}
