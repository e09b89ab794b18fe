# Gut compartment simulation — a Dafny model

This project models the bookkeeping of a two-compartment gut simulation:

- a small and a large intestine, each with a metabolite pool (metabolite id to mmol) and a microbial community (species id to cell count);
- the species' metabolic steps, whose exchange deltas are merged into the pool;
- the compartment's own ("host") metabolic step;
- the stochastic transfer of cells from the small to the large intestine, and the washout of the large intestine;
- the hourly clock that schedules all of this.

It also models three offline helper scripts:

- the reduction of the AGORA strain collection to one representative strain per phylum (Jaccard distances between reaction sets);
- the name↔id cross-check of exchange metabolites;
- the shortening of over-long SBML identifiers.

Modules, one per file:

- `Tables`: sums of table values, the additive merge, and the pruning of zeros.
- `Exchange`: the exchange lower-bound policy and one species' task.
- `Pools`: the pool update of `metabolise`.
- `Intestines`: the two compartment classes and their transfer loops.
- `Clock`: the `simulate` loop, as a trace of events.
- `ReduceAgora`, `MetaboliteCheck` and `CleanSbml`: the three helper scripts.
- `Text` and `Wrappers`: shared string joining and the `Option` type.

External dependencies are parameters:

- The flux-balance solver is an `ExchangeModel`: the metabolites of the model's exchanges, plus a function from lower bounds to a `Solution` with an objective and per-exchange fluxes.
- Reading a species' model is a function `string -> Option<ExchangeModel>`.
- Rounding to three decimals is a function `round3`.
- The diet, gas and microbe samplers are functions of the iteration number inside a `Clock.Environment`, and so are the two washout draws (`smallDraw` and `largeDraw`, the `randint` of each transfer).
- Inside a transfer, the species drawn and the number of its cells taken are left open: each is an arbitrary choice (`:|`) among the allowed values, so every contract about a transfer holds for every sequence of choices.
- The NCBI lookup, reading a strain's reaction set, and Python's salted `hash()` are function parameters of the helper modules.

All amounts and distances are exact reals, and cell counts are natural numbers.

The pool update keeps one behaviour of the code that is easy to miss. When a metabolite's summed species delta exactly cancels its amount (old + delta = 0), the code keeps the old amount rather than setting it to zero. `Pools.GuardKeepsUsedUpAmount` shows this with 5 + (-5), and the model keeps this behaviour.

## Model

| member | source | states |
|---|---|---|
| Tables.AddCountsSpec | utilities.py:40-45 | the merged community has the union of the keys; a present key gets old + incoming; a new key gets the incoming count; a key not in the input is unchanged |
| Tables.AddCountsTotal | utilities.py:177-182 | merging conserves cells: the merged total is the old total plus the incoming total |
| Tables.MergeCounts | utilities.py:40-45 | the key-by-key loop, visiting keys in any order, yields exactly the additive merge |
| Tables.MergeAmounts | utilities.py:170-175 | the large intestine's key-by-key pool merge, in any order, yields exactly the additive merge of amounts |
| Tables.SumCounts | utilities.py:144 | summing the counts in any key order gives the order-free total |
| Tables.SumReals | utilities.py:142 | summing the growth rates in any key order gives the order-free total |
| Tables.TotalRemove | utilities.py:144 | the total of a table is any one entry plus the total of the rest (visiting order does not matter) |
| Tables.NonZero | utilities.py:154 | the pruned table keeps exactly the non-zero entries, unchanged |
| Tables.NonZeroTotal | utilities.py:289 | pruning zero counts leaves the total unchanged |
| Exchange.CellBiomass | utilities.py:53-55 | a species' dry weight is non-negative and zero exactly when it has no cells |
| Exchange.Capped | utilities.py:62 | the capped bound is at most -1e-6 and at most the rounded value, and equals one of the two |
| Exchange.SpeciesLowerBound | utilities.py:57-64 | a species task's bound is at most -1e-6; it is exactly -1e-6 for a metabolite absent from the snapshot; otherwise it is the capped rounding of the amount spread over the community's biomass times the step |
| Exchange.ShareCancels | utilities.py:61-62 | the species' own biomass cancels out of its share of the pool per gram per hour |
| Exchange.HostLowerBound | utilities.py:117-123 | the host's bound is at most -1e-6; it is exactly -1e-6 for an absent metabolite; otherwise it is the capped rounding of the amount over host biomass times the step |
| Exchange.StepHours | utilities.py:259-260 | the step is positive: 4 hours for the small intestine, 24 - 4 for the large one |
| Exchange.SpeciesBounds | utilities.py:57-64 | one bound per exchange, each at most -1e-6 |
| Exchange.HostBounds | utilities.py:255-262 | one bound per host exchange, each at most -1e-6 |
| Exchange.OverwriteLastWins | utilities.py:71-76 | in the small intestine's delta, a metabolite's amount is that of its last exchange |
| Exchange.AccumulateSums | utilities.py:211-215 | in the large intestine's delta, the keys are the exchanged metabolites and each amount is the sum over all its exchanges |
| Exchange.SpeciesTask | utilities.py:47-81 | a small-intestine task always reports a result; a missing model gives no delta and rate 0; a delta only names the model's exchange metabolites |
| Pools.CompletionOrderIrrelevant | utilities.py:100-106 | for every order in which the tasks complete, the per-metabolite sum of their deltas is the same table |
| Pools.CombineRemove | utilities.py:238-244 | any finished task may be the one merged last |
| Pools.AddAmountsSwap | utilities.py:105-106 | adding two deltas in either order gives the same table |
| Pools.FailedTaskContributesNothing | utilities.py:238-246 | a task whose result raised adds nothing to the summed deltas |
| Pools.RatesFrom | utilities.py:92-104 | the returned rates have exactly the resident species as keys, 0 for a species whose task failed |
| Pools.GuardedMergeSpec | utilities.py:110-114 | every old key stays; a present key takes old + delta unless that is exactly 0, in which case it keeps the old amount; an absent key is added exactly when its delta is non-zero |
| Pools.GuardKeepsUsedUpAmount | utilities.py:111-112 | an amount of 5 with a summed delta of -5 stays at 5 |
| Pools.HostMergeAt | utilities.py:126-133 | after the host step a metabolite is present iff it was before or some exchange moved a non-zero amount; its amount is the old one plus the sum of all its exchange amounts |
| Pools.TotalBiomass | utilities.py:85-90 | the loop's sum is the dry weight of the whole community |
| Pools.FanOut | utilities.py:92-108 | the rates and summed deltas are those of every resident species' task, run against the same snapshot |
| Pools.ApplySpeciesDeltas | utilities.py:248-252 | the metabolite-by-metabolite loop yields exactly the guarded merge |
| Pools.HostStep | utilities.py:116-133 | the growth is the host solution's objective, and the pool is the old pool with every exchange amount merged without the guard |
| Intestines.TransferWeightsTotal | utilities.py:143 | the transfer weights sum to the number of species minus the rates' sum over the total |
| Intestines.WeightsSumToOneLess | utilities.py:142-149 | with the rates' own sum as total, the weights sum to n - 1, so they are positive exactly when there are two or more species |
| Intestines.Deplete | utilities.py:147-153 | the loop as written: no count goes negative; each species' tally is what left it; only species with a positive weight lose cells; cells are conserved; on normal exit at least the target was taken; with target at most 0 nothing moves |
| Intestines.TransferStalls | utilities.py:142-153 | with rates {A: 0.5, B: 0.0}, 10^10 cells of A, 10^9 of B and a draw of 10^3, the loop as written runs out of draws for every draw budget |
| Intestines.DepleteDrawable | utilities.py:147-153 | the corrected loop: the same split and conservation as the loop as written; it ends normally once the target is taken or every drawable species is empty, and runs out of draws only while the target is unmet and some drawable species still has cells |
| Intestines.DrawCells | utilities.py:142-153 | the division by a zero growth total, and a draw from weights with no positive total, happen exactly in the stated cases; otherwise the community is split between what remains and what was drawn, only drawable species give cells, and on a normal end either at least the cell count minus the draw was taken or every drawable species is empty; with a cell count at most the draw nothing moves |
| Intestines.LargeIntestine.constructor | utilities.py:161-168 | the pool and community start empty and the growth rate at 0 |
| Intestines.LargeIntestine.AddToMetabolome | utilities.py:170-175 | the pool becomes the additive merge of old pool and input |
| Intestines.LargeIntestine.AddToMicrobiome | utilities.py:177-182 | the community becomes the additive merge of old counts and input |
| Intestines.Metabolism | utilities.py:83-135 | one metabolism step yields a growth rate for exactly the resident species |
| Intestines.LargeIntestine.Metabolise | utilities.py:222-274 | the rates come from all species' tasks on the old pool; the pool is the host update applied to the guarded merge of their summed deltas; the growth rate is the host's objective |
| Intestines.LargeIntestine.Transfer | utilities.py:276-289 | the pool is emptied; the failure cases are stated both ways; on a failure the community is unchanged; on success only drawable species lose cells, each count drops by its tally, zeros are pruned, the total drops by the total drawn, and at least the cell count minus the draw leaves unless every drawable species is emptied |
| Intestines.SmallIntestine.constructor | utilities.py:28-35 | the pool and community start empty and the growth rate at 0 |
| Intestines.SmallIntestine.AddToMetabolome | utilities.py:37-38 | the pool becomes exactly the input |
| Intestines.SmallIntestine.AddToMicrobiome | utilities.py:40-45 | the community becomes the additive merge of old counts and input |
| Intestines.SmallIntestine.Metabolise | utilities.py:83-135 | as in the large intestine, with a 4-hour step and the small intestine's task semantics |
| Intestines.SmallIntestine.Transfer | utilities.py:137-156 | the pool is added to the large intestine's and emptied here; on a failure neither community changes; on success only drawable species lose cells, the large intestine gains exactly the non-zero tallies, the remaining counts are pruned of zeros, and cells are conserved between the two |
| Clock.IntakeGasesWin | simulate.py:143-146 | the intake has the keys of diet and gases; a gas amount overrides a diet entry with the same key |
| Clock.IterationsBound | simulate.py:130-133 | a loop that runs while 24k < duration stops after ceil(duration / 24) iterations, none when duration is at most 0 |
| Clock.SmallBlock | simulate.py:143-153 | the sampled microbes are added to the small community; the small pool, growth rate and rates are the metabolism step from the intake (gases over diet) with that community; the rates have exactly the residents as keys |
| Clock.LargeBlock | simulate.py:166-169 | the small pool is emptied; the failure cases are stated both ways; on a failure the communities and the large growth rate are unchanged and the large pool gains the small one; on success the small community is drawn out, the large one gains the non-zero tallies, cells are conserved, and the large pool, growth rate and rates are the metabolism step from the old large pool plus the small one |
| Clock.Opening | simulate.py:135-169 | from hour 24k, the intake, the small record at 24k + 4 and the transfer fire in order, and the large record at 24k + 24 unless the transfer raised; the small record is the metabolism step from the intake with the inoculated community; the large record is drawn from the small record's community and is the metabolism step from the old large pool plus the small one; the large intestine's state is the large record |
| Clock.Iteration | simulate.py:135-182 | from hour 24k, all three blocks fire in order; records are made at hours 24k + 4 and 24k + 24 and hold the metabolism steps of both compartments; transfer and washout use the same iteration's rates; the small pool ends empty; the washout empties the large pool and draws out of the large record's community, or leaves it when it raises; the hour advances by 24 |
| Clock.Simulate | simulate.py:130-182 | every round fits the schedule; without a raised transfer there are exactly ceil(duration / 24) rounds; a raised transfer ends the run with that round |
| ReduceAgora.StrainId | reduce_agora.py:16 | the strain id is the file name up to, not including, its first dot |
| ReduceAgora.XmlFiles | reduce_agora.py:11 | the model files are exactly the listed names ending in ".xml" |
| ReduceAgora.StrainToFile | reduce_agora.py:16 | every key maps to a listed file whose strain id is that key |
| ReduceAgora.StrainToFileLastWins | reduce_agora.py:16 | of several files with the same strain id, the last one is kept |
| ReduceAgora.StrainOrderIsKeys | reduce_agora.py:23 | the strains are visited once each, exactly the dictionary's keys |
| ReduceAgora.TaxonomyQueryIsPrefix | reduce_agora.py:26-28 | the query is the id with underscores as spaces, cut before its second space, and holds no underscore |
| ReduceAgora.Members | reduce_agora.py:38-42 | a phylum's list holds exactly the strains whose phylum it is |
| ReduceAgora.GroupByPhylum | reduce_agora.py:23-45 | a strain gets a phylum iff the lookup of its two-word taxonomy query finds one; each phylum lists its strains in visiting order |
| ReduceAgora.Jaccard | reduce_agora.py:89 | the distance lies between 0 and 1 |
| ReduceAgora.JaccardZeroIffEqual | reduce_agora.py:89 | the distance is 0 exactly for equal sets, and is symmetric |
| ReduceAgora.DistanceMatrix | reduce_agora.py:81-90 | the matrix is symmetric with a zero diagonal and holds the Jaccard distance above the diagonal |
| ReduceAgora.ReadableSets | reduce_agora.py:64-74 | the reaction sets line up one to one with the strains whose model could be read |
| ReduceAgora.ArgMin | reduce_agora.py:95 | the index of a smallest mean, and the first such |
| ReduceAgora.MinAtMostMean | reduce_agora.py:93-97 | the smallest row mean is at most the mean of the row means |
| ReduceAgora.PhylumRepresentative | reduce_agora.py:56-97 | a single strain is its own representative with distances 0; no readable model means the script raises; the representative is one of the phylum's strains, with 0 ≤ min ≤ mean |
| ReduceAgora.RepresentativeMinimises | reduce_agora.py:93-97 | the representative is the first readable strain with the smallest mean distance |
| ReduceAgora.SelectRepresentative | reduce_agora.py:56-97 | reading loop, fallbacks, matrix, row means and argmin give the representative |
| ReduceAgora.Export | reduce_agora.py:108-116 | one entry per phylum, with phylum size counting every grouped strain; nothing is exported exactly when some phylum's selection raises |
| ReduceAgora.ReduceCollection | reduce_agora.py:11-45 | the whole script: model files, strain ids, grouping by phylum and export |
| MetaboliteCheck.TablesAreInverse | metabolite_check.py:25-35 | an id is listed under a name iff the name is listed under the id, iff the pair was seen; no listed set is empty |
| MetaboliteCheck.MetaboliteIndex.constructor | metabolite_check.py:10-11 | both tables start empty |
| MetaboliteCheck.MetaboliteIndex.Record | metabolite_check.py:25-35 | recording adds the pair to both tables; recording a pair already seen changes nothing |
| MetaboliteCheck.MetaboliteIndex.RecordModel | metabolite_check.py:22-35 | exactly the first metabolite of every exchange is recorded |
| MetaboliteCheck.BuildIndex | metabolite_check.py:14-67 | the tables are those of every pair from the AGORA models, the small model and the large model, whatever the order |
| MetaboliteCheck.NamesStep | metabolite_check.py:26-29 | one more pair creates or extends only that name's id set |
| MetaboliteCheck.IdsStep | metabolite_check.py:32-35 | one more pair creates or extends only that id's name set |
| MetaboliteCheck.LexTotal | metabolite_check.py:74 | Python's string order is total and antisymmetric |
| MetaboliteCheck.LexTransitive | metabolite_check.py:74 | Python's string order is transitive |
| MetaboliteCheck.LeastExists | metabolite_check.py:74 | every non-empty set of strings has a least element |
| MetaboliteCheck.Sorted | metabolite_check.py:74 | the sorted members are strictly increasing and are exactly the set |
| MetaboliteCheck.NameRows | metabolite_check.py:73-74 | one row per recorded name |
| MetaboliteCheck.IdRows | metabolite_check.py:80-81 | one row per recorded id |
| CleanSbml.DecimalRoundTrip | clean_sbml.py:16 | the decimal digits read back give the number |
| CleanSbml.DecimalLength | clean_sbml.py:16 | a number below 10^k has at most k digits |
| CleanSbml.TruncateIdShape | clean_sbml.py:4-16 | the new id is the id's first max_len // 2 characters, "_", then 1 to 6 digits that read back as abs(hash) mod 10^6; its length is at most max_len // 2 + 7, so at most max_len once max_len ≥ 13 |
| CleanSbml.FixedIdBounded | clean_sbml.py:51-53 | ids within the limit are kept; with max_len ≥ 13 no id exceeds it afterwards; a rewritten id keeps the old id's prefix |
| CleanSbml.FixLongIds | clean_sbml.py:42-60 | every object of the collections whose id exceeds max_len gets the truncated id as id and name; every other object keeps both |

## Left out

- The metabolic models and the solver are abstract: reading SBML with a timeout, `optimize` and the solution's fluxes are parameters. Exchanges are modelled by their first metabolite only.
- The process pool is not modelled. Task completion order is arbitrary, so the summed deltas are defined order-free, and `Pools.CompletionOrderIrrelevant` ties them to every completion order.
- The cell-growth update inside a species task is left out. It runs in a worker process on a copy of the compartment, so `Metabolise` leaves the community unchanged. Its float `exp` and `int` truncation are also out.
- Floating point is out: amounts, biomass products and Jaccard ratios are exact reals, and rounding to three decimals is an uninterpreted parameter. Ties in argmin under float rounding are not modelled.
- Randomness is out. The species drawn in a transfer is any species with a positive weight, since `random.choices` never returns a zero-weight species; the sizes of the weights and the cumulative-weight bisection are not modelled. The cell count drawn is any value from 0 to the current count. The washout draws are parameters within their documented ranges. Distributions are not modelled.
- Intestines.Deplete, Intestines.DepleteDrawable: a draw budget `fuel` bounds the transfer loop, because an arbitrary sequence of draws may take 0 cells each time. Running out of draws is the `OutOfDraws` outcome, which the source does not have. The transfers use the corrected loop (see Findings).
- The transfer's failures are outcomes rather than preconditions: a zero growth total, and draw weights with no positive total. `Clock.Simulate` stops its trace at such a round, as the script would stop with the exception.
- The initial growth rate of a compartment, which the source sets to the type `float`, is modelled as 0.0. Nothing reads it before `metabolise` overwrites it.
- Sampling the diet, gases and microbial library, CSV recording, directory naming and timing are out: samplers are environment functions, records are trace events.
- NCBI taxonomy lookup, reading AGORA models in the reduction script, and the JSON dump are out: the lookup and the reader are parameters, and the export is a map whose key order is not modelled.
- Writing the metabolite CSV files is out beyond the row content, including csv quoting.
- libsbml reading and writing, and the truncation log lines, are out. Objects are `SbmlObject`s with an id and a name; `hash` is a parameter.
- CleanSbml.TruncateIdShape: the maximum length is a natural number; negative maxima are not modelled.

## Findings

| source | as written | input that shows it | evidently intended | confidence | as-written member | corrected member |
|---|---|---|---|---|---|---|
| utilities.py:142-153, utilities.py:279-288 | the transfer loop draws species by weight `1 - rate / total` until the total count minus the washout draw is taken; a species whose rate equals the total has weight 0 and is never drawn, so when the other species hold fewer cells than the target the loop never ends | rates {A: 0.5, B: 0.0}, community {A: 10^10, B: 10^9}, washout draw 10^3: only B can be drawn, and its 10^9 cells are short of the target 1.1 * 10^10 - 10^3 | the loop also ends once every drawable species is empty | not executed | Intestines.Deplete, Intestines.TransferStalls | Intestines.DepleteDrawable |
