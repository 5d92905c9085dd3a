# hashwars core, modelled in Dafny

This project models the sequential core of the hashwars blockchain-launch
simulations and proves properties of it. It has four parts:

- **The world state** (`latinum/state.py`), as the class `State.World`. It holds:
  - a clock;
  - a two-element spatial boundary, updated in place;
  - an agent registry kept in insertion order, as a Python dict keeps its keys.

  `advance_time` snapshots the agent ids. It then looks up and advances each
  one over the same interval, with the clock still at its old reading, and
  commits the new time only at the end. An agent's own `advance` is a
  parameter (`State.Step`): it sees the agent, the interval, the clock and the
  registry, and answers with add/delete edits carried out through
  `add_agent`/`remove_agent`.
- **Fork choice and the launch run** (`simulations/blockchain_launch.py`):
  - `ReorgProtectedBlockchain.merge`: heaviest-chain adoption, with an optional
    bound on how many of its own blocks a chain may give up; all five chain
    fields are replaced at once or not at all.
  - The `chain_params` fingerprint and `_build_blockchain`.
  - `MajorityMiners.react`, a one-way activation.
  - The stepping loop of `blockchain_launch`, with its five parallel series
    and per-population weight sums.
  - `_weight_ratio` and `averaged_blockchain_launch`.
- **The Monte-Carlo sweep driver** (`simulations/earth_mars/many_runs.py`):
  - `_parse_array`;
  - the population sizing N = ceil(16·σ²/W²) and its clamp;
  - the population returned by `_single_population`;
  - the distance-major task list;
  - the collation of shuffled results back into a distance × ratio grid,
    proved independent of the shuffle.
- **Utilities** (`hashwars/utils/__init__.py`): the `array_glob` grammar,
  proved against its doc-comment examples, and `format_duration`, proved to
  read back as the number of seconds it was given.

Times, weights and statistics are exact reals. Python's `float()` on the
array grammar is a decimal-literal parser. Errors that Python raises
(KeyError, IndexError, ZeroDivisionError, ValueError, TypeError,
AttributeError) are `Option`/`Result` values.

Two facts about `ReorgProtectedBlockchain.merge`
(simulations/blockchain_launch.py) shape the fork-choice rule:
- Line 55 rejects only a strictly lighter candidate, so a candidate of
  **equal** weight passes the weight test, and ties are adopted.
- The difference at line 61 runs in one direction: it counts this chain's
  block ids **missing from** the candidate. So a bound of 0 admits any
  candidate holding all of this chain's blocks, not only one with an
  identical block set.

One fact about the population sizing of `_single_population`
(simulations/earth_mars/many_runs.py:51-55) limits its monotonicity:
- Where W = |relative_error·μ| > 0, N never falls as σ/μ grows or as the
  relative error shrinks (`RequiredRunsMonotone`,
  `RequiredRunsShrinkingError`, `RequiredRunsSpread`).
- At W = 0, for instance at a relative error of 0, line 55 sets N to 1, so
  the count drops there: the pilot [1, 3] asks for 400 runs at a relative
  error of 0.1 and for 1 run at 0 (`RequiredRunsDropAtZeroWidth`).

Files: `basics.dfy` (shared vocabulary), `utils.dfy`, `state.dfy`,
`chains.dfy`, `launch.dfy`, `many_runs.dfy`.

## Model

| member | source | states |
|---|---|---|
| Basics.Ceil | simulations/earth_mars/many_runs.py:53 | math.ceil: the result is the least integer not below x |
| Basics.CeilMonotone | simulations/earth_mars/many_runs.py:53 | math.ceil never decreases |
| Basics.RangeLength | simulations/blockchain_launch.py:76 | range(n) runs n times for n >= 0 and never for a negative n |
| Basics.Mean | simulations/blockchain_launch.py:78 | the mean of an array is NaN (None) exactly when the array is empty |
| Basics.MeanBetween | simulations/blockchain_launch.py:78 | the mean of values in [lo, hi] lies in [lo, hi] |
| Utils.Split | hashwars/utils/__init__.py:40-47 | str.split always gives at least one piece (partnered by SplitJoin and SplitCount) |
| Utils.SplitJoin | hashwars/utils/__init__.py:47 | str.split loses nothing: joining the pieces with the separator gives back the input |
| Utils.SplitCount | hashwars/utils/__init__.py:47 | splitting on one character gives one more piece than there are occurrences of it |
| Utils.SplitAt | hashwars/utils/__init__.py:43 | the first piece of a split ends at the first separator |
| Utils.NatToStringValue | hashwars/utils/__init__.py:72 | str(n) spells n in decimal digits |
| Utils.ParseDecimal | hashwars/utils/__init__.py:44-47 | float() of the empty string raises; a parsed literal with a leading minus is at most 0, any other at least 0 (partnered by ParseNatToString) |
| Utils.ParseNatToString | hashwars/utils/__init__.py:44 | float(str(n)) == n for every natural n |
| Utils.Arange | hashwars/utils/__init__.py:44 | arange fails exactly on a zero step; term k is start + k·step |
| Utils.ArangeStopExclusive | hashwars/utils/__init__.py:44 | term k exists iff start + k·step is short of stop (below it for a positive step, above it for a negative one), so stop is excluded |
| Utils.ExpandRange | hashwars/utils/__init__.py:43-44 | a range that does not split into three fields raises; a range expands iff its three fields parse and the step is non-zero, and then it is arange(start, stop, step) of the parsed fields |
| Utils.Glob | hashwars/utils/__init__.py:38-47 | an empty spec raises on float(""); a comma list that parses gives commas + 1 values |
| Utils.InnerSlice | hashwars/utils/__init__.py:40 | spec[1:-1], which is empty for a spec shorter than two characters |
| Utils.ArrayGlob | hashwars/utils/__init__.py:38-47 | the accumulating loop returns the bracket ranges concatenated in order, or the comma list, or the first error raised |
| Utils.ExpandRangesErrorPersists | hashwars/utils/__init__.py:42-44 | once a range raises, later ranges do not change the outcome |
| Utils.ParseListShape | hashwars/utils/__init__.py:47 | a comma list gives one value per field, each the float of its field, in order |
| Utils.GlobCommaList | hashwars/utils/__init__.py:46-47 | array_glob on a comma list gives commas + 1 values, in field order |
| Utils.ExpandRangesConcat | hashwars/utils/__init__.py:42-45 | expanding two range lists one after the other gives the concatenation of their expansions |
| Utils.ExpandRangesLength | hashwars/utils/__init__.py:40-45 | in bracket form the output length is the sum of the per-range lengths |
| Utils.ArangeExamples | hashwars/utils/__init__.py:36-37 | arange(1, 5, 1) is [1, 2, 3, 4] and arange(0.1, 1, 0.3) is [0.1, 0.4, 0.7] |
| Utils.ExpandRangeExamples | hashwars/utils/__init__.py:43-44 | "1,5,1" and "0.1,1,0.3" expand to those two progressions |
| Utils.GlobExampleOneRange | hashwars/utils/__init__.py:36 | array_glob("[1,5,1]") is [1, 2, 3, 4] |
| Utils.GlobExampleTwoRanges | hashwars/utils/__init__.py:37 | array_glob("[0.1,1,0.3][1,5,1]") is [0.1, 0.4, 0.7, 1, 2, 3, 4] |
| Utils.FormatDuration | hashwars/utils/__init__.py:61-72 | the recursion terminates and every output ends in "s" |
| Utils.FormatDurationExamples | hashwars/utils/__init__.py:62-70 | the thresholds are strict: 60 is "60s", 3600 is "60m0s", 86400 is "24h0s"; 90061 is "1d1h1m1s" |
| Utils.FormatUpToMinute | hashwars/utils/__init__.py:68-72 | any time of at most a minute, negative times included, prints as str(t) followed by "s" |
| Utils.FormatWholeMinute | hashwars/utils/__init__.py:68-72 | worked instances of FormatUpToMinute: 0, 1 and 60 seconds print as "0s", "1s" and "60s" |
| Utils.FormatDurationRoundTrip | hashwars/utils/__init__.py:61-72 | for every integer t, reading format_duration(t) back field by field gives t seconds |
| Utils.DayCount | hashwars/utils/__init__.py:62-64 | a day field appears once when t > 86400 and never otherwise |
| Utils.NoDayBelowADay | hashwars/utils/__init__.py:65-72 | at most a day of seconds prints no day field |
| State.Without | latinum/state.py:46 | deleting a key from the key order leaves exactly the other keys, keeps them distinct, and changes nothing when the key is absent |
| State.WithoutAt | latinum/state.py:46 | deleting the key at position p takes out that one entry: the keys before and after it keep their order |
| State.Added | latinum/state.py:34-36 | add_agent stores the agent under its id, replaces an earlier one in place, and leaves other entries alone |
| State.Removed | latinum/state.py:44-46 | remove_agent deletes exactly that key and leaves other entries alone |
| State.TickCalls | latinum/state.py:19-23 | call k of a tick advances snapshot id k over the tick's interval with the old clock; a tick that completes advanced every snapshot id |
| State.OnlySnapshotAdvanced | latinum/state.py:21-23 | agents added during a tick are not advanced in it, and no agent is advanced twice |
| State.ApplyEdits | latinum/state.py:34-46 | an agent's edits run in order; when one raises KeyError, the id it names is not registered |
| State.ApplyEditsWellFormed | latinum/state.py:34-46 | carrying out edits keeps the registry's key order and its dict in step |
| State.Tick | latinum/state.py:21-23 | a tick makes at most one call per snapshot id, and a KeyError names an id that is not registered |
| State.TickWellFormed | latinum/state.py:21-23 | a tick keeps the registry's key order and its dict in step |
| State.TickCompletes | latinum/state.py:21-23 | when agents only add or replace agents, no lookup of the tick raises KeyError |
| State.OrderedCons | latinum/state.py:48-50 | putting the agent of the head id in front of a list ordered by the tail keeps it ordered |
| State.OrderedDistinct | latinum/state.py:48-50 | a list ordered by distinct ids holds no id twice |
| State.Within | latinum/state.py:48-50 | the filter keeps exactly the listed agents located in [a, b], both ends included, listed in the order of the ids |
| State.LocatedIn | latinum/state.py:48-50 | agents_located_in yields exactly the registered agents with a <= location <= b, each once, in registry (insertion) order |
| State.World.constructor | latinum/state.py:3-7 | the module starts at time 0, boundary [0, 1], no agents |
| State.World.CurrentTime | latinum/state.py:12-13 | current_time reads the clock |
| State.World.GetSpatialBoundary | latinum/state.py:26-27 | the boundary read back, with its lower end below its upper end |
| State.World.SetSpatialBoundary | latinum/state.py:29-32 | requires y > x; afterwards the boundary array holds exactly [x, y] |
| State.World.AddAgent | latinum/state.py:34-36 | the registry becomes Added(old registry, a); clock and boundary unchanged |
| State.World.AllAgentIds | latinum/state.py:38-39 | the keys in insertion order, each registered id once |
| State.World.GetAgent | latinum/state.py:41-42 | the agent stored under id, or KeyError for an unknown id |
| State.World.RemoveAgent | latinum/state.py:44-46 | KeyError for an unknown id with nothing changed; otherwise the registry becomes Removed(old registry, id) |
| State.World.AgentsLocatedIn | latinum/state.py:48-50 | requires b > a; the result is LocatedIn of the registry |
| State.World.Perform | latinum/state.py:23 | an agent's edits go through add_agent and remove_agent in order and stop at the first KeyError |
| State.World.Advance | latinum/state.py:22-23 | one agent advanced over the interval with the clock at its old reading |
| State.World.AdvanceAgents | latinum/state.py:21-23 | the loop over the snapshot does what Tick describes, and the clock does not move |
| State.World.AdvanceTime | latinum/state.py:15-24 | requires amount > 0; the registry and calls are Tick's over [old, old + amount), and the clock strictly increases to old + amount only when no KeyError ended the tick |
| Chains.Divergence | simulations/blockchain_launch.py:59-61 | the divergence is 0 exactly when every block of this chain is in the candidate |
| Chains.Decide | simulations/blockchain_launch.py:55-63 | a candidate is adopted iff it is at least as heavy and (protected chain) drops no more blocks than the bound; it is rejected as lighter iff strictly lighter; only a protected chain rejects as too different |
| Chains.DecideAsWritten | simulations/blockchain_launch.py:55-63 | as written, the lighter verdict is given iff the candidate is strictly lighter, and the only error raised is TypeError |
| Chains.MergeSameState | simulations/blockchain_launch.py:50-71 | merging a chain with its own state adopts it, for any non-negative bound |
| Chains.ZeroBoundKeepsBlocks | simulations/blockchain_launch.py:59-63 | with a bound of 0 only a candidate that keeps every one of this chain's blocks is adopted |
| Chains.LooserBoundAdopts | simulations/blockchain_launch.py:59-63 | a looser bound, or no bound, adopts whatever a tighter bound adopts |
| Chains.Blockchain.constructor | simulations/blockchain_launch.py:40-46 | a new chain holds its genesis block only, with the given parameters |
| Chains.Blockchain.Merge | simulations/blockchain_launch.py:50-71 | requires equal chain_params; returns true iff the rule adopts; on adoption all five fields equal the candidate's old ones, otherwise nothing changes; the candidate is never changed |
| Chains.GenesisState | simulations/blockchain_launch.py:99-101 | the genesis state holds one block, at the chain's initial difficulty |
| Chains.ProtectedParams | simulations/blockchain_launch.py:47 | the protected fingerprint is the plain one with the bound appended, so the two differ |
| Chains.BuildParams | simulations/blockchain_launch.py:167-171 | the chain is protected exactly when a bound is given, with the default parameters otherwise |
| Chains.PlainAndProtectedDiffer | simulations/blockchain_launch.py:53 | a plain and a protected chain never pass the parameter check against each other |
| Chains.BuildBlockchain | simulations/blockchain_launch.py:167-171 | with line 47 corrected (the bound stored before the fingerprint is extended), _build_blockchain returns a fresh genesis chain, protected iff max_reorg is given |
| Chains.ResolveMaxReorg | simulations/blockchain_launch.py:90 | corrected: any given max_reorg, 0 included, is passed on as the bound |
| Chains.ZeroBoundProtects | simulations/blockchain_launch.py:90 | corrected: max_reorg = 0 builds a protected chain that refuses a heavier candidate dropping a block |
| Chains.ResolveMaxReorgAsWritten | simulations/blockchain_launch.py:90 | as written: no option gives no bound, and a non-zero option is passed on |
| Chains.ZeroBoundDropped | simulations/blockchain_launch.py:90 | as written: max_reorg = 0 builds a plain chain, which adopts that heavier candidate |
| Chains.Greater | simulations/blockchain_launch.py:61 | Python 3's `>` raises TypeError exactly when a set meets an integer |
| Chains.AsWrittenNeverAdopts | simulations/blockchain_launch.py:61 | as written, a protected merge never adopts: every candidate that is not lighter raises TypeError; comparing the count gives Decide's rule |
| Chains.ProtectedParamsAsWritten | simulations/blockchain_launch.py:47 | as written, line 47 succeeds only if the attribute was stored before it |
| Chains.ProtectedConstructionFails | simulations/blockchain_launch.py:38-47 | the constructor never stores its bound, so building a protected chain raises AttributeError; storing it first gives ProtectedParams |
| Chains.ActiveAfter | simulations/blockchain_launch.py:20-24 | miners end up active iff they were active or some transmission was a launch |
| Chains.ActiveStaysActive | simulations/blockchain_launch.py:20-24 | activation never reverts: active stays active, and more transmissions never deactivate |
| Chains.MajorityMiners.constructor | simulations/blockchain_launch.py:103-109 | majority miners start at their location, active as asked |
| Chains.MajorityMiners.React | simulations/blockchain_launch.py:20-24 | react activates inactive miners on a launch only, and never deactivates |
| Launch.OwnedWeight | simulations/blockchain_launch.py:131 | a population that owns no block has weight 0; non-negative block weights give a non-negative sum |
| Launch.OwnedWeightBounds | simulations/blockchain_launch.py:131-132 | with non-negative block weights and no block id naming both populations, each owned weight and their sum lie within the chain's total |
| Launch.OwnedWeightAppend | simulations/blockchain_launch.py:131 | the owned weight of concatenated block lists is the sum of the parts' |
| Launch.PopulationWeight | simulations/blockchain_launch.py:130-135 | a chain still at height 1 records weight 0 |
| Launch.WeightRatio | simulations/blockchain_launch.py:173-174 | _weight_ratio raises exactly when both weights sum to 0; otherwise ratio × (part + complement) = part |
| Launch.RatioIsShare | simulations/blockchain_launch.py:173-174 | for non-negative weights with a positive sum the ratio lies in [0, 1], and the two shares add up to 1 |
| Launch.ExtendRecorded | simulations/blockchain_launch.py:128-142 | one step appends one entry to each of the five series, so they stay equally long and each entry is that step's weight |
| Launch.SteppedExtend | simulations/blockchain_launch.py:125-128 | one more step below the limit keeps the clock readings a step apart |
| Launch.SteppedTimes | simulations/blockchain_launch.py:125-128 | the k-th recorded time is (k + 1) steps |
| Launch.MinorityShare | simulations/blockchain_launch.py:130-144 | the share raises ZeroDivisionError iff both population weights sum to 0, as always at height <= 1; otherwise share × (minority + majority) = minority |
| Launch.MinorityShareBounds | simulations/blockchain_launch.py:144 | the minority's final share of its chain lies in [0, 1] |
| Launch.StepCount | simulations/blockchain_launch.py:123-126 | a run with positive hours and step takes at least one step |
| Launch.ElapsedIsProduct | simulations/blockchain_launch.py:125-126 | after n steps the clock reads n × step |
| Launch.StepsBelow | simulations/blockchain_launch.py:125-126 | n steps stay below the limit iff n < ceil(limit / step) |
| Launch.RunTicks | simulations/blockchain_launch.py:125-126 | the reference run of ticks k .. n-1 of advance_time (tick k over [k·step, (k + 1)·step) with the clock at k·step), stopping at the first KeyError: at most one registry per tick, and exactly one per tick when no tick raises |
| Launch.RunTicksUnfold | simulations/blockchain_launch.py:125-126 | a run that does not fail at its first tick is that tick's registry followed by the run from the next tick |
| Launch.RunCompletes | latinum/state.py:21-23 | when agents only add or replace agents, no tick of the run raises KeyError |
| Launch.AdvanceStep | simulations/blockchain_launch.py:126 | one advance_time(step) at clock k·step is tick k of RunTicks: it either fails as the run fails, or leaves the registry RunTicks reaches and the clock at (k + 1)·step |
| Launch.RunStep | simulations/blockchain_launch.py:125-142 | one turn of the loop: advance the world, read the clock, observe both chains and record the five series entries; the registries seen so far stay a prefix of RunTicks |
| Launch.RunSteps | simulations/blockchain_launch.py:125-142 | starting from time 0: the KeyError raised, if any, is the first failing tick's of RunTicks over ceil(limit / step) ticks; view k is the observation of the registry after tick k; one entry per step in all five series, the clock read a step apart; a run without KeyError takes ceil(limit / step) steps and stops at the first reading >= the limit |
| Launch.BlockchainLaunch | simulations/blockchain_launch.py:80-165 | requires premium, hours and step > 0; boundary [-1, distance + 1]; view k observes the registry after tick k of RunTicks over ceil(3600·hours/step) ticks; the result is KeyError (MissingAgent) with that tick's id exactly when a tick fails, and otherwise the minority's final share, or ZeroDivisionError when both final weights are 0 |
| Launch.Shares | simulations/blockchain_launch.py:76-77 | succeeds exactly when runs 0 .. n-1 all succeed, and then holds their shares in order |
| Launch.SharesErrorPersists | simulations/blockchain_launch.py:76-77 | once a run raises, later runs do not change the outcome |
| Launch.AveragedLaunch | simulations/blockchain_launch.py:73-78 | succeeds exactly when all count runs succeed (none for a negative count), returning the parameters and the mean share (NaN for no runs); otherwise returns the runs' error |
| Launch.AveragedShareBounds | simulations/blockchain_launch.py:78 | the averaged share of fractional shares is a fraction once there is a run |
| ManyRuns.ParseArray | simulations/earth_mars/many_runs.py:14-23 | _parse_array is array_glob: bracket form has the summed range lengths; a comma list has commas + 1 values, each the float of its field |
| ManyRuns.SquareSign | simulations/earth_mars/many_runs.py:53 | a square is non-negative and zero only at zero |
| ManyRuns.SquaredDeviations | simulations/earth_mars/many_runs.py:49 | the sum of squared deviations is never negative |
| ManyRuns.Variance | simulations/earth_mars/many_runs.py:49 | σ² is NaN (None) exactly for an empty sample and otherwise non-negative |
| ManyRuns.DeviationsVanish | simulations/earth_mars/many_runs.py:49 | the squared deviations from m sum to 0 iff every value is m |
| ManyRuns.VarianceZero | simulations/earth_mars/many_runs.py:49 | a non-empty sample has σ = 0 iff all its values are equal |
| ManyRuns.Width | simulations/earth_mars/many_runs.py:51 | W is NaN (None) exactly for an empty pilot and otherwise non-negative |
| ManyRuns.RequiredRuns | simulations/earth_mars/many_runs.py:51-55 | the required count is never negative (partnered by RequiredRunsLeast, RequiredRunsMonotone and RequiredRunsDropAtZeroWidth) |
| ManyRuns.Sizing | simulations/earth_mars/many_runs.py:53 | ceil(16·v/w²) is never negative for a non-negative variance |
| ManyRuns.SizingMonotone | simulations/earth_mars/many_runs.py:53 | ceil(16·v/w²) never falls as v/w² grows |
| ManyRuns.SizingNarrower | simulations/earth_mars/many_runs.py:53 | a narrower positive width never gives a smaller ceil(16·v/w²) |
| ManyRuns.RequiredRunsMonotone | simulations/earth_mars/many_runs.py:51-55 | where both widths are positive, σ₁²·W₂² <= σ₂²·W₁² gives N₁ <= N₂ |
| ManyRuns.RequiredRunsShrinkingError | simulations/earth_mars/many_runs.py:51-53 | for one pilot with μ != 0, a relative error of smaller non-zero magnitude never gives a smaller N |
| ManyRuns.RequiredRunsSpread | simulations/earth_mars/many_runs.py:48-53 | for one non-zero relative error, a pilot with a no larger (σ/μ)² never gives a larger N |
| ManyRuns.RequiredRunsDropAtZeroWidth | simulations/earth_mars/many_runs.py:51-55 | monotonicity fails at W = 0: the pilot [1, 3] gives N = 400 at relative error 0.1 and N = 1 at 0 |
| ManyRuns.RequiredRunsLeast | simulations/earth_mars/many_runs.py:52-53 | when W > 0, N is the least count with N·W² >= 16·σ² |
| ManyRuns.RequiredRunsWithoutWidth | simulations/earth_mars/many_runs.py:54-55 | an empty pilot or a zero W asks for 1 run |
| ManyRuns.ConstantPilotNeedsNone | simulations/earth_mars/many_runs.py:52-53 | a pilot without spread and W > 0 asks for 0 further runs |
| ManyRuns.Clamp | simulations/earth_mars/many_runs.py:56-59 | N >= sample_size always; N <= max_runs when sample_size <= max_runs; N = sample_size when sample_size > max_runs; N is unchanged in range |
| ManyRuns.ClampMonotone | simulations/earth_mars/many_runs.py:56-59 | the clamp keeps order: a larger required count never gives a smaller population |
| ManyRuns.Draw | simulations/earth_mars/many_runs.py:47-60 | `[trial for _ in range(count)]`: count values for count >= 0 and none for a negative count, value k being trial from + k |
| ManyRuns.SinglePopulation | simulations/earth_mars/many_runs.py:37-69 | the result echoes distance and ratio; its samples are the N population trials after the pilot trials, followed by the pilot |
| ManyRuns.PopulationLength | simulations/earth_mars/many_runs.py:46-69 | the returned array has at least twice the pilot size, at most max_runs + sample_size when sample_size <= max_runs, and exactly twice the pilot otherwise |
| ManyRuns.Row | simulations/earth_mars/many_runs.py:79-80 | one task per ratio |
| ManyRuns.TaskGrid | simulations/earth_mars/many_runs.py:77-80 | \|distances\| · \|ratios\| tasks |
| ManyRuns.TaskGridAt | simulations/earth_mars/many_runs.py:77-80 | task i·\|ratios\| + j is (distances[i], ratios[j]): distance-major order |
| ManyRuns.TaskGridCell | simulations/earth_mars/many_runs.py:77-80 | every task is some grid point (i, j), at index i·\|ratios\| + j |
| ManyRuns.BuildTasks | simulations/earth_mars/many_runs.py:77-80 | the nested append loops build exactly TaskGrid |
| ManyRuns.PositionOf | simulations/earth_mars/many_runs.py:83 | where the shuffle put a task index |
| ManyRuns.Populations | simulations/earth_mars/many_runs.py:86-87 | one result per shuffled task, each at the distance and ratio of its own task |
| ManyRuns.WithDistance | simulations/earth_mars/many_runs.py:92 | the results at distance d are exactly those kept, and no more than all results |
| ManyRuns.WithRatio | simulations/earth_mars/many_runs.py:94 | the results at ratio r are exactly those kept, and no more than all results |
| ManyRuns.Entry | simulations/earth_mars/many_runs.py:92-94 | the [0] at line 94 succeeds iff some result lies at (d, r), and then picks the samples of the first result at (d, r), in result order |
| ManyRuns.MatchingFirst | simulations/earth_mars/many_runs.py:92-94 | the head of the filtered match list is the first result at (d, r) |
| ManyRuns.FiltersCompose | simulations/earth_mars/many_runs.py:92-94 | filtering by distance and then by ratio keeps exactly the results at (distance, ratio), in order |
| ManyRuns.MatchingFound | simulations/earth_mars/many_runs.py:94 | a result at (d, r) makes the match list non-empty |
| ManyRuns.MatchingUnique | simulations/earth_mars/many_runs.py:94 | a result alone at (d, r) is the whole match list |
| ManyRuns.EntryFound | simulations/earth_mars/many_runs.py:94 | a result at (d, r) means the [0] at line 94 does not raise |
| ManyRuns.EntryUnique | simulations/earth_mars/many_runs.py:94 | a result alone at (d, r) is the one whose samples are picked |
| ManyRuns.Collated | simulations/earth_mars/many_runs.py:89-96 | the grid exists iff every grid point has an entry; it then has \|distances\| rows of \|ratios\| cells, cell (i, j) being the entry at (distances[i], ratios[j]) |
| ManyRuns.RowMissing | simulations/earth_mars/many_runs.py:91-95 | a distance with a missing entry makes the whole collation raise |
| ManyRuns.RowsCollated | simulations/earth_mars/many_runs.py:89-96 | rows collated one distance at a time make up the grid |
| ManyRuns.CollatedAgree | simulations/earth_mars/many_runs.py:89-96 | the grid depends on the results only through the entry picked at each grid point |
| ManyRuns.CollateRow | simulations/earth_mars/many_runs.py:91-95 | the inner loop builds the row of entries at one distance, or raises IndexError when an entry is missing |
| ManyRuns.CollateGrid | simulations/earth_mars/many_runs.py:89-96 | the nested loops build the grid of entries, or raise IndexError |
| ManyRuns.OwnRunAt | simulations/earth_mars/many_runs.py:83-87 | the run of task (i, j) sits where the shuffle put index i·\|ratios\| + j, at (distances[i], ratios[j]) |
| ManyRuns.OnlyOwnRun | simulations/earth_mars/many_runs.py:83-94 | with distinct axis values no other run lies at (distances[i], ratios[j]) |
| ManyRuns.EntryExists | simulations/earth_mars/many_runs.py:89-96 | every grid point has an entry, so collation never raises |
| ManyRuns.EntryOfRun | simulations/earth_mars/many_runs.py:83-94 | for any results echoing the shuffled tasks, with distinct axis values, grid point (i, j) holds the samples of the result at the position of task i·\|ratios\| + j |
| ManyRuns.PopulationAt | simulations/earth_mars/many_runs.py:86-87 | the result at shuffled position p is the run of the task placed there, on trial stream p |
| ManyRuns.EntryOfTask | simulations/earth_mars/many_runs.py:83-96 | with distinct axis values grid[i][j] is the samples of the one run of task (distances[i], ratios[j]), wherever the shuffle put it |
| ManyRuns.SameEntry | simulations/earth_mars/many_runs.py:83-96 | two shuffles that give each task the same trials pick the same entry at every grid point |
| ManyRuns.Outcome | simulations/earth_mars/many_runs.py:71-98 | an empty axis raises IndexError (lines 74-75); a result echoes both axes and has one grid row per distance |
| ManyRuns.OutcomeShape | simulations/earth_mars/many_runs.py:71-98 | many_runs fails exactly on an empty axis; otherwise it echoes the axes and the grid is \|distances\| rows of \|ratios\| arrays |
| ManyRuns.ShuffleIndependent | simulations/earth_mars/many_runs.py:83-96 | with distinct axis values, two shuffles that give every task the same trials give the same result |
| ManyRuns.ManyRuns | simulations/earth_mars/many_runs.py:71-98 | many_runs returns Outcome, and succeeds exactly when both axes are non-empty |

## Left out

- Log and progress output (`log`, the `stderr` writes of `many_runs`, the
  commented-out notify) is not modelled: it prints only.
- Randomness is a parameter:
  - `random_string` run ids are left out.
  - `shuffle` is an arbitrary permutation (`order`).
  - Each trial's result is a stream `trials(p)` drawn by the task at
    shuffled position p.
- The process pool is a plain in-order map: the results keep the shuffled
  order, which is all the collation relies on.
- `single_run` and `_single_run` (and the ZeroDivisionError at many_runs.py
  line 34) are not part of this model. A trial's mars-block share is an input.
- The Blockchain, Block, Miners and Transmission base classes are not part
  of this model:
  - Mining, difficulty readjustment and `Miners.react` are left out.
  - Blocks are (id, weight, height).
  - A chain's fields are exactly the five a merge replaces.
  - A transmission is a launch or anything else.
- The agents of a launch run act through the `Step` parameter, and the
  chain views the run reads through an `Observer` parameter. Agent
  construction (lines 99-116) and the `mode`/`last` options are not
  modelled. The model always returns the series together with the final
  share, which covers both return forms of lines 154-165.
- State.World.GetSpatialBoundary: returns the two values, not the live list
  `_SPACE`, so the aliasing of a caller's reference to it is not modelled.
- The floating-point behaviour of the source is not modelled: exact reals
  throughout. In particular:
  - numpy's float `arange` would give 4 values for `0.1,1,0.3`. The exact
    progression gives the 3 values that the doc comment at
    hashwars/utils/__init__.py:37 shows.
  - Float rounding in sums, means and the ratio is not represented.
- Utils.ParseDecimal: accepts only an optional sign, digits and at most one
  decimal point. Exponents, `inf`, `nan`, underscores and surrounding
  whitespace, which Python's `float()` accepts, are reported as errors.
- Utils.FormatDuration: takes an integer number of seconds. Its callers at
  hashwars/simulate.py:42-43 pass floats. For a float, `//` yields floats,
  so the day, hour and minute counts print as `1.0d1.0h1.0m`, and `int()`
  at line 72 truncates the fraction of the remaining seconds. Neither is
  modelled.
- Chains.ZeroBoundDropped: the plain chain's merge is the base
  `Blockchain.merge`, which is not part of this model. It is modelled as
  `Decide(mine, theirs, None)`: line 55's weight test only, with ties
  adopted. The claim that a plain chain adopts a heavier candidate that
  drops a block rests on this.
- State.LocatedIn: `agents_located_in` returns a lazy generator over the
  live dict, so agents added or moved before it is consumed would show up.
  The model returns an eager snapshot taken at the call.
- State.World.AdvanceTime: an agent's `advance` (`State.Step`) can neither
  read nor set the spatial boundary, so AdvanceTime proves the boundary
  unchanged. The source does not guarantee this: an agent could call
  `set_spatial_boundary`.
- ManyRuns.Variance: this is the exact population variance (numpy's `std`
  with ddof 0, squared), not the floating-point `std`.
- The drift diagnostic of many_runs.py lines 61-68 is printed only and is left out. So are the `int()`/`float()`
  conversions of lines 39-44: task fields already have their types.
- ManyRuns.ShuffleIndependent: stated for distinct distances and distinct
  ratios only. With a repeated axis value, the `[0]` at many_runs.py line 94
  picks whichever matching run the shuffle placed first, so the source's
  result genuinely depends on the shuffle.
- Launch.BlockchainLaunch and Launch.AveragedLaunch take hours, step,
  premium and count as required parameters. The option defaults are not
  modelled: 6 hours, step 60 and premium 1.0
  (simulations/blockchain_launch.py:6-8, 84-88) and count 2 (lines 10 and
  74). They only fill in an option the caller leaves out. The constructor
  default of 4 for the reorg bound (lines 9 and 38) is never used, because
  `_build_blockchain` always passes the bound explicitly.
- State.World.AdvanceTime: the time additivity of `advance_time` (advancing
  by a and then by b is the same as advancing by a + b) is not stated. It
  holds only if every agent's own `advance` is additive, and that `advance`
  is the parameter `State.Step`, about which the model assumes nothing.
- The `__main__` blocks, argparse, pickle I/O, plotting, `write_results`,
  `read_results`, `notify` and `format_timestamp` are left out. They are
  I/O only.

## Findings

| source | as written | input that shows it | evidently intended | confidence | as-written member | corrected member |
|---|---|---|---|---|---|---|
| simulations/blockchain_launch.py:61 | the set of dropped block ids is compared with the integer bound using `>` | any merge into a protected chain of a candidate at least as heavy; Python 3 raises TypeError for set > int | compare the number of dropped ids with the bound | high; not executed | Chains.AsWrittenNeverAdopts | Chains.Blockchain.Merge |
| simulations/blockchain_launch.py:47 | `self.max_reorg_block_difference` is read, but the constructor never stores its `max_reorg_block_difference` argument | constructing any ReorgProtectedBlockchain, unless the base class sets that attribute | store the argument before extending the fingerprint | medium (the base class is not part of this model); not executed | Chains.ProtectedConstructionFails | Chains.ProtectedParams |
| simulations/blockchain_launch.py:90 | `int(max_reorg) if max_reorg else None` treats a bound of 0 as absent | `--max-reorg 0` builds a plain chain, which then adopts a heavier candidate that drops a block | test `is not None`, so 0 is a bound | high; not executed | Chains.ZeroBoundDropped | Chains.ZeroBoundProtects |
