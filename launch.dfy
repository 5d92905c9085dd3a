/** The blockchain-launch run: advance the world step by step until the
    requested number of hours has elapsed, and after every step record how
    much of each miner population's work each chain view holds; the run's
    result is the minority's share of the minority chain at the end. */
module Launch {
  import opened Basics
  import opened State
  import opened Chains

  const MINORITY := "minority-miners"
  const MAJORITY := "majority-miners"

  /** Python's `sub in s` on strings. */
  predicate Contains(s: string, sub: string)
  {
    exists i :: 0 <= i <= |s| - |sub| && OccursAt(s, sub, i)
  }

  predicate OccursAt(s: string, sub: string, i: int)
    requires 0 <= i <= |s| - |sub|
  {
    s[i..i + |sub|] == sub
  }

  /** sum(block.weight for block in blocks if owner in block.id). */
  function OwnedWeight(blocks: seq<Block>, owner: string): (w: real)
    ensures (forall k :: 0 <= k < |blocks| ==> !Contains(blocks[k].id, owner)) ==> w == 0.0
    ensures (forall k :: 0 <= k < |blocks| ==> blocks[k].weight >= 0.0) ==> w >= 0.0
  {
    if |blocks| == 0 then 0.0
    else
      var last := blocks[|blocks| - 1];
      OwnedWeight(blocks[..|blocks| - 1], owner) + (if Contains(last.id, owner) then last.weight else 0.0)
  }

  function TotalWeight(blocks: seq<Block>): real
  {
    if |blocks| == 0 then 0.0 else TotalWeight(blocks[..|blocks| - 1]) + blocks[|blocks| - 1].weight
  }

  /** The weights of two populations whose block ids never name both add up
      to at most the chain's total, and each lies between 0 and that total. */
  lemma {:induction false} OwnedWeightBounds(blocks: seq<Block>, a: string, b: string)
    requires forall k :: 0 <= k < |blocks| ==> blocks[k].weight >= 0.0
    requires forall k :: 0 <= k < |blocks| ==> !(Contains(blocks[k].id, a) && Contains(blocks[k].id, b))
    ensures 0.0 <= OwnedWeight(blocks, a) <= TotalWeight(blocks)
    ensures OwnedWeight(blocks, a) + OwnedWeight(blocks, b) <= TotalWeight(blocks)
  {
    if |blocks| > 0 {
      OwnedWeightBounds(blocks[..|blocks| - 1], a, b);
    }
  }

  /** A chain's weight splits over its blocks: the owned weight of a
      concatenation is the sum of the parts'. */
  lemma {:induction false} OwnedWeightAppend(x: seq<Block>, y: seq<Block>, owner: string)
    ensures OwnedWeight(x + y, owner) == OwnedWeight(x, owner) + OwnedWeight(y, owner)
    decreases |y|
  {
    if |y| == 0 {
      assert x + y == x;
    } else {
      assert (x + y)[..|x + y| - 1] == x + y[..|y| - 1];
      assert (x + y)[|x + y| - 1] == y[|y| - 1];
      OwnedWeightAppend(x, y[..|y| - 1], owner);
    }
  }

  /** What the run reads of one miner population's chain: its height and
      its blocks in dictionary order. */
  datatype View = View(height: int, blocks: seq<Block>)

  /** A population's weight in a view; a chain still at its genesis height
      counts 0. */
  function PopulationWeight(v: View, owner: string): (w: real)
    ensures v.height <= 1 ==> w == 0.0
  {
    if v.height > 1 then OwnedWeight(v.blocks, owner) else 0.0
  }

  /** _weight_ratio: part / (part + complement); None is the
      ZeroDivisionError of two zero weights. */
  function WeightRatio(part: real, complement: real): (r: Option<real>)
    ensures r.None? <==> part + complement == 0.0
    ensures r.Some? ==> r.value * (part + complement) == part
  {
    if part + complement == 0.0 then None else Some(part / (part + complement))
  }

  /** For non-negative weights the ratio is a share: it lies in [0, 1], and
      the two populations' shares add up to 1. */
  lemma RatioIsShare(part: real, complement: real)
    requires part >= 0.0 && complement >= 0.0 && part + complement > 0.0
    ensures 0.0 <= WeightRatio(part, complement).value <= 1.0
    ensures WeightRatio(part, complement).value + WeightRatio(complement, part).value == 1.0
  {
    var s := part + complement;
    var r := part / s;
    var r' := complement / s;
    assert r * s == part && r' * s == complement;
    assert (r + r') * s == r * s + r' * s;
    if r > 1.0 {
      assert (r - 1.0) * s > 0.0;
    }
  }

  /** The five series of a run: the clock after each step, and per step the
      minority and majority weights in the minority chain, then in the
      majority chain. */
  datatype Series = Series(
    times: seq<real>,
    minorityMinority: seq<real>,
    minorityMajority: seq<real>,
    majorityMinority: seq<real>,
    majorityMajority: seq<real>)

  /** Every series holds one entry per observed step, each the population
      weight in that step's view. */
  ghost predicate Recorded(s: Series, views: seq<(View, View)>)
  {
    && |s.times| == |views|
    && |s.minorityMinority| == |views| && |s.minorityMajority| == |views|
    && |s.majorityMinority| == |views| && |s.majorityMajority| == |views|
    && (forall k :: 0 <= k < |views| ==>
          && s.minorityMinority[k] == PopulationWeight(views[k].0, MINORITY)
          && s.minorityMajority[k] == PopulationWeight(views[k].0, MAJORITY)
          && s.majorityMinority[k] == PopulationWeight(views[k].1, MINORITY)
          && s.majorityMajority[k] == PopulationWeight(views[k].1, MAJORITY))
  }

  /** The series after one more step, observed at time t. */
  function Extend(s: Series, v: (View, View), t: real): Series
  {
    Series(
      s.times + [t],
      s.minorityMinority + [PopulationWeight(v.0, MINORITY)],
      s.minorityMajority + [PopulationWeight(v.0, MAJORITY)],
      s.majorityMinority + [PopulationWeight(v.1, MINORITY)],
      s.majorityMajority + [PopulationWeight(v.1, MAJORITY)])
  }

  lemma ExtendRecorded(s: Series, views: seq<(View, View)>, v: (View, View), t: real)
    requires Recorded(s, views)
    ensures Recorded(Extend(s, v, t), views + [v])
  {
  }

  /** The clock readings of a run: the first is one step, each next one a
      step later, and all but the last are below the limit. */
  ghost predicate Stepped(times: seq<real>, step: real, limit: real)
  {
    && (|times| > 0 ==> times[0] == step)
    && (forall k :: 0 < k < |times| ==> times[k] == times[k - 1] + step)
    && (forall k :: 0 <= k < |times| - 1 ==> times[k] < limit)
  }

  lemma SteppedExtend(times: seq<real>, step: real, limit: real, t: real)
    requires Stepped(times, step, limit)
    requires |times| > 0 ==> times[|times| - 1] < limit && t == times[|times| - 1] + step
    requires |times| == 0 ==> t == step
    ensures Stepped(times + [t], step, limit)
  {
  }

  /** The k-th reading of a run is k + 1 steps. */
  lemma {:induction false} SteppedTimes(times: seq<real>, step: real, limit: real)
    requires Stepped(times, step, limit)
    ensures forall k :: 0 <= k < |times| ==> times[k] == (k + 1) as real * step
  {
    if |times| > 1 {
      var init := times[..|times| - 1];
      assert Stepped(init, step, limit);
      SteppedTimes(init, step, limit);
      assert times[|times| - 2] == init[|times| - 2];
      assert |times| as real * step == (|times| - 1) as real * step + step;
    }
  }

  /** The minority population's share of the minority chain in a view. */
  function MinorityShare(v: View): (s: Option<real>)
    ensures s.None? <==> PopulationWeight(v, MINORITY) + PopulationWeight(v, MAJORITY) == 0.0
    ensures v.height <= 1 ==> s.None?
    ensures s.Some? ==> s.value * (PopulationWeight(v, MINORITY) + PopulationWeight(v, MAJORITY))
                        == PopulationWeight(v, MINORITY)
  {
    WeightRatio(PopulationWeight(v, MINORITY), PopulationWeight(v, MAJORITY))
  }

  /** When block weights are non-negative and no block id names both
      populations, the minority's share of a chain is a fraction in [0, 1]. */
  lemma MinorityShareBounds(v: View)
    requires forall k :: 0 <= k < |v.blocks| ==> v.blocks[k].weight >= 0.0
    requires forall k :: 0 <= k < |v.blocks| ==>
      !(Contains(v.blocks[k].id, MINORITY) && Contains(v.blocks[k].id, MAJORITY))
    ensures MinorityShare(v).Some? ==> 0.0 <= MinorityShare(v).value <= 1.0
  {
    if v.height > 1 {
      OwnedWeightBounds(v.blocks, MINORITY, MAJORITY);
      OwnedWeightBounds(v.blocks, MAJORITY, MINORITY);
      if MinorityShare(v).Some? {
        RatioIsShare(PopulationWeight(v, MINORITY), PopulationWeight(v, MAJORITY));
      }
    }
  }

  /** The number of steps of a run: the first multiple of step that reaches
      3600 * hours. */
  function StepCount(hours: real, step: real): (n: int)
    requires hours > 0.0 && step > 0.0
    ensures n >= 1
  {
    Ceil(3600.0 * hours / step)
  }

  /** The clock after n steps of the given length from 0. */
  function Elapsed(n: nat, step: real): real
  {
    if n == 0 then 0.0 else Elapsed(n - 1, step) + step
  }

  lemma {:induction false} ElapsedIsProduct(n: nat, step: real)
    ensures Elapsed(n, step) == n as real * step
  {
    if n > 0 {
      ElapsedIsProduct(n - 1, step);
      assert n as real * step == (n - 1) as real * step + step;
    }
  }

  lemma ScaleBelow(a: real, b: real, step: real)
    requires step > 0.0
    ensures a < b ==> a * step < b * step
    ensures a <= b ==> a * step <= b * step
  {
    assert b * step - a * step == (b - a) * step;
    if a < b {
      assert (b - a) * step > 0.0;
    }
  }

  /** n steps stay below the limit exactly when n is less than the number of
      steps needed to reach it. */
  lemma StepsBelow(n: nat, step: real, limit: real)
    requires step > 0.0
    ensures Elapsed(n, step) < limit <==> n < Ceil(limit / step)
  {
    ElapsedIsProduct(n, step);
    var q := limit / step;
    var c := Ceil(q);
    assert q * step == limit;
    if n < c {
      assert n as real <= c as real - 1.0 < q;
      ScaleBelow(n as real, q, step);
    } else {
      assert q <= n as real;
      ScaleBelow(q, n as real, step);
    }
  }

  /** The ticks of a run from tick k up to tick n: the registry after every
      tick that completed, and the id whose lookup or deletion raised
      KeyError, if one did. */
  datatype Ticks = Ticks(after: seq<Registry>, failed: Option<Id>)

  /** Ticks k .. n - 1 of a run from registry r. Tick k advances the agents
      registered when it starts over [Elapsed(k), Elapsed(k + 1)) with the
      clock at Elapsed(k); a tick that raises ends the run. */
  function RunTicks(k: nat, n: nat, r: Registry, step: real, advance: Step): (t: Ticks)
    requires k <= n
    ensures |t.after| <= n - k
    ensures t.failed.None? ==> |t.after| == n - k
    decreases n - k
  {
    if k == n then Ticks([], None)
    else
      var tick := Tick(r.order, r, Duration(Elapsed(k, step), Elapsed(k + 1, step)), Elapsed(k, step), advance);
      if tick.failed.Some? then Ticks([], tick.failed)
      else
        var rest := RunTicks(k + 1, n, tick.registry, step, advance);
        Ticks([tick.registry] + rest.after, rest.failed)
  }

  /** Registries already passed, in front of the rest of a run. */
  function After(regs: seq<Registry>, t: Ticks): Ticks
  {
    Ticks(regs + t.after, t.failed)
  }

  /** One tick of a run: it either raises and ends the run there, or its
      registry comes first and the run goes on from it. */
  lemma RunTicksUnfold(k: nat, n: nat, r: Registry, step: real, advance: Step, tick: TickResult)
    requires k < n
    requires tick == Tick(r.order, r, Duration(Elapsed(k, step), Elapsed(k, step) + step), Elapsed(k, step), advance)
    ensures tick.failed.Some? ==> RunTicks(k, n, r, step, advance) == Ticks([], tick.failed)
    ensures tick.failed.None? ==>
      RunTicks(k, n, r, step, advance) == After([tick.registry], RunTicks(k + 1, n, tick.registry, step, advance))
  {
  }

  lemma AfterAfter(regs: seq<Registry>, next: Registry, t: Ticks)
    ensures After(regs, After([next], t)) == After(regs + [next], t)
  {
    assert regs + ([next] + t.after) == (regs + [next]) + t.after;
  }

  /** A run whose agents only add or replace agents never raises: every
      snapshot id is still registered when its turn comes, tick after tick. */
  lemma {:induction false} RunCompletes(k: nat, n: nat, r: Registry, step: real, advance: Step)
    requires k <= n && WellFormed(r) && OnlyPuts(advance)
    ensures RunTicks(k, n, r, step, advance).failed.None?
    decreases n - k
  {
    if k < n {
      var d := Duration(Elapsed(k, step), Elapsed(k + 1, step));
      TickCompletes(r.order, r, d, Elapsed(k, step), advance);
      TickWellFormed(r.order, r, d, Elapsed(k, step), advance);
      RunCompletes(k + 1, n, Tick(r.order, r, d, Elapsed(k, step), advance).registry, step, advance);
    }
  }

  /** Observes the two chain views from the agents of the world: the
      minority miners' view first. */
  type Observer = map<Id, Agent> -> (View, View)

  datatype LaunchError = MissingAgent(id: Id) | ZeroDivision

  /** A finished run: its series and the minority's final share. */
  datatype Run = Run(series: Series, share: real)

  /** advance_time(step) as tick k of a run of n ticks: it raises and ends
      the run, or its registry is the next one of the run. */
  method AdvanceStep(w: World, step: real, advance: Step, ghost k: nat, ghost n: nat) returns (failed: Option<Id>)
    requires w.Valid() && step > 0.0 && k < n && w.time == Elapsed(k, step)
    modifies w
    ensures w.Valid() && w.space == old(w.space)
    ensures failed.Some? ==> RunTicks(k, n, Registry(old(w.agents), old(w.order)), step, advance) == Ticks([], failed)
    ensures failed.None? ==>
      && w.time == Elapsed(k + 1, step)
      && RunTicks(k, n, Registry(old(w.agents), old(w.order)), step, advance)
         == After([Registry(w.agents, w.order)], RunTicks(k + 1, n, Registry(w.agents, w.order), step, advance))
  {
    ghost var before := Registry(w.agents, w.order);
    var calls;
    calls, failed := w.AdvanceTime(step, advance);
    RunTicksUnfold(k, n, before, step, advance, TickResult(Registry(w.agents, w.order), calls, failed));
  }

  /** Each view was observed on the registry at the same position. */
  ghost predicate Observed(views: seq<(View, View)>, regs: seq<Registry>, observe: Observer)
  {
    |regs| == |views| && forall k :: 0 <= k < |views| ==> views[k] == observe(regs[k].agents)
  }

  lemma ObservedExtend(views: seq<(View, View)>, regs: seq<Registry>, v: (View, View), r: Registry, observe: Observer)
    requires Observed(views, regs, observe) && v == observe(r.agents)
    ensures Observed(views + [v], regs + [r], observe)
  {
  }

  /** Recording the views observed at clock t, a step after the last
      reading, keeps the series recorded, stepped and observed. */
  lemma RecordStep(s: Series, views: seq<(View, View)>, regs: seq<Registry>, v: (View, View), now: Registry,
                   t: real, step: real, limit: real, observe: Observer)
    requires Recorded(s, views) && Stepped(s.times, step, limit) && Observed(views, regs, observe)
    requires v == observe(now.agents)
    requires |views| > 0 ==> s.times[|views| - 1] < limit && t == s.times[|views| - 1] + step
    requires |views| == 0 ==> t == step
    ensures Recorded(Extend(s, v, t), views + [v]) && Stepped(Extend(s, v, t).times, step, limit)
    ensures Observed(views + [v], regs + [now], observe)
    ensures Extend(s, v, t).times[|views|] == t
  {
    ExtendRecorded(s, views, v, t);
    SteppedExtend(s.times, step, limit, t);
    ObservedExtend(views, regs, v, now, observe);
  }

  /** One turn of the stepping loop (lines 126-142): tick k of the run, then,
      unless it raised, the views after it and one more entry in every
      series. */
  method RunStep(w: World, limit: real, step: real, advance: Step, observe: Observer,
                 s: Series, ghost views: seq<(View, View)>, ghost regs: seq<Registry>,
                 ghost start: Registry, ghost n: nat)
    returns (s': Series, failed: Option<Id>, ghost views': seq<(View, View)>, ghost regs': seq<Registry>)
    requires w.Valid() && step > 0.0 && w.time < limit && |views| < n
    requires Recorded(s, views) && Stepped(s.times, step, limit)
    requires w.time == Elapsed(|views|, step) && (|views| > 0 ==> s.times[|views| - 1] == w.time)
    requires Observed(views, regs, observe)
    requires RunTicks(0, n, start, step, advance) == After(regs, RunTicks(|views|, n, Registry(w.agents, w.order), step, advance))
    modifies w
    ensures w.Valid() && w.space == old(w.space)
    ensures failed.Some? ==>
      && s' == s && views' == views && regs' == regs
      && RunTicks(0, n, start, step, advance) == Ticks(regs, failed)
    ensures failed.None? ==>
      && |views'| == |views| + 1
      && Recorded(s', views') && Stepped(s'.times, step, limit)
      && w.time == Elapsed(|views'|, step) && s'.times[|views'| - 1] == w.time
      && Observed(views', regs', observe)
      && RunTicks(0, n, start, step, advance) == After(regs', RunTicks(|views'|, n, Registry(w.agents, w.order), step, advance))
  {
    failed := AdvanceStep(w, step, advance, |views|, n);
    if failed.Some? {
      return s, failed, views, regs;
    }
    ghost var now := Registry(w.agents, w.order);
    AfterAfter(regs, now, RunTicks(|views| + 1, n, now, step, advance));
    var t := w.time;
    var v := observe(w.agents);
    RecordStep(s, views, regs, v, now, t, step, limit, observe);
    s', views', regs' := Extend(s, v, t), views + [v], regs + [now];
  }

  /** The stepping loop of blockchain_launch: advance the world by step
      while its clock is below the limit, and record the series after every
      step; an id missing from the registry ends the run. */
  method RunSteps(w: World, limit: real, step: real, advance: Step, observe: Observer)
    returns (s: Series, failed: Option<Id>, ghost views: seq<(View, View)>)
    requires w.Valid() && w.time == 0.0 && step > 0.0
    modifies w
    ensures w.Valid() && w.space == old(w.space)
    ensures var t := RunTicks(0, RangeLength(Ceil(limit / step)), Registry(old(w.agents), old(w.order)), step, advance);
      && failed == t.failed
      && |views| == |t.after|
      && (forall k :: 0 <= k < |views| ==> views[k] == observe(t.after[k].agents))
    ensures Recorded(s, views) && Stepped(s.times, step, limit)
    ensures failed.None? ==>
      && |views| == RangeLength(Ceil(limit / step))
      && (|views| > 0 ==> s.times[|views| - 1] >= limit)
  {
    var n := RangeLength(Ceil(limit / step));
    ghost var start := Registry(w.agents, w.order);
    ghost var regs: seq<Registry> := [];
    s := Series([], [], [], [], []);
    views := [];
    while w.time < limit
      invariant w.Valid() && w.space == old(w.space)
      invariant Recorded(s, views) && Stepped(s.times, step, limit)
      invariant w.time == Elapsed(|views|, step)
      invariant |views| > 0 ==> s.times[|views| - 1] == w.time
      invariant |views| <= n
      invariant Observed(views, regs, observe)
      invariant RunTicks(0, n, start, step, advance) == After(regs, RunTicks(|views|, n, Registry(w.agents, w.order), step, advance))
      decreases n - |views|
    {
      StepsBelow(|views|, step, limit);
      s, failed, views, regs := RunStep(w, limit, step, advance, observe, s, views, regs, start, n);
      if failed.Some? {
        return;
      }
    }
    StepsBelow(|views|, step, limit);
    if |views| > 0 {
      StepsBelow(|views| - 1, step, limit);
    }
    assert |views| == n;
    failed := None;
  }

  /** blockchain_launch after its agents are registered: the boundary is
      [-1, distance + 1], the clock advances by step while it is below
      3600 * hours, and after each step the four weights are recorded from
      the views; the final share is computed whether or not only the last
      value is wanted. */
  method BlockchainLaunch(w: World, distance: real, hours: real, step: real, premium: real,
                          advance: Step, observe: Observer)
    returns (r: Result<Run, LaunchError>, ghost views: seq<(View, View)>)
    requires w.Valid() && w.time == 0.0
    requires premium > 0.0 && hours > 0.0 && step > 0.0
    requires distance + 1.0 > -1.0
    modifies w, w.space
    ensures w.Valid() && w.space[..] == [-1.0, distance + 1.0]
    ensures r.Ok? ==>
      && Recorded(r.value.series, views)
      && Stepped(r.value.series.times, step, 3600.0 * hours)
      && |views| == StepCount(hours, step)
      && r.value.series.times[|views| - 1] >= 3600.0 * hours
      && Some(r.value.share) == MinorityShare(views[|views| - 1].0)
    ensures r == Err(ZeroDivision) ==>
      |views| == StepCount(hours, step) && MinorityShare(views[|views| - 1].0).None?
    ensures var t := RunTicks(0, StepCount(hours, step), Registry(old(w.agents), old(w.order)), step, advance);
      && |views| == |t.after|
      && (forall k :: 0 <= k < |views| ==> views[k] == observe(t.after[k].agents))
      && (t.failed.Some? ==> r == Err(MissingAgent(t.failed.value)))
      && (t.failed.None? ==> r.Ok? || r == Err(ZeroDivision))
  {
    w.SetSpatialBoundary(-1.0, distance + 1.0);
    var s, failed;
    s, failed, views := RunSteps(w, 3600.0 * hours, step, advance, observe);
    if failed.Some? {
      return Err(MissingAgent(failed.value)), views;
    }
    var n := |s.times|;
    var share := WeightRatio(s.minorityMinority[n - 1], s.minorityMajority[n - 1]);
    if share.None? {
      return Err(ZeroDivision), views;
    }
    r := Ok(Run(s, share.value));
  }

  /** The final shares of runs 0 .. n - 1, in order, or the error of the
      first run that raised. */
  function Shares(runs: nat -> Result<real, LaunchError>, n: nat): (r: Result<seq<real>, LaunchError>)
    ensures r.Ok? ==> |r.value| == n && forall k :: 0 <= k < n ==> runs(k) == Ok(r.value[k])
    ensures (forall k :: 0 <= k < n ==> runs(k).Ok?) ==> r.Ok?
  {
    if n == 0 then Ok([])
    else match Shares(runs, n - 1)
      case Err(e) => Err(e)
      case Ok(xs) =>
        match runs(n - 1)
        case Err(e) => Err(e)
        case Ok(x) => Ok(xs + [x])
  }

  /** Once a run has raised, later runs are never reached. */
  lemma {:induction false} SharesErrorPersists(runs: nat -> Result<real, LaunchError>, i: nat, n: nat)
    requires i <= n && Shares(runs, i).Err?
    ensures Shares(runs, n) == Shares(runs, i)
    decreases n
  {
    if i < n {
      SharesErrorPersists(runs, i, n - 1);
    }
  }

  /** averaged_blockchain_launch: count runs one after the other, each
      yielding its final share (run i's outcome is runs(i)), and their mean;
      no runs give NaN (None). */
  method AveragedLaunch(distance: real, ratio: real, count: int, runs: nat -> Result<real, LaunchError>)
    returns (r: Result<(real, real, Option<real>), LaunchError>)
    ensures var shares := Shares(runs, RangeLength(count));
      && (r.Ok? <==> shares.Ok?)
      && (r.Ok? ==> r.value == (distance, ratio, Mean(shares.value)))
      && (r.Err? ==> r.error == shares.error)
  {
    var n := RangeLength(count);
    var results := [];
    var i := 0;
    while i < n
      invariant 0 <= i <= n
      invariant Shares(runs, i) == Ok(results)
    {
      var share := runs(i);
      if share.Err? {
        assert Shares(runs, i + 1) == Err(share.error);
        SharesErrorPersists(runs, i + 1, n);
        return Err(share.error);
      }
      assert Shares(runs, i + 1) == Ok(results + [share.value]);
      results := results + [share.value];
      i := i + 1;
    }
    r := Ok((distance, ratio, Mean(results)));
  }

  /** The averaged share of runs whose shares are fractions is a fraction;
      it is a number as soon as there is one run. */
  lemma AveragedShareBounds(runs: nat -> Result<real, LaunchError>, count: int)
    requires forall k :: 0 <= k < RangeLength(count) && runs(k).Ok? ==> 0.0 <= runs(k).value <= 1.0
    ensures var shares := Shares(runs, RangeLength(count));
      shares.Ok? && count >= 1 ==> Mean(shares.value).Some? && 0.0 <= Mean(shares.value).value <= 1.0
  {
    var shares := Shares(runs, RangeLength(count));
    if shares.Ok? && count >= 1 {
      MeanBetween(shares.value, 0.0, 1.0);
    }
  }
}
