/** The world of a latinum simulation: one clock, one spatial boundary on a
    line, and a registry of agents keyed by id. Advancing the clock advances
    every agent registered when the tick starts over the same interval and
    only then commits the new time. */
module State {
  import opened Basics

  type Id = string

  /** The half-open interval [start, end) an agent is advanced over. */
  datatype Duration = Duration(start: real, end: real)

  /** An agent as the registry sees it. `memory` stands for whatever else the
      agent keeps; the registry never looks at it. */
  datatype Agent = Agent(id: Id, location: real, memory: int)

  /** What an agent's advance does to the registry: add (or replace) an agent,
      or delete one by id. */
  datatype Edit = Put(agent: Agent) | Delete(id: Id)

  /** An agent's advance: it sees itself, the interval, the clock reading and
      the registry, and answers with the edits it makes. It has no way to
      move the clock. */
  type Step = (Agent, Duration, real, map<Id, Agent>) -> seq<Edit>

  /** The agent dictionary: the map, and its keys in insertion order (the
      order in which a Python dict lists its keys). */
  datatype Registry = Registry(agents: map<Id, Agent>, order: seq<Id>)

  ghost predicate WellFormed(r: Registry)
  {
    && Distinct(r.order)
    && (forall id :: id in r.agents <==> id in r.order)
    && (forall id :: id in r.agents ==> r.agents[id].id == id)
  }

  /** s with every occurrence of x dropped, the rest in order. */
  function Without(s: seq<Id>, x: Id): (t: seq<Id>)
    ensures forall y :: y in t <==> y in s && y != x
    ensures Distinct(s) ==> Distinct(t)
    ensures x !in s ==> t == s
  {
    if |s| == 0 then []
    else if s[0] == x then Without(s[1..], x)
    else
      var rest := Without(s[1..], x);
      assert Distinct(s) ==> Distinct([s[0]] + rest) by {
        if Distinct(s) {
          assert s[0] !in rest;
          forall i, j | 0 <= i < j < |[s[0]] + rest|
            ensures ([s[0]] + rest)[i] != ([s[0]] + rest)[j]
          {
            if i == 0 {
              assert ([s[0]] + rest)[j] in rest;
            }
          }
        }
      }
      [s[0]] + rest
  }

  /** Deleting a key that sits at position p of a key order without repeats
      takes out that one entry: the keys before it and after it keep their
      places. */
  lemma {:induction false} WithoutAt(s: seq<Id>, x: Id, p: nat)
    requires Distinct(s) && p < |s| && s[p] == x
    ensures Without(s, x) == s[..p] + s[p + 1..]
  {
    if p == 0 {
      assert x !in s[1..] by {
        forall j | 0 <= j < |s[1..]| ensures s[1..][j] != x {
          assert s[1..][j] == s[j + 1];
        }
      }
    } else {
      assert Distinct(s[1..]) by {
        forall i, j | 0 <= i < j < |s[1..]| ensures s[1..][i] != s[1..][j] {
          assert s[1..][i] == s[i + 1] && s[1..][j] == s[j + 1];
        }
      }
      assert s[0] != x;
      WithoutAt(s[1..], x, p - 1);
      assert s[1..][..p - 1] + s[1..][p..] == s[1..p] + s[p + 1..];
      assert [s[0]] + (s[1..p] + s[p + 1..]) == s[..p] + s[p + 1..];
    }
  }

  /** add_agent: the agent is stored under its own id; a new id goes to the
      end of the order, a known id keeps its place. */
  function Added(r: Registry, a: Agent): (r': Registry)
    ensures a.id in r'.agents && r'.agents[a.id] == a
    ensures forall id :: id != a.id ==> (id in r'.agents <==> id in r.agents)
    ensures forall id :: id != a.id && id in r.agents ==> r'.agents[id] == r.agents[id]
    ensures a.id in r.agents ==> r'.order == r.order
    ensures a.id !in r.agents ==> r'.order == r.order + [a.id]
    ensures WellFormed(r) ==> WellFormed(r')
  {
    if a.id in r.agents then Registry(r.agents[a.id := a], r.order)
    else Registry(r.agents[a.id := a], r.order + [a.id])
  }

  /** remove_agent on a registered id: exactly that key goes. */
  function Removed(r: Registry, id: Id): (r': Registry)
    requires id in r.agents
    ensures id !in r'.agents
    ensures forall other :: other != id ==> (other in r'.agents <==> other in r.agents)
    ensures forall other :: other != id && other in r.agents ==> r'.agents[other] == r.agents[other]
    ensures WellFormed(r) ==> WellFormed(r')
  {
    Registry(r.agents - {id}, Without(r.order, id))
  }

  /** The registry after an agent's edits, and the id whose deletion raised
      KeyError, if one did; edits before it have taken effect. */
  datatype Outcome = Outcome(registry: Registry, failed: Option<Id>)

  function ApplyEdits(edits: seq<Edit>, r: Registry): (o: Outcome)
    ensures o.failed.Some? ==> o.failed.value !in o.registry.agents
  {
    if |edits| == 0 then Outcome(r, None)
    else match edits[0]
      case Put(a) => ApplyEdits(edits[1..], Added(r, a))
      case Delete(id) =>
        if id in r.agents then ApplyEdits(edits[1..], Removed(r, id))
        else Outcome(r, Some(id))
  }

  /** One call of an agent's advance: whom, over which interval, and what the
      clock read while it ran. */
  datatype Call = Call(id: Id, duration: Duration, clock: real)

  datatype TickResult = TickResult(registry: Registry, calls: seq<Call>, failed: Option<Id>)

  /** The body of advance_time over a snapshot of ids: look each id up (an id
      deleted meanwhile raises KeyError and ends the tick), advance that agent,
      and go on with the registry its edits leave. */
  function Tick(ids: seq<Id>, r: Registry, d: Duration, clock: real, step: Step): (t: TickResult)
    ensures |t.calls| <= |ids|
    ensures t.failed.Some? ==> t.failed.value !in t.registry.agents
  {
    if |ids| == 0 then TickResult(r, [], None)
    else if ids[0] !in r.agents then TickResult(r, [], Some(ids[0]))
    else
      var call := Call(ids[0], d, clock);
      var o := ApplyEdits(step(r.agents[ids[0]], d, clock, r.agents), r);
      if o.failed.Some? then TickResult(o.registry, [call], o.failed)
      else
        var rest := Tick(ids[1..], o.registry, d, clock, step);
        TickResult(rest.registry, [call] + rest.calls, rest.failed)
  }

  /** Calls already made, in front of what the rest of the tick does. */
  function Then(calls: seq<Call>, t: TickResult): TickResult
  {
    TickResult(t.registry, calls + t.calls, t.failed)
  }

  /** One turn of a tick on a registered id. */
  lemma TickUnfold(ids: seq<Id>, i: nat, r: Registry, d: Duration, clock: real, step: Step)
    requires i < |ids| && ids[i] in r.agents
    ensures var o := ApplyEdits(step(r.agents[ids[i]], d, clock, r.agents), r);
      Tick(ids[i..], r, d, clock, step)
      == if o.failed.Some? then TickResult(o.registry, [Call(ids[i], d, clock)], o.failed)
         else Then([Call(ids[i], d, clock)], Tick(ids[i + 1..], o.registry, d, clock, step))
  {
    assert ids[i..][1..] == ids[i + 1..];
  }

  /** The end of a tick: the snapshot is used up, or its next id is gone. */
  lemma TickMissing(ids: seq<Id>, i: nat, r: Registry, d: Duration, clock: real, step: Step)
    requires i <= |ids|
    ensures i == |ids| ==> Tick(ids[i..], r, d, clock, step) == TickResult(r, [], None)
    ensures i < |ids| && ids[i] !in r.agents ==> Tick(ids[i..], r, d, clock, step) == TickResult(r, [], Some(ids[i]))
  {
  }

  lemma ThenNothing(calls: seq<Call>, r: Registry, failed: Option<Id>)
    ensures Then(calls, TickResult(r, [], failed)) == TickResult(r, calls, failed)
  {
    assert calls + [] == calls;
  }

  lemma ThenEmpty(t: TickResult)
    ensures Then([], t) == t
  {
    assert [] + t.calls == t.calls;
  }

  lemma ThenThen(calls: seq<Call>, c: Call, t: TickResult)
    ensures Then(calls, Then([c], t)) == Then(calls + [c], t)
  {
    assert calls + ([c] + t.calls) == (calls + [c]) + t.calls;
  }

  /** Each call of a tick advances the next snapshot id, over the tick's one
      interval, with the clock still at its old reading; a tick that completes
      advanced every snapshot id, and one that fails names a snapshot id or
      an id an agent tried to delete. */
  lemma {:induction false} TickCalls(ids: seq<Id>, r: Registry, d: Duration, clock: real, step: Step)
    ensures var t := Tick(ids, r, d, clock, step);
      && |t.calls| <= |ids|
      && (forall k :: 0 <= k < |t.calls| ==> t.calls[k] == Call(ids[k], d, clock))
      && (t.failed.None? ==> |t.calls| == |ids|)
  {
    if |ids| > 0 && ids[0] in r.agents {
      var o := ApplyEdits(step(r.agents[ids[0]], d, clock, r.agents), r);
      if o.failed.None? {
        TickCalls(ids[1..], o.registry, d, clock, step);
      }
    }
  }

  /** An agent's edits keep the registry well formed. */
  lemma {:induction false} ApplyEditsWellFormed(edits: seq<Edit>, r: Registry)
    requires WellFormed(r)
    ensures WellFormed(ApplyEdits(edits, r).registry)
  {
    if |edits| > 0 {
      match edits[0]
      case Put(a) => ApplyEditsWellFormed(edits[1..], Added(r, a));
      case Delete(id) =>
        if id in r.agents {
          ApplyEditsWellFormed(edits[1..], Removed(r, id));
        }
    }
  }

  /** A tick keeps the registry well formed. */
  lemma {:induction false} TickWellFormed(ids: seq<Id>, r: Registry, d: Duration, clock: real, step: Step)
    requires WellFormed(r)
    ensures WellFormed(Tick(ids, r, d, clock, step).registry)
  {
    if |ids| > 0 && ids[0] in r.agents {
      var o := ApplyEdits(step(r.agents[ids[0]], d, clock, r.agents), r);
      ApplyEditsWellFormed(step(r.agents[ids[0]], d, clock, r.agents), r);
      if o.failed.None? {
        TickWellFormed(ids[1..], o.registry, d, clock, step);
      }
    }
  }

  /** An agent added during a tick is not advanced in it: every call is for
      an id of the snapshot, and for a snapshot without repeats no id is
      advanced twice. */
  lemma OnlySnapshotAdvanced(ids: seq<Id>, r: Registry, d: Duration, clock: real, step: Step)
    requires Distinct(ids)
    ensures var t := Tick(ids, r, d, clock, step);
      && (forall k :: 0 <= k < |t.calls| ==> t.calls[k].id in ids)
      && (forall j, k :: 0 <= j < k < |t.calls| ==> t.calls[j].id != t.calls[k].id)
  {
    TickCalls(ids, r, d, clock, step);
  }

  ghost predicate OnlyPuts(step: Step)
  {
    forall a, d, c, m, k :: 0 <= k < |step(a, d, c, m)| ==> step(a, d, c, m)[k].Put?
  }

  lemma {:induction false} PutsKeepKeys(edits: seq<Edit>, r: Registry)
    requires forall k :: 0 <= k < |edits| ==> edits[k].Put?
    ensures ApplyEdits(edits, r).failed.None?
    ensures forall id :: id in r.agents ==> id in ApplyEdits(edits, r).registry.agents
  {
    if |edits| > 0 {
      PutsKeepKeys(edits[1..], Added(r, edits[0].agent));
    }
  }

  /** When agents only add or replace agents, no lookup of the tick fails:
      every snapshot id is still registered when its turn comes. */
  lemma {:induction false} TickCompletes(ids: seq<Id>, r: Registry, d: Duration, clock: real, step: Step)
    requires OnlyPuts(step)
    requires forall id :: id in ids ==> id in r.agents
    ensures Tick(ids, r, d, clock, step).failed.None?
  {
    if |ids| > 0 {
      var edits := step(r.agents[ids[0]], d, clock, r.agents);
      PutsKeepKeys(edits, r);
      TickCompletes(ids[1..], ApplyEdits(edits, r).registry, d, clock, step);
    }
  }

  /** x occurs in ids at an earlier position than y. */
  ghost predicate Before(ids: seq<Id>, x: Id, y: Id)
  {
    exists p, q :: 0 <= p < q < |ids| && ids[p] == x && ids[q] == y
  }

  /** Two agents listed in the order of ids. */
  ghost predicate Ordered(s: seq<Agent>, ids: seq<Id>)
  {
    forall i, j :: 0 <= i < j < |s| ==> Before(ids, s[i].id, s[j].id)
  }

  /** An order within the tail of ids is an order within ids. */
  lemma OrderedTail(s: seq<Agent>, ids: seq<Id>)
    requires |ids| > 0 && Ordered(s, ids[1..])
    ensures Ordered(s, ids)
  {
    forall i, j | 0 <= i < j < |s|
      ensures Before(ids, s[i].id, s[j].id)
    {
      assert Before(ids[1..], s[i].id, s[j].id);
      var p, q :| 0 <= p < q < |ids[1..]| && ids[1..][p] == s[i].id && ids[1..][q] == s[j].id;
      assert ids[p + 1] == s[i].id && ids[q + 1] == s[j].id;
    }
  }

  /** Putting the agent of the head id in front keeps the list in order. */
  lemma OrderedCons(a: Agent, s: seq<Agent>, ids: seq<Id>)
    requires |ids| > 0 && a.id == ids[0]
    requires forall x :: x in s ==> x.id in ids[1..]
    requires Ordered(s, ids[1..])
    ensures Ordered([a] + s, ids)
  {
    OrderedTail(s, ids);
    var t := [a] + s;
    forall i, j | 0 <= i < j < |t|
      ensures Before(ids, t[i].id, t[j].id)
    {
      if i == 0 {
        assert t[j] == s[j - 1] && t[j] in s;
        var q :| 0 <= q < |ids[1..]| && ids[1..][q] == t[j].id;
        assert ids[0] == t[i].id && ids[q + 1] == t[j].id;
      } else {
        assert t[i] == s[i - 1] && t[j] == s[j - 1];
      }
    }
  }

  /** In the order of a list of distinct ids, no id comes twice. */
  lemma OrderedDistinct(s: seq<Agent>, ids: seq<Id>)
    requires Distinct(ids) && Ordered(s, ids)
    ensures forall i, j :: 0 <= i < j < |s| ==> s[i].id != s[j].id
  {
    forall i, j | 0 <= i < j < |s|
      ensures s[i].id != s[j].id
    {
      assert Before(ids, s[i].id, s[j].id);
      var p, q :| 0 <= p < q < |ids| && ids[p] == s[i].id && ids[q] == s[j].id;
    }
  }

  /** Keeps the agents whose location lies in [lo, hi], both ends included,
      in the order of ids. */
  function Within(ids: seq<Id>, agents: map<Id, Agent>, lo: real, hi: real): (s: seq<Agent>)
    requires forall id :: id in ids ==> id in agents && agents[id].id == id
    ensures |s| <= |ids|
    ensures forall x :: x in s <==> x.id in ids && agents[x.id] == x && lo <= x.location <= hi
    ensures Ordered(s, ids)
  {
    if |ids| == 0 then []
    else
      var rest := Within(ids[1..], agents, lo, hi);
      var a := agents[ids[0]];
      OrderedTail(rest, ids);
      if lo <= a.location <= hi then
        OrderedCons(a, rest, ids);
        [a] + rest
      else rest
  }

  /** agents_located_in: exactly the registered agents at a location in
      [lo, hi], each once, in registry order. */
  function LocatedIn(r: Registry, lo: real, hi: real): (s: seq<Agent>)
    requires WellFormed(r) && hi > lo
    ensures |s| <= |r.agents|
    ensures forall x :: x in s <==> x.id in r.agents && r.agents[x.id] == x && lo <= x.location <= hi
    ensures forall i, j :: 0 <= i < j < |s| ==> s[i].id != s[j].id
    ensures Ordered(s, r.order)
  {
    DistinctCard(r.order, r.agents.Keys);
    var s := Within(r.order, r.agents, lo, hi);
    OrderedDistinct(s, r.order);
    s
  }

  lemma {:induction false} DistinctCard(s: seq<Id>, keys: set<Id>)
    requires Distinct(s) && forall id :: id in keys <==> id in s
    ensures |keys| == |s|
  {
    if |s| > 0 {
      var rest := keys - {s[0]};
      assert forall id :: id in rest <==> id in s[1..] by {
        forall id ensures id in rest <==> id in s[1..] {
          if id in s[1..] {
            var j :| 0 <= j < |s[1..]| && s[1..][j] == id;
            assert s[j + 1] == id;
          }
        }
      }
      DistinctCard(s[1..], rest);
    }
  }

  /** The simulation's module state: the clock, the boundary [space[0],
      space[1]] and the agent registry. */
  class World {
    var time: real
    var space: array<real>
    var agents: map<Id, Agent>
    var order: seq<Id>

    ghost predicate Valid()
      reads this`space, this`agents, this`order, space
    {
      space.Length == 2 && space[0] < space[1] && WellFormed(Registry(agents, order))
    }

    function Contents(): Registry
      reads this`agents, this`order
    {
      Registry(agents, order)
    }

    /** The module's initial values: time 0, boundary [0, 1], no agents. */
    constructor ()
      ensures Valid() && fresh(space)
      ensures time == 0.0 && space[..] == [0.0, 1.0] && agents == map[] && order == []
    {
      time := 0.0;
      space := new real[2] [0.0, 1.0];
      agents := map[];
      order := [];
    }

    method CurrentTime() returns (t: real)
      ensures t == time
    {
      t := time;
    }

    method GetSpatialBoundary() returns (lo: real, hi: real)
      requires Valid()
      ensures lo == space[0] && hi == space[1] && lo < hi
    {
      lo, hi := space[0], space[1];
    }

    /** The boundary is rewritten in place, element by element. */
    method SetSpatialBoundary(x: real, y: real)
      requires Valid() && y > x
      modifies space
      ensures Valid() && space[..] == [x, y]
    {
      space[0] := x;
      space[1] := y;
    }

    method AddAgent(a: Agent)
      requires Valid()
      modifies this
      ensures Valid() && Contents() == Added(old(Contents()), a)
      ensures time == old(time) && space == old(space)
    {
      var r := Added(Contents(), a);
      agents, order := r.agents, r.order;
    }

    /** A copy of the keys, in registry order. */
    method AllAgentIds() returns (ids: seq<Id>)
      requires Valid()
      ensures ids == order && Distinct(ids)
      ensures forall id :: id in ids <==> id in agents
    {
      ids := order;
    }

    /** get_agent; None is the KeyError of an unknown id. */
    method GetAgent(id: Id) returns (a: Option<Agent>)
      requires Valid()
      ensures id in agents ==> a == Some(agents[id]) && a.value.id == id
      ensures id !in agents ==> a == None
    {
      if id in agents {
        a := Some(agents[id]);
      } else {
        a := None;
      }
    }

    /** remove_agent; found is false for the KeyError of an unknown id, and
      then nothing changes. */
    method RemoveAgent(id: Id) returns (found: bool)
      requires Valid()
      modifies this
      ensures Valid() && found == (id in old(agents))
      ensures found ==> Contents() == Removed(old(Contents()), id)
      ensures !found ==> Contents() == old(Contents())
      ensures time == old(time) && space == old(space)
    {
      found := id in agents;
      if found {
        var r := Removed(Contents(), id);
        agents, order := r.agents, r.order;
      }
    }

    method AgentsLocatedIn(lo: real, hi: real) returns (s: seq<Agent>)
      requires Valid() && hi > lo
      ensures s == LocatedIn(Contents(), lo, hi)
    {
      s := LocatedIn(Contents(), lo, hi);
    }

    /** Carries out one agent's edits through add_agent and remove_agent,
      stopping at a deletion that raises KeyError. */
    method Perform(edits: seq<Edit>) returns (failed: Option<Id>)
      requires Valid()
      modifies this
      ensures Valid() && Outcome(Contents(), failed) == ApplyEdits(edits, old(Contents()))
      ensures time == old(time) && space == old(space)
    {
      var k := 0;
      while k < |edits|
        invariant 0 <= k <= |edits|
        invariant Valid() && time == old(time) && space == old(space)
        invariant ApplyEdits(edits, old(Contents())) == ApplyEdits(edits[k..], Contents())
      {
        assert edits[k..][1..] == edits[k + 1..];
        match edits[k] {
          case Put(a) =>
            AddAgent(a);
          case Delete(id) =>
            var found := RemoveAgent(id);
            if !found {
              return Some(id);
            }
        }
        k := k + 1;
      }
      failed := None;
    }

    /** One agent's advance inside a tick: it runs with the clock at its
      current reading, and its edits go through add_agent and remove_agent. */
    method Advance(agent: Agent, d: Duration, step: Step) returns (call: Call, failed: Option<Id>)
      requires Valid()
      modifies this
      ensures Valid() && time == old(time) && space == old(space)
      ensures call == Call(agent.id, d, old(time))
      ensures Outcome(Contents(), failed) == ApplyEdits(step(agent, d, old(time), old(agents)), old(Contents()))
    {
      var now := CurrentTime();
      var edits := step(agent, d, now, agents);
      call := Call(agent.id, d, now);
      failed := Perform(edits);
    }

    /** advance_time: every agent of the snapshot taken at the start is
      advanced over [time, time + amount) while the clock still reads the
      old time; the new time is committed only once all have run. A lookup
      or deletion that raises KeyError ends the tick with the clock
      unchanged. */
    method AdvanceTime(amount: real, step: Step) returns (calls: seq<Call>, failed: Option<Id>)
      requires Valid() && amount > 0.0
      modifies this
      ensures Valid() && space == old(space)
      ensures TickResult(Registry(agents, order), calls, failed)
           == Tick(old(order), Registry(old(agents), old(order)), Duration(old(time), old(time) + amount), old(time), step)
      ensures failed.None? ==> time == old(time) + amount && time > old(time)
      ensures failed.Some? ==> time == old(time)
    {
      var end := time + amount;
      var d := Duration(time, end);
      calls, failed := AdvanceAgents(d, step);
      if failed.Some? {
        return;
      }
      time := end;
    }

    /** The loop of lines 21-23: every snapshot id in turn is looked up and
        advanced over d, with the clock unchanged. */
    method AdvanceAgents(d: Duration, step: Step) returns (calls: seq<Call>, failed: Option<Id>)
      requires Valid()
      modifies this
      ensures Valid() && time == old(time) && space == old(space)
      ensures TickResult(Registry(agents, order), calls, failed) == Tick(old(order), Registry(old(agents), old(order)), d, old(time), step)
    {
      var ids := AllAgentIds();
      ghost var t0 := Tick(ids, Contents(), d, time, step);
      calls := [];
      var i := 0;
      ThenEmpty(t0);
      while i < |ids|
        invariant 0 <= i <= |ids|
        invariant Valid() && time == old(time) && space == old(space)
        invariant t0 == Then(calls, Tick(ids[i..], Contents(), d, time, step))
      {
        var agent := GetAgent(ids[i]);
        if agent.None? {
          TickMissing(ids, i, Contents(), d, time, step);
          ThenNothing(calls, Contents(), Some(ids[i]));
          return calls, Some(ids[i]);
        }
        ghost var o := ApplyEdits(step(agent.value, d, time, agents), Contents());
        TickUnfold(ids, i, Contents(), d, time, step);
        ThenThen(calls, Call(ids[i], d, time), Tick(ids[i + 1..], o.registry, d, time, step));
        var call;
        call, failed := Advance(agent.value, d, step);
        calls := calls + [call];
        if failed.Some? {
          return;
        }
        i := i + 1;
      }
      TickMissing(ids, i, Contents(), d, time, step);
      ThenNothing(calls, Contents(), None);
      failed := None;
    }
  }
}
