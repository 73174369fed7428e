/**
 * The run scheduler of the simulator: the table of runs with its allocation and completion
 * flags, the queue of dispatches held back while paused, the rounds archive, the best run and
 * the messages sent to the simulation workers. The transitions are pure functions over a
 * `State` snapshot; the `Simulator` class performs them step by step and is proved to land on
 * the state they describe.
 */
module Scheduler {
  import opened Wrappers
  import opened Types
  import opened TreeSpecies
  import opened Evolution
  import opened JsMath

  const NumYearsPerRun: nat := 100

  /** A simulation worker, by its place in the worker list. */
  type WorkerRef = nat

  /** A message the scheduler posts to a worker. */
  datatype Outgoing =
    | RunScenario(worker: WorkerRef, id: int, scenario: Scenario, treeSpecies: seq<Species>,
                  numYearsPerRun: nat, sendLiveTreeUpdates: bool, enableSelectiveHarvesting: bool)
    | Pause(worker: WorkerRef)
    | Resume(worker: WorkerRef)

  /** A message a worker posts back; `Other` stands for every other `type`. */
  datatype Incoming = RunData(run: Run) | UpdatedRun(run: Run) | Ready | Other

  /** The settings the scheduler reads but never writes. */
  datatype Config = Config(workers: seq<WorkerRef>, useMultithreading: bool, enableSelectiveHarvesting: bool)

  /** Every store of the scheduler that its operations write. */
  datatype State = State(
    runs: seq<Run>,
    rounds: seq<seq<Run>>,
    currentRound: int,
    bestRun: Option<Run>,
    isRunning: bool,
    isPaused: bool,
    isComplete: bool,
    currentRunId: int,
    roundIndexViewed: int,
    pauseQueue: seq<WorkerRef>,
    outbox: seq<Outgoing>,
    fitnessImprovement: real,
    numWorkersReady: int)

  /** The stores as the module initialises them. */
  function InitialState(): (s: State)
    ensures s.runs == [] && s.rounds == [] && s.currentRound == 0 && s.bestRun.None?
    ensures !s.isRunning && !s.isPaused && !s.isComplete && s.pauseQueue == [] && s.outbox == []
  {
    State([], [], 0, None, false, false, false, 0, 0, [], [], 0.0, 0)
  }

  /**
   * What every reachable state satisfies: the round lies in [0, maxRounds], a best run has a
   * positive fitness, from the first round on the table holds `populationSize` runs, and every
   * archived round is non-empty.
   */
  predicate ValidState(s: State)
  {
    && 0 <= s.currentRound <= MaxRounds
    && (s.bestRun.Some? ==> s.bestRun.value.fitness > 0.0)
    && (s.currentRound >= 1 ==> |s.runs| == PopulationSize)
    && (forall k :: 0 <= k < |s.rounds| ==> |s.rounds[k]| > 0)
  }

  predicate ValidConfig(c: Config)
  {
    |c.workers| >= 1
  }

  lemma InitialStateValid()
    ensures ValidState(InitialState())
  {
  }

  // ---------------------------------------------------------------- the run table

  predicate UniqueIds(rs: seq<Run>)
  {
    forall i, j :: 0 <= i < j < |rs| ==> rs[i].id != rs[j].id
  }

  /** `first(runs.filter(run => !run.isAllocated))`, as an index. */
  function FirstUnallocated(rs: seq<Run>): (i: Option<nat>)
    ensures i.Some? ==> i.value < |rs| && !rs[i.value].isAllocated && forall j :: 0 <= j < i.value ==> rs[j].isAllocated
    ensures i.None? ==> forall j :: 0 <= j < |rs| ==> rs[j].isAllocated
  {
    if rs == [] then None
    else if !rs[0].isAllocated then Some(0)
    else
      var rest := FirstUnallocated(rs[1..]);
      if rest.None? then None else Some(rest.value + 1)
  }

  /** `runs.filter(run => !run.isAllocated).length`. */
  function UnallocatedCount(rs: seq<Run>): nat
  {
    if rs == [] then 0
    else UnallocatedCount(rs[..|rs| - 1]) + (if rs[|rs| - 1].isAllocated then 0 else 1)
  }

  /** `runs.filter(run => !run.isComplete).length`. */
  function UnfinishedCount(rs: seq<Run>): nat
  {
    if rs == [] then 0
    else UnfinishedCount(rs[..|rs| - 1]) + (if rs[|rs| - 1].isComplete then 0 else 1)
  }

  lemma {:induction false} UnallocatedCountZero(rs: seq<Run>)
    ensures UnallocatedCount(rs) == 0 <==> forall j :: 0 <= j < |rs| ==> rs[j].isAllocated
  {
    if rs != [] {
      var init := rs[..|rs| - 1];
      UnallocatedCountZero(init);
      assert forall j :: 0 <= j < |init| ==> init[j] == rs[j];
    }
  }

  /** Setting one unallocated run's flag lowers the count of unallocated runs by exactly one. */
  lemma {:induction false} UnallocatedCountMark(rs: seq<Run>, i: nat)
    requires i < |rs| && !rs[i].isAllocated
    ensures UnallocatedCount(rs[i := rs[i].(isAllocated := true)]) == UnallocatedCount(rs) - 1
  {
    var t := rs[i := rs[i].(isAllocated := true)];
    var n := |rs| - 1;
    if i < n {
      UnallocatedCountMark(rs[..n], i);
      assert t[..n] == rs[..n][i := rs[i].(isAllocated := true)];
    } else {
      assert t[..n] == rs[..n];
    }
  }

  /** The map in `dispatchNextRunToWorker` that sets `isAllocated` on every run of the id. */
  function MarkAllocated(rs: seq<Run>, id: int): seq<Run>
  {
    seq(|rs|, i requires 0 <= i < |rs| => if rs[i].id == id then rs[i].(isAllocated := true) else rs[i])
  }

  /** With distinct ids, marking the id of run `i` changes that run's flag and nothing else. */
  lemma MarkAllocatedOne(rs: seq<Run>, i: nat)
    requires UniqueIds(rs) && i < |rs|
    ensures MarkAllocated(rs, rs[i].id) == rs[i := rs[i].(isAllocated := true)]
  {
  }

  /** The map in `handleMessage`: every run of the id replaced by the incoming run. */
  function ReplaceById(rs: seq<Run>, r: Run): seq<Run>
  {
    seq(|rs|, i requires 0 <= i < |rs| => if rs[i].id == r.id then r else rs[i])
  }

  /** With distinct ids, the incoming run takes the place of its namesake and nothing else moves. */
  lemma ReplaceByIdOne(rs: seq<Run>, r: Run, k: nat)
    requires UniqueIds(rs) && k < |rs| && rs[k].id == r.id
    ensures ReplaceById(rs, r) == rs[k := r]
  {
  }

  /** A run of an id the table does not hold changes nothing. */
  lemma ReplaceByIdAbsent(rs: seq<Run>, r: Run)
    requires forall i :: 0 <= i < |rs| ==> rs[i].id != r.id
    ensures ReplaceById(rs, r) == rs
  {
  }

  /** Neither map changes an id, so distinct ids stay distinct. */
  lemma MapsKeepIds(rs: seq<Run>, r: Run, id: int)
    ensures UniqueIds(rs) ==> UniqueIds(MarkAllocated(rs, id)) && UniqueIds(ReplaceById(rs, r))
  {
    assert forall i :: 0 <= i < |rs| ==> MarkAllocated(rs, id)[i].id == rs[i].id && ReplaceById(rs, r)[i].id == rs[i].id;
  }

  // ---------------------------------------------------------------- dispatch

  /** The `runScenario` message for run `r`. */
  function RunScenarioFor(c: Config, w: WorkerRef, r: Run): Outgoing
  {
    RunScenario(w, r.id, r.scenario, Catalog(), NumYearsPerRun, !c.useMultithreading, c.enableSelectiveHarvesting)
  }

  /**
   * `dispatchNextRunToWorker(w)`: post the first unallocated run to `w` and mark it
   * allocated; nothing happens when every run is allocated.
   */
  function DispatchStep(c: Config, s: State, w: WorkerRef): (t: State)
    ensures t == s.(runs := t.runs, outbox := t.outbox) && |t.runs| == |s.runs|
  {
    var first := FirstUnallocated(s.runs);
    if first.None? then s
    else
      var r := s.runs[first.value];
      s.(runs := MarkAllocated(s.runs, r.id), outbox := s.outbox + [RunScenarioFor(c, w, r)])
  }

  /** The dispatches to `ws`, one after the other, first to last. */
  function DispatchAll(c: Config, s: State, ws: seq<WorkerRef>): (t: State)
    ensures t == s.(runs := t.runs, outbox := t.outbox) && |t.runs| == |s.runs|
  {
    if ws == [] then s else DispatchStep(c, DispatchAll(c, s, ws[..|ws| - 1]), ws[|ws| - 1])
  }

  /**
   * With distinct ids, a dispatch to `w` posts exactly when some run is unallocated, then
   * posts that first unallocated run to `w` and lowers the unallocated count by one.
   */
  lemma DispatchStepEffect(c: Config, s: State, w: WorkerRef)
    requires UniqueIds(s.runs)
    ensures var t := DispatchStep(c, s, w);
            && UniqueIds(t.runs)
            && (UnallocatedCount(s.runs) == 0 ==> t == s)
            && (UnallocatedCount(s.runs) > 0 ==>
                  && UnallocatedCount(t.runs) == UnallocatedCount(s.runs) - 1
                  && t.outbox == s.outbox + [RunScenarioFor(c, w, s.runs[FirstUnallocated(s.runs).value])])
  {
    UnallocatedCountZero(s.runs);
    var first := FirstUnallocated(s.runs);
    if first.Some? {
      var i := first.value;
      MarkAllocatedOne(s.runs, i);
      UnallocatedCountMark(s.runs, i);
      MapsKeepIds(s.runs, s.runs[i], s.runs[i].id);
    }
  }

  function Min(a: nat, b: nat): nat { if a <= b then a else b }

  /** `after` is `before` followed by one `runScenario` message to each of the first `n` workers of `ws`, in order. */
  predicate ServedInOrder(before: seq<Outgoing>, after: seq<Outgoing>, ws: seq<WorkerRef>, n: nat)
  {
    && n <= |ws| && |after| == |before| + n && after[..|before|] == before
    && forall k :: 0 <= k < n ==> ServedSlot(after, |before|, ws, k)
  }

  /** Message `start + k` of `msgs` is a `runScenario` to worker `k` of `ws`. */
  predicate ServedSlot(msgs: seq<Outgoing>, start: nat, ws: seq<WorkerRef>, k: nat)
  {
    start + k < |msgs| && k < |ws| && msgs[start + k].RunScenario? && msgs[start + k].worker == ws[k]
  }

  /** One more message, to the next worker, extends the served prefix by one. */
  lemma ServedExtend(before: seq<Outgoing>, mid: seq<Outgoing>, ws: seq<WorkerRef>, x: Outgoing)
    requires ws != [] && ServedInOrder(before, mid, ws[..|ws| - 1], |ws| - 1)
    requires x.RunScenario? && x.worker == ws[|ws| - 1]
    ensures ServedInOrder(before, mid + [x], ws, |ws|)
  {
    var m := |ws| - 1;
    var after := mid + [x];
    assert after[..|before|] == mid[..|before|];
    forall k | 0 <= k < |ws| ensures ServedSlot(after, |before|, ws, k) {
      if k < m {
        assert ServedSlot(mid, |before|, ws[..m], k);
        assert ws[..m][k] == ws[k];
      } else {
        assert after[|before| + k] == x;
      }
    }
  }

  /** The served prefix of a shorter worker list is the served prefix of a longer one. */
  lemma ServedLonger(before: seq<Outgoing>, after: seq<Outgoing>, ws: seq<WorkerRef>, n: nat)
    requires ws != [] && ServedInOrder(before, after, ws[..|ws| - 1], n)
    ensures ServedInOrder(before, after, ws, n)
  {
    forall k | 0 <= k < n ensures ServedSlot(after, |before|, ws, k) {
      assert ServedSlot(after, |before|, ws[..|ws| - 1], k);
      assert ws[..|ws| - 1][k] == ws[k];
    }
  }

  /**
   * With distinct ids, dispatching to `ws` in turn serves the first min(|ws|, unallocated)
   * workers in order, one `runScenario` message each, and allocates that many runs.
   */
  lemma {:induction false} DispatchAllEffect(c: Config, s: State, ws: seq<WorkerRef>)
    requires UniqueIds(s.runs)
    ensures var t := DispatchAll(c, s, ws);
            var n := Min(|ws|, UnallocatedCount(s.runs));
            && UniqueIds(t.runs)
            && UnallocatedCount(t.runs) == UnallocatedCount(s.runs) - n
            && ServedInOrder(s.outbox, t.outbox, ws, n)
  {
    if ws == [] {
      assert s.outbox[..|s.outbox|] == s.outbox;
    } else {
      var init := ws[..|ws| - 1];
      DispatchAllEffect(c, s, init);
      var mid := DispatchAll(c, s, init);
      var m := Min(|init|, UnallocatedCount(s.runs));
      DispatchStepEffect(c, mid, ws[|ws| - 1]);
      if UnallocatedCount(mid.runs) > 0 {
        var x := RunScenarioFor(c, ws[|ws| - 1], mid.runs[FirstUnallocated(mid.runs).value]);
        ServedExtend(s.outbox, mid.outbox, ws, x);
      } else {
        ServedLonger(s.outbox, mid.outbox, ws, m);
      }
    }
  }

  /** `runPopulation`: every worker in multithreaded mode, the first one otherwise. */
  function PopulationDispatch(c: Config, s: State): (t: State)
    requires ValidConfig(c)
    ensures t == s.(runs := t.runs, outbox := t.outbox) && |t.runs| == |s.runs|
  {
    if c.useMultithreading then DispatchAll(c, s, c.workers) else DispatchStep(c, s, c.workers[0])
  }

  // ---------------------------------------------------------------- rounds

  /** `last(sortBy(runs, 'fitness'))`. */
  function BestOf(rs: seq<Run>): (b: Option<Run>)
    ensures b.Some? <==> rs != []
    ensures b.Some? ==> b.value in rs
  {
    if rs == [] then None
    else
      var s := SortByFitness(rs);
      SortByFitnessFacts(rs);
      assert s[|s| - 1] in multiset(rs);
      Some(s[|s| - 1])
  }

  /** The best of a table is at least as fit as every run of it. */
  lemma BestOfIsFittest(rs: seq<Run>)
    requires rs != []
    ensures forall r :: r in rs ==> r.fitness <= BestOf(rs).value.fitness
  {
    LastIsFittest(rs);
  }

  /** `last(sortBy(runs, 'fitness'))?.fitness || 0`. */
  function MaxFitnessOrZero(rs: seq<Run>): real
  {
    if rs == [] then 0.0 else BestOf(rs).value.fitness
  }

  /** `bestRunInLastRound?.fitness && bestRunInLastRound.fitness > (bestRun?.fitness ?? 0)`. */
  predicate Improves(candidate: Option<Run>, bestRun: Option<Run>)
  {
    && candidate.Some? && candidate.value.fitness != 0.0
    && candidate.value.fitness > (if bestRun.Some? then bestRun.value.fitness else 0.0)
  }

  /** A run archived in `rounds`: its `trees` and `deadTrees` emptied. */
  function Archived(rs: seq<Run>): (a: seq<Run>)
    ensures |a| == |rs|
    ensures forall i :: 0 <= i < |a| ==> a[i] == rs[i].(trees := [], deadTrees := [])
  {
    seq(|rs|, i requires 0 <= i < |rs| => rs[i].(trees := [], deadTrees := []))
  }

  /**
   * `updateOverallFitnessImprovement`: the ratio of the latest best fitness (of the last
   * archived round once `maxRounds` are archived, of the table before) to the first round's.
   */
  function ImprovementStep(s: State): (t: State)
    ensures t == s.(fitnessImprovement := t.fitnessImprovement)
  {
    if |s.rounds| == 0 then s
    else
      var first := MaxFitnessOrZero(s.rounds[0]);
      var latest := LatestMaxFitness(s);
      if first != 0.0 && latest != 0.0 then s.(fitnessImprovement := latest / first) else s
  }

  /** The best fitness the ratio compares with the first round's: the last archived round's at `maxRounds`, else the table's. */
  function LatestMaxFitness(s: State): real
  {
    if |s.rounds| == MaxRounds then MaxFitnessOrZero(s.rounds[|s.rounds| - 1]) else MaxFitnessOrZero(s.runs)
  }

  /** `MaxFitnessOrZero` is the highest fitness of a non-empty table, and 0 for an empty one. */
  lemma MaxFitnessIsMax(rs: seq<Run>)
    ensures rs == [] ==> MaxFitnessOrZero(rs) == 0.0
    ensures rs != [] ==> exists r :: r in rs && r.fitness == MaxFitnessOrZero(rs)
    ensures forall r :: r in rs ==> r.fitness <= MaxFitnessOrZero(rs)
  {
    if rs != [] {
      BestOfIsFittest(rs);
      var s := SortByFitness(rs);
      SortByFitnessFacts(rs);
      assert s[|s| - 1] in multiset(rs);
    }
  }

  /**
   * Without an archived round the ratio is left alone. Otherwise it becomes latest / first
   * exactly when both best fitnesses are non-zero, and is left alone when either is 0; it
   * is positive when both are, and at least 1 when the best fitness has not dropped.
   */
  lemma ImprovementFacts(s: State)
    ensures |s.rounds| == 0 ==> ImprovementStep(s) == s
    ensures |s.rounds| > 0 ==>
              var t := ImprovementStep(s);
              var first := MaxFitnessOrZero(s.rounds[0]);
              var latest := LatestMaxFitness(s);
              && (first != 0.0 && latest != 0.0 ==> t.fitnessImprovement * first == latest)
              && (first == 0.0 || latest == 0.0 ==> t == s)
              && (first > 0.0 && latest > 0.0 ==> t.fitnessImprovement > 0.0)
              && (0.0 < first <= latest ==> t.fitnessImprovement >= 1.0)
  {
    if |s.rounds| > 0 {
      var first := MaxFitnessOrZero(s.rounds[0]);
      var latest := LatestMaxFitness(s);
      if first != 0.0 && latest != 0.0 {
        var q := latest / first;
        assert ImprovementStep(s).fitnessImprovement == q;
        assert q * first == latest;
        if first > 0.0 && latest > 0.0 {
          if q <= 0.0 {
            ProductPositive(-q, first);
            assert false;
          }
        }
        if 0.0 < first <= latest {
          DivideMonotone(first, latest, first);
          assert first / first == 1.0;
        }
      }
    }
  }

  /** `completeSimulation`: stopped, complete, and showing the run of highest fitness. */
  function CompletionStep(s: State): (t: State)
    ensures t == s.(isRunning := false, isPaused := false, isComplete := true, currentRunId := t.currentRunId)
    ensures t.currentRunId == Leader(s.runs).1
  {
    s.(isRunning := false, isPaused := false, isComplete := true, currentRunId := Leader(s.runs).1)
  }

  /**
   * `selectNewPopulation` for `s.currentRound`: from the second round on the top elite's id
   * becomes the current run, then the new table replaces the old one; where the source
   * throws, the table stays as it was.
   */
  function PopulationStep(s: State, d: PopulationDraws): (t: State)
    ensures t == s.(runs := t.runs, currentRunId := t.currentRunId)
  {
    var elites := Elites(s.runs);
    var s1 := if s.currentRound != 1 && |elites| > 0 then s.(currentRunId := elites[0].id) else s;
    var population := NewPopulation(s.currentRound, s.runs, d);
    if population.Some? then s1.(runs := population.value) else s1
  }

  /** The first step of `attemptToRunNextRound`: keep the table's best run if it improves on the best so far. */
  function RecordBest(s: State): (t: State)
    ensures t == s.(bestRun := t.bestRun)
  {
    var best := BestOf(s.runs);
    if Improves(best, s.bestRun) then s.(bestRun := best) else s
  }

  /** The second step: archive the table, with trees dropped, unless it is empty. */
  function ArchiveRound(s: State): (t: State)
    ensures t == s.(rounds := t.rounds)
  {
    if |s.runs| > 0 then s.(rounds := s.rounds + [Archived(s.runs)]) else s
  }

  /** The last step: complete at `maxRounds`, or start the next round with a new population. */
  function AdvanceRound(c: Config, s: State, d: PopulationDraws): State
    requires ValidConfig(c)
  {
    if s.currentRound >= MaxRounds then CompletionStep(s)
    else StartRound(c, s.(currentRound := s.currentRound + 1, roundIndexViewed := s.currentRound), d)
  }

  /** `selectNewPopulation` then `runPopulation`, which the source never reaches when the former throws. */
  function StartRound(c: Config, s: State, d: PopulationDraws): State
    requires ValidConfig(c)
  {
    if NewPopulation(s.currentRound, s.runs, d).None? then PopulationStep(s, d)
    else PopulationDispatch(c, PopulationStep(s, d))
  }

  /** `attemptToRunNextRound`: record the best run, archive the round, then finish or start the next round. */
  function NextRoundStep(c: Config, s: State, d: PopulationDraws): State
    requires ValidConfig(c)
  {
    AdvanceRound(c, ArchiveRound(RecordBest(s)), d)
  }

  /** The best run changes only to the fittest run of the table, with a positive fitness strictly above the best so far. */
  lemma RecordBestFacts(s: State)
    requires ValidState(s)
    ensures var t := RecordBest(s);
            && ValidState(t)
            && (t.bestRun == s.bestRun || (
                  && t.bestRun == BestOf(s.runs) && t.bestRun.value in s.runs
                  && t.bestRun.value.fitness > 0.0
                  && (s.bestRun.Some? ==> t.bestRun.value.fitness > s.bestRun.value.fitness)))
  {
  }

  /** From a valid state a new round has a population: the first round's, or a full table's elites and new members. */
  lemma StartRoundValid(c: Config, s: State, d: PopulationDraws)
    requires ValidConfig(c) && 1 <= s.currentRound <= MaxRounds && ValidState(s.(currentRound := s.currentRound - 1))
    ensures var t := StartRound(c, s, d);
            && NewPopulation(s.currentRound, s.runs, d).Some?
            && ValidState(t) && t.currentRound == s.currentRound && t.pauseQueue == s.pauseQueue
  {
    var population := NewPopulation(s.currentRound, s.runs, d);
    assert population.Some? && |population.value| == PopulationSize by {
      if s.currentRound == 1 {
        FirstRoundPopulation(s.runs, d);
      } else {
        LaterRoundPopulation(s.currentRound, s.runs, d);
      }
    }
    var p := PopulationStep(s, d);
    assert p.runs == population.value;
    var t := PopulationDispatch(c, p);
    assert StartRound(c, s, d) == t;
  }

  /** The first two steps of `attemptToRunNextRound` keep a valid state valid and leave the round and the queue alone. */
  lemma RecordAndArchiveValid(s: State)
    requires ValidState(s)
    ensures var s2 := ArchiveRound(RecordBest(s));
            ValidState(s2) && s2.currentRound == s.currentRound && s2.pauseQueue == s.pauseQueue && s2.runs == s.runs
  {
    RecordBestFacts(s);
  }

  /** Below `maxRounds` the next round has a population and keeps the state valid. */
  lemma NextRoundAdvances(c: Config, s: State, d: PopulationDraws)
    requires ValidConfig(c) && ValidState(s) && s.currentRound < MaxRounds
    ensures var t := NextRoundStep(c, s, d);
            && ValidState(t) && t.currentRound == s.currentRound + 1 && t.pauseQueue == s.pauseQueue
            && NewPopulation(t.currentRound, s.runs, d).Some?
  {
    var s2 := ArchiveRound(RecordBest(s));
    RecordAndArchiveValid(s);
    var s3 := s2.(currentRound := s2.currentRound + 1, roundIndexViewed := s2.currentRound);
    assert NextRoundStep(c, s, d) == StartRound(c, s3, d) by {
      assert s2.currentRound < MaxRounds;
    }
    assert ValidState(s3.(currentRound := s3.currentRound - 1)) by {
      assert s3.(currentRound := s3.currentRound - 1).runs == s2.runs;
      assert s3.(currentRound := s3.currentRound - 1).rounds == s2.rounds;
      assert s3.(currentRound := s3.currentRound - 1).bestRun == s2.bestRun;
    }
    StartRoundValid(c, s3, d);
  }

  /** At `maxRounds` the simulation completes and stops, keeping the state valid. */
  lemma NextRoundCompletes(c: Config, s: State, d: PopulationDraws)
    requires ValidConfig(c) && ValidState(s) && s.currentRound >= MaxRounds
    ensures var t := NextRoundStep(c, s, d);
            && ValidState(t) && t.currentRound == s.currentRound && t.pauseQueue == s.pauseQueue
            && t.isComplete && !t.isRunning && !t.isPaused
  {
    RecordAndArchiveValid(s);
  }

  /**
   * From a valid state the next round never hits the failing paths of `selectNewPopulation`,
   * so the state stays valid; the round count goes up by one below `maxRounds` and the
   * simulation completes at it, so the count never exceeds `maxRounds`.
   */
  lemma NextRoundValid(c: Config, s: State, d: PopulationDraws)
    requires ValidConfig(c) && ValidState(s)
    ensures var t := NextRoundStep(c, s, d);
            && ValidState(t)
            && (s.currentRound < MaxRounds ==> t.currentRound == s.currentRound + 1 && NewPopulation(t.currentRound, s.runs, d).Some?)
            && (s.currentRound >= MaxRounds ==> t.currentRound == s.currentRound && t.isComplete && !t.isRunning)
            && t.pauseQueue == s.pauseQueue
  {
    if s.currentRound < MaxRounds {
      NextRoundAdvances(c, s, d);
    } else {
      NextRoundCompletes(c, s, d);
    }
  }

  /**
   * The best-run rule of `RecordBestFacts` carries over to the whole step, and a round is
   * archived, with its trees dropped, exactly when the table is non-empty.
   */
  lemma NextRoundRecords(c: Config, s: State, d: PopulationDraws)
    requires ValidConfig(c) && ValidState(s)
    ensures var t := NextRoundStep(c, s, d);
            && (t.bestRun == s.bestRun || (
                  && t.bestRun == BestOf(s.runs) && t.bestRun.value in s.runs
                  && t.bestRun.value.fitness > 0.0
                  && (s.bestRun.Some? ==> t.bestRun.value.fitness > s.bestRun.value.fitness)))
            && (s.runs == [] ==> t.rounds == s.rounds)
            && (s.runs != [] ==> t.rounds == s.rounds + [Archived(s.runs)])
  {
    RecordBestFacts(s);
    var s2 := ArchiveRound(RecordBest(s));
    var t := AdvanceRound(c, s2, d);
    assert t.bestRun == s2.bestRun && t.rounds == s2.rounds by {
      if s2.currentRound < MaxRounds {
        var s3 := s2.(currentRound := s2.currentRound + 1, roundIndexViewed := s2.currentRound);
        assert PopulationStep(s3, d).bestRun == s3.bestRun;
      }
    }
  }

  // ---------------------------------------------------------------- messages

  /**
   * `handleMessage`: a `runData` result replaces its run, updates the fitness ratio, becomes
   * the current run, and then queues the dispatch while paused, dispatches the next run to
   * the sender, or starts the next round once no run is unfinished; `updatedRun` replaces
   * its run; `ready` counts one more ready worker.
   */
  function MessageStep(c: Config, s: State, m: Incoming, sender: WorkerRef, d: PopulationDraws): State
    requires ValidConfig(c)
  {
    match m
    case RunData(r) => RunDataStep(c, s, r, sender, d)
    case UpdatedRun(r) =>
      var s1 := if !c.useMultithreading then s.(currentRunId := r.id) else s;
      s1.(runs := ReplaceById(s1.runs, r))
    case Ready => s.(numWorkersReady := s.numWorkersReady + 1)
    case Other => s
  }

  /** The table after a `runData` result: the result in place, the fitness ratio updated, the result's run current. */
  function ResultRecorded(s: State, r: Run): (t: State)
    ensures t == s.(runs := ReplaceById(s.runs, r), fitnessImprovement := t.fitnessImprovement, currentRunId := r.id)
  {
    ImprovementStep(s.(runs := ReplaceById(s.runs, r))).(currentRunId := r.id)
  }

  /** What follows a recorded `runData` result, by the first of its conditions that holds. */
  function AfterResult(c: Config, s: State, sender: WorkerRef, d: PopulationDraws): State
    requires ValidConfig(c)
  {
    if !s.isRunning then s.(pauseQueue := s.pauseQueue + [sender])
    else if UnallocatedCount(s.runs) > 0 then DispatchStep(c, s, sender)
    else if UnfinishedCount(s.runs) == 0 then NextRoundStep(c, s, d)
    else s
  }

  function RunDataStep(c: Config, s: State, r: Run, sender: WorkerRef, d: PopulationDraws): State
    requires ValidConfig(c)
  {
    AfterResult(c, ResultRecorded(s, r), sender, d)
  }

  /** Every message keeps the state valid. */
  lemma MessageValid(c: Config, s: State, m: Incoming, sender: WorkerRef, d: PopulationDraws)
    requires ValidConfig(c) && ValidState(s)
    ensures ValidState(MessageStep(c, s, m, sender, d))
  {
    if m.RunData? {
      var s1 := ResultRecorded(s, m.run);
      assert ValidState(s1);
      if s1.isRunning && UnallocatedCount(s1.runs) == 0 && UnfinishedCount(s1.runs) == 0 {
        NextRoundValid(c, s1, d);
      }
    }
  }

  /**
   * After a `runData` result exactly one branch applies: paused, the sender is queued and
   * nothing is posted; running with an unallocated run, the queue stays and one run is
   * posted to the sender; running with every run complete, the next round starts.
   */
  lemma RunDataBranches(c: Config, s: State, r: Run, sender: WorkerRef, d: PopulationDraws)
    requires ValidConfig(c) && UniqueIds(s.runs)
    ensures var t := MessageStep(c, s, RunData(r), sender, d);
            var table := ReplaceById(s.runs, r);
            && (!s.isRunning ==> t.pauseQueue == s.pauseQueue + [sender] && t.outbox == s.outbox && t.runs == table)
            && (s.isRunning && UnallocatedCount(table) > 0 ==>
                  t.pauseQueue == s.pauseQueue && |t.outbox| == |s.outbox| + 1 && t.outbox[|s.outbox|].worker == sender
                  && UnallocatedCount(t.runs) == UnallocatedCount(table) - 1)
            && (s.isRunning && UnallocatedCount(table) == 0 && UnfinishedCount(table) == 0 ==>
                  t == NextRoundStep(c, ResultRecorded(s, r), d))
            && (s.isRunning && UnallocatedCount(table) == 0 && UnfinishedCount(table) > 0 ==>
                  t.runs == table && t.outbox == s.outbox && t.pauseQueue == s.pauseQueue)
  {
    var s1 := ResultRecorded(s, r);
    MapsKeepIds(s.runs, r, r.id);
    if s.isRunning && UnallocatedCount(s1.runs) > 0 {
      DispatchStepEffect(c, s1, sender);
    }
  }

  // ---------------------------------------------------------------- pause and resume

  /** One `pause` (or `resume`) message per worker, in worker order. */
  function Broadcast(ws: seq<WorkerRef>, pause: bool): (b: seq<Outgoing>)
    ensures |b| == |ws|
    ensures forall i :: 0 <= i < |b| ==> b[i].worker == ws[i] && (b[i].Pause? <==> pause) && (b[i].Resume? <==> !pause)
  {
    seq(|ws|, i requires 0 <= i < |ws| => if pause then Pause(ws[i]) else Resume(ws[i]))
  }

  /**
   * `toggleRunSimulation`: before the first round it starts the simulation; afterwards it
   * pauses or resumes every worker, and on resuming either starts the next round, when no
   * run is unfinished, or replays the queued dispatches in order and empties the queue.
   */
  function ToggleStep(c: Config, s: State, d: PopulationDraws): State
    requires ValidConfig(c)
  {
    if s.currentRound > 0 then
      if s.isRunning then
        s.(isRunning := false, isPaused := true, outbox := s.outbox + Broadcast(c.workers, true))
      else ResumeStep(c, s.(isRunning := true, outbox := s.outbox + Broadcast(c.workers, false), isPaused := false), d)
    else
      NextRoundStep(c, s.(currentRound := 0, isRunning := true), d)
  }

  /** After `resume` is posted: the next round when no run is unfinished, else the queued dispatches, first in first out. */
  function ResumeStep(c: Config, s: State, d: PopulationDraws): State
    requires ValidConfig(c)
  {
    if UnfinishedCount(s.runs) == 0 then NextRoundStep(c, s, d)
    else DispatchAll(c, s, s.pauseQueue).(pauseQueue := [])
  }

  lemma ToggleValid(c: Config, s: State, d: PopulationDraws)
    requires ValidConfig(c) && ValidState(s)
    ensures ValidState(ToggleStep(c, s, d))
  {
    if s.currentRound > 0 {
      if !s.isRunning {
        var s1 := s.(isRunning := true, outbox := s.outbox + Broadcast(c.workers, false), isPaused := false);
        if UnfinishedCount(s1.runs) == 0 {
          NextRoundValid(c, s1, d);
        }
      }
    } else {
      NextRoundValid(c, s.(currentRound := 0, isRunning := true), d);
    }
  }

  /** Pausing stops the run, marks it paused, posts `pause` to every worker and changes nothing else. */
  lemma TogglePauses(c: Config, s: State, d: PopulationDraws)
    requires ValidConfig(c) && s.currentRound > 0 && s.isRunning
    ensures var t := ToggleStep(c, s, d);
            && !t.isRunning && t.isPaused
            && t == s.(isRunning := false, isPaused := true, outbox := t.outbox)
            && t.outbox == s.outbox + Broadcast(c.workers, true)
  {
  }

  /**
   * Resuming with unfinished runs posts `resume` to every worker and then serves the queued
   * workers first in, first out: with distinct ids the first min(|queue|, unallocated) of them
   * get one run each, in queue order, and the queue ends empty.
   */
  lemma ToggleResumeReplays(c: Config, s: State, d: PopulationDraws)
    requires ValidConfig(c) && s.currentRound > 0 && !s.isRunning && UnfinishedCount(s.runs) > 0
    requires UniqueIds(s.runs)
    ensures var t := ToggleStep(c, s, d);
            var n := Min(|s.pauseQueue|, UnallocatedCount(s.runs));
            && t.isRunning && !t.isPaused && t.pauseQueue == []
            && ServedInOrder(s.outbox + Broadcast(c.workers, false), t.outbox, s.pauseQueue, n)
            && UnallocatedCount(t.runs) == UnallocatedCount(s.runs) - n
  {
    var s1 := s.(isRunning := true, outbox := s.outbox + Broadcast(c.workers, false), isPaused := false);
    assert ToggleStep(c, s, d) == DispatchAll(c, s1, s1.pauseQueue).(pauseQueue := []);
    DispatchAllEffect(c, s1, s1.pauseQueue);
  }

  /** Resuming when no run is unfinished starts the next round and leaves the queue as it was. */
  lemma ToggleResumeAllComplete(c: Config, s: State, d: PopulationDraws)
    requires ValidConfig(c) && ValidState(s) && s.currentRound > 0 && !s.isRunning && UnfinishedCount(s.runs) == 0
    ensures ToggleStep(c, s, d).pauseQueue == s.pauseQueue
  {
    var s1 := s.(isRunning := true, outbox := s.outbox + Broadcast(c.workers, false), isPaused := false);
    NextRoundValid(c, s1, d);
  }

  // ---------------------------------------------------------------- the stores

  /** The module-level stores of the simulator, updated in place by its operations. */
  class Simulator {
    const config: Config
    var runs: seq<Run>
    var rounds: seq<seq<Run>>
    var currentRound: int
    var bestRun: Option<Run>
    var isRunning: bool
    var isPaused: bool
    var isComplete: bool
    var currentRunId: int
    var roundIndexViewed: int
    var pauseQueue: seq<WorkerRef>
    var outbox: seq<Outgoing>
    var fitnessImprovement: real
    var numWorkersReady: int

    function Snapshot(): State
      reads this
    {
      State(runs, rounds, currentRound, bestRun, isRunning, isPaused, isComplete, currentRunId,
            roundIndexViewed, pauseQueue, outbox, fitnessImprovement, numWorkersReady)
    }

    ghost predicate Valid()
      reads this
    {
      ValidConfig(config) && ValidState(Snapshot())
    }

    constructor (c: Config)
      requires ValidConfig(c)
      ensures config == c && Snapshot() == InitialState() && Valid()
    {
      config := c;
      runs := [];
      rounds := [];
      currentRound := 0;
      bestRun := None;
      isRunning := false;
      isPaused := false;
      isComplete := false;
      currentRunId := 0;
      roundIndexViewed := 0;
      pauseQueue := [];
      outbox := [];
      fitnessImprovement := 0.0;
      numWorkersReady := 0;
    }

    method DispatchNextRunToWorker(w: WorkerRef)
      modifies this
      ensures Snapshot() == DispatchStep(config, old(Snapshot()), w)
    {
      var first := FirstUnallocated(runs);
      if first.Some? {
        var r := runs[first.value];
        outbox := outbox + [RunScenarioFor(config, w, r)];
        runs := MarkAllocated(runs, r.id);
      }
    }

    /** `workers.forEach(worker => dispatchNextRunToWorker(worker))`. */
    method DispatchToEach(ws: seq<WorkerRef>)
      modifies this
      ensures Snapshot() == DispatchAll(config, old(Snapshot()), ws)
    {
      var i := 0;
      while i < |ws|
        invariant 0 <= i <= |ws|
        invariant Snapshot() == DispatchAll(config, old(Snapshot()), ws[..i])
      {
        assert ws[..i + 1][..i] == ws[..i];
        DispatchNextRunToWorker(ws[i]);
        i := i + 1;
      }
      assert ws[..|ws|] == ws;
    }

    method RunPopulation()
      requires ValidConfig(config)
      modifies this
      ensures Snapshot() == PopulationDispatch(config, old(Snapshot()))
    {
      if config.useMultithreading {
        DispatchToEach(config.workers);
      } else {
        DispatchNextRunToWorker(config.workers[0]);
      }
    }

    method UpdateOverallFitnessImprovement()
      modifies this
      ensures Snapshot() == ImprovementStep(old(Snapshot()))
    {
      if |rounds| > 0 {
        var first := MaxFitnessOrZero(rounds[0]);
        var latest := 0.0;
        if |rounds| == MaxRounds {
          latest := MaxFitnessOrZero(rounds[|rounds| - 1]);
        } else {
          latest := MaxFitnessOrZero(runs);
        }
        if first != 0.0 && latest != 0.0 {
          fitnessImprovement := latest / first;
        }
      }
    }

    method CompleteSimulation()
      modifies this
      ensures Snapshot() == CompletionStep(old(Snapshot()))
    {
      isRunning := false;
      isPaused := false;
      isComplete := true;
      currentRunId := RunIdWithHighestFitness(runs);
    }

    /** `selectNewPopulation`; `ok` is false where the source throws. */
    method SelectNewPopulation(d: PopulationDraws) returns (ok: bool)
      modifies this
      ensures Snapshot() == PopulationStep(old(Snapshot()), d)
      ensures ok <==> NewPopulation(old(currentRound), old(runs), d).Some?
    {
      var elites := Elites(runs);
      var newRuns := Evolution.SelectNewPopulation(currentRound, runs, d);
      if currentRound != 1 && |elites| > 0 {
        currentRunId := elites[0].id;
      }
      ok := newRuns.Some?;
      if ok {
        runs := newRuns.value;
      }
    }

    method AttemptToRunNextRound(d: PopulationDraws)
      requires ValidConfig(config)
      modifies this
      ensures Snapshot() == NextRoundStep(config, old(Snapshot()), d)
    {
      var best := BestOf(runs);
      if Improves(best, bestRun) {
        bestRun := best;
      }
      assert Snapshot() == RecordBest(old(Snapshot()));
      if |runs| > 0 {
        rounds := rounds + [Archived(runs)];
      }
      assert Snapshot() == ArchiveRound(RecordBest(old(Snapshot())));
      AdvanceToNextRound(d);
    }

    /** The `currentRound >= maxRounds` switch of `attemptToRunNextRound`. */
    method AdvanceToNextRound(d: PopulationDraws)
      requires ValidConfig(config)
      modifies this
      ensures Snapshot() == AdvanceRound(config, old(Snapshot()), d)
    {
      if currentRound >= MaxRounds {
        CompleteSimulation();
      } else {
        currentRound := currentRound + 1;
        roundIndexViewed := currentRound - 1;
        ghost var s3 := Snapshot();
        assert s3 == old(Snapshot()).(currentRound := old(currentRound) + 1, roundIndexViewed := old(currentRound));
        var ok := SelectNewPopulation(d);
        ghost var p := Snapshot();
        if ok {
          RunPopulation();
          assert Snapshot() == PopulationDispatch(config, p);
        }
        assert Snapshot() == StartRound(config, s3, d);
      }
    }

    method HandleMessage(m: Incoming, sender: WorkerRef, d: PopulationDraws)
      requires Valid()
      modifies this
      ensures Snapshot() == MessageStep(config, old(Snapshot()), m, sender, d)
      ensures Valid()
    {
      MessageValid(config, Snapshot(), m, sender, d);
      match m {
        case RunData(r) =>
          HandleRunData(r, sender, d);
        case UpdatedRun(r) =>
          if !config.useMultithreading {
            currentRunId := r.id;
          }
          runs := ReplaceById(runs, r);
        case Ready =>
          numWorkersReady := numWorkersReady + 1;
        case Other =>
      }
    }

    /** The `runData` branch of `handleMessage`. */
    method HandleRunData(r: Run, sender: WorkerRef, d: PopulationDraws)
      requires ValidConfig(config)
      modifies this
      ensures Snapshot() == RunDataStep(config, old(Snapshot()), r, sender, d)
    {
      runs := ReplaceById(runs, r);
      UpdateOverallFitnessImprovement();
      currentRunId := r.id;
      assert Snapshot() == ResultRecorded(old(Snapshot()), r);
      var numUnallocatedRuns := UnallocatedCount(runs);
      var numUnfinishedRuns := UnfinishedCount(runs);
      if !isRunning {
        pauseQueue := pauseQueue + [sender];
      } else if numUnallocatedRuns > 0 {
        DispatchNextRunToWorker(sender);
      } else if numUnfinishedRuns == 0 {
        AttemptToRunNextRound(d);
      }
    }

    /** `workers.forEach(worker => worker.postMessage({type: pause ? 'pause' : 'resume'}))`. */
    method PostToEachWorker(pause: bool)
      modifies this
      ensures Snapshot() == old(Snapshot()).(outbox := old(outbox) + Broadcast(config.workers, pause))
    {
      var i := 0;
      while i < |config.workers|
        invariant 0 <= i <= |config.workers|
        invariant Snapshot() == old(Snapshot()).(outbox := old(outbox) + Broadcast(config.workers, pause)[..i])
      {
        var w := config.workers[i];
        outbox := outbox + [if pause then Pause(w) else Resume(w)];
        i := i + 1;
      }
    }

    method ToggleRunSimulation(d: PopulationDraws)
      requires Valid()
      modifies this
      ensures Snapshot() == ToggleStep(config, old(Snapshot()), d)
      ensures Valid()
    {
      ghost var s := Snapshot();
      if currentRound > 0 {
        isRunning := !isRunning;
        var wasJustPaused := !isRunning;
        if wasJustPaused {
          isPaused := true;
          PostToEachWorker(true);
          assert Snapshot() == s.(isRunning := false, isPaused := true, outbox := s.outbox + Broadcast(config.workers, true));
        } else {
          PostToEachWorker(false);
          isPaused := false;
          ghost var s1 := Snapshot();
          assert s1 == s.(isRunning := true, outbox := s.outbox + Broadcast(config.workers, false), isPaused := false);
          ReplayOrAdvance(d);
          assert Snapshot() == ResumeStep(config, s1, d);
        }
      } else {
        currentRound := 0;
        isRunning := true;
        ghost var s1 := Snapshot();
        assert s1 == s.(currentRound := 0, isRunning := true);
        AttemptToRunNextRound(d);
        assert Snapshot() == NextRoundStep(config, s1, d);
      }
      assert Snapshot() == ToggleStep(config, s, d);
      ToggleValid(config, s, d);
    }

    /** On resume: the next round when every run is complete, else each queued dispatch once, in order, then an empty queue. */
    method ReplayOrAdvance(d: PopulationDraws)
      requires ValidConfig(config)
      modifies this
      ensures Snapshot() == ResumeStep(config, old(Snapshot()), d)
    {
      if UnfinishedCount(runs) == 0 {
        AttemptToRunNextRound(d);
      } else {
        DispatchToEach(pauseQueue);
        pauseQueue := [];
      }
    }
  }
}
