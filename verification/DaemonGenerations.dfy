/**
 The config daemon's reconcile loop against a NodeState whose spec keeps changing, reads that may
 lag, process restarts and failing calls (daemon mode).
 */
module DaemonGenerations {
  import opened Base
  import opened RebootTracker

  /**
   Where a reconcile stands.  `latest` is the generation fetched with the spec; `meta` is the generation
   in the object metadata, which every status update refreshes.
   */
  datatype Place =
    | Waiting
    | Fetched(latest: nat)
    | Synced(latest: nat, meta: nat)
    | RunningPlugins(latest: nat, meta: nat, reboot: bool)
    | Configured(latest: nat, meta: nat, reboot: bool)
    | Counted(meta: nat)
    | StatusWritten(latest: nat, meta: nat)
    | CounterReset(latest: nat)

  /**
   `live` is the generation in the API server and `seen` the newest one the daemon has been shown.
   `attempted`, `applied` and `reboots` are history: the generation the plugins last started on, the
   generations they finished, and the reboots started per generation since the last successful apply.
   */
  datatype World = World(
    live: nat, seen: nat, place: Place, lastApplied: nat, file: Option<Record>,
    attempted: nat, applied: set<nat>, reboots: map<nat, nat>)

  function FreshWorld(live: nat): World { World(live, 0, Waiting, 0, None, 0, {}, map[]) }

  datatype Step =
    | SpecUpdate                  // the operator writes a new spec
    | Get(generation: nat)        // the daemon fetches the object, possibly an older state of it
    | NothingDrifted              // early exit
    | UpdateSyncState(generation: nat)
    | StartPlugins(reboot: bool)  // drain complete
    | FinishPlugins
    | LimitReached
    | CountReboot
    | StartReboot
    | WriteStatus(generation: nat)
    | ResetCounter
    | Commit
    | GiveUp                      // any error or requeue
    | Restart                     // process restart or node reboot

  predicate CanStep(w: World, a: Step) {
    var p := w.place;
    match a
    case SpecUpdate => true
    case Get(g) => p.Waiting? && 1 <= g && w.seen <= g <= w.live
    case NothingDrifted => p.Fetched? && w.lastApplied == p.latest
    case UpdateSyncState(g) => p.Fetched? && w.seen <= g <= w.live
    case StartPlugins(_) => p.Synced?
    case FinishPlugins => p.RunningPlugins?
    case LimitReached => p.Configured? && p.reboot && CountFor(w.file, p.meta) >= MAX_REBOOTS_PER_GENERATION
    case CountReboot => p.Configured? && p.reboot && CountFor(w.file, p.meta) < MAX_REBOOTS_PER_GENERATION
    case StartReboot => p.Counted?
    case WriteStatus(g) => p.Configured? && !p.reboot && w.seen <= g <= w.live
    case ResetCounter => p.StatusWritten?
    case Commit => p.CounterReset?
    case GiveUp => !p.Waiting?
    case Restart => true
  }

  function RebootsOf(w: World, g: nat): nat { if g in w.reboots then w.reboots[g] else 0 }

  function Next(w: World, a: Step): World
    requires CanStep(w, a)
  {
    var p := w.place;
    match a
    case SpecUpdate => w.(live := w.live + 1)
    case Get(g) => w.(seen := g, place := Fetched(g))
    case NothingDrifted => w.(place := Waiting)
    case UpdateSyncState(g) => w.(seen := g, place := if g != p.latest then Waiting else Synced(p.latest, g))
    case StartPlugins(reboot) => w.(attempted := p.latest, place := RunningPlugins(p.latest, p.meta, reboot))
    case FinishPlugins =>
      w.(place := Configured(p.latest, p.meta, p.reboot), applied := if p.reboot then w.applied else w.applied + {p.latest})
    case LimitReached => w.(place := Waiting)
    case CountReboot => w.(file := Some(Record(p.meta, CountFor(w.file, p.meta) + 1)), place := Counted(p.meta))
    case StartReboot => w.(reboots := w.reboots[p.meta := RebootsOf(w, p.meta) + 1], place := Waiting)
    case WriteStatus(g) => w.(seen := g, place := StatusWritten(p.latest, g))
    case ResetCounter => w.(file := Some(Record(p.latest, 0)), reboots := map[], place := CounterReset(p.latest))
    case Commit => w.(lastApplied := p.latest, place := Waiting)
    case GiveUp => w.(place := Waiting)
    case Restart => w.(place := Waiting, lastApplied := 0)
  }

  /** The generation a reconcile works on is the newest the daemon has seen, until it writes its status. */
  predicate PlaceInv(w: World) {
    match w.place
    case Waiting => true
    case Fetched(latest) => 1 <= latest == w.seen
    case Synced(latest, meta) => 1 <= latest == meta == w.seen
    case RunningPlugins(latest, meta, _) => 1 <= latest == meta == w.seen == w.attempted
    case Configured(latest, meta, reboot) => 1 <= latest == meta == w.seen == w.attempted && (reboot || latest in w.applied)
    case Counted(meta) => 1 <= meta == w.seen
    case StatusWritten(latest, meta) => 1 <= latest == w.attempted && latest <= meta == w.seen && latest in w.applied
    case CounterReset(latest) => 1 <= latest == w.attempted && latest <= w.seen && latest in w.applied
  }

  predicate GenerationInv(w: World) {
    && w.lastApplied <= w.attempted <= w.seen <= w.live
    && (w.lastApplied != 0 ==> w.lastApplied in w.applied)
  }

  /** The counter file never falls behind the reboots it stands for, and it stands for the newest generation rebooted. */
  ghost predicate RebootInv(w: World) {
    && (w.file.Some? ==> w.file.value.generation <= w.seen && w.file.value.count <= MAX_REBOOTS_PER_GENERATION)
    && (forall g: nat :: RebootsOf(w, g) <= MAX_REBOOTS_PER_GENERATION)
    && (forall g: nat :: w.file.None? || g > w.file.value.generation ==> RebootsOf(w, g) == 0)
    && (w.file.Some? ==> RebootsOf(w, w.file.value.generation) <= w.file.value.count)
    && (w.place.Counted? ==>
          && w.file.Some? && w.file.value.generation == w.place.meta
          && RebootsOf(w, w.place.meta) < w.file.value.count)
    && (w.place.StatusWritten? && w.file.Some? ==> w.file.value.generation <= w.place.latest)
  }

  ghost predicate Inv(w: World) { PlaceInv(w) && GenerationInv(w) && RebootInv(w) }

  function RebootsAfter(w: World, a: Step, g: nat): nat
    requires CanStep(w, a)
  {
    if a.ResetCounter? then 0 else RebootsOf(w, g) + if a.StartReboot? && g == w.place.meta then 1 else 0
  }

  lemma GenerationStep(w: World, a: Step)
    requires PlaceInv(w) && GenerationInv(w) && CanStep(w, a)
    ensures PlaceInv(Next(w, a)) && GenerationInv(Next(w, a))
  {
  }

  lemma RebootsNext(w: World, a: Step, g: nat)
    requires CanStep(w, a)
    ensures RebootsOf(Next(w, a), g) == RebootsAfter(w, a, g)
  {
  }

  lemma RebootStep(w: World, a: Step)
    requires Inv(w) && CanStep(w, a)
    ensures RebootInv(Next(w, a))
  {
    forall g: nat ensures RebootsOf(Next(w, a), g) == RebootsAfter(w, a, g) { RebootsNext(w, a, g); }
  }

  lemma StepKeepsInv(w: World, a: Step)
    requires Inv(w) && CanStep(w, a)
    ensures Inv(Next(w, a))
  {
    GenerationStep(w, a);
    RebootStep(w, a);
  }

  predicate IsRun(ws: seq<World>, steps: seq<Step>) {
    && |ws| == |steps| + 1 && ws[0] == FreshWorld(ws[0].live)
    && forall i {:trigger steps[i]} :: 0 <= i < |steps| ==> CanStep(ws[i], steps[i]) && ws[i + 1] == Next(ws[i], steps[i])
  }

  lemma {:induction false} RunKeepsInv(ws: seq<World>, steps: seq<Step>, k: nat)
    requires IsRun(ws, steps) && k < |ws|
    ensures Inv(ws[k])
  {
    if k > 0 {
      RunKeepsInv(ws, steps, k - 1);
      StepKeepsInv(ws[k - 1], steps[k - 1]);
    }
  }

  /**
   The early exit is sound: whenever a reconcile leaves with "nothing drifted", the plugins finished on
   the spec of exactly the generation it fetched, and they have not started on any other since.
   */
  lemma EarlyExitOnlyWhenApplied(ws: seq<World>, steps: seq<Step>, k: nat)
    requires IsRun(ws, steps) && k < |steps| && steps[k] == NothingDrifted
    ensures var w := ws[k]; w.place.latest in w.applied && w.attempted == w.place.latest
  {
    RunKeepsInv(ws, steps, k);
  }

  /** lastAppliedGeneration names a generation whose own spec was applied, even when the metadata has moved on. */
  lemma LastAppliedWasApplied(ws: seq<World>, steps: seq<Step>, k: nat)
    requires IsRun(ws, steps) && k < |ws| && ws[k].lastApplied != 0
    ensures ws[k].lastApplied in ws[k].applied && ws[k].lastApplied <= ws[k].attempted
  {
    RunKeepsInv(ws, steps, k);
  }

  /** At most five reboots per generation between two successful applies, across crashes, restarts and failed reboots. */
  lemma RebootsAreBounded(ws: seq<World>, steps: seq<Step>, k: nat, g: nat)
    requires IsRun(ws, steps) && k < |ws|
    ensures RebootsOf(ws[k], g) <= 5
  {
    RunKeepsInv(ws, steps, k);
  }

  lemma {:induction false} ForgottenUntilCommit(ws: seq<World>, steps: seq<Step>, k: nat, m: nat)
    requires IsRun(ws, steps) && k < m <= |steps| && steps[k] == Restart
    requires forall i :: k < i < m ==> steps[i] != Commit
    ensures ws[m].lastApplied == 0
  {
    assert CanStep(ws[m - 1], steps[m - 1]) && ws[m] == Next(ws[m - 1], steps[m - 1]);
    if m > k + 1 { ForgottenUntilCommit(ws, steps, k, m - 1); }
  }

  /** A daemon that has been restarted looks at its generation again: no early exit before it has completed an apply. */
  lemma NoEarlyExitAfterRestart(ws: seq<World>, steps: seq<Step>, k: nat, m: nat)
    requires IsRun(ws, steps) && k < m < |steps| && steps[k] == Restart && steps[m] == NothingDrifted
    ensures exists i :: k < i < m && steps[i] == Commit
  {
    RunKeepsInv(ws, steps, m);
    assert CanStep(ws[m], steps[m]) && ws[m].lastApplied >= 1;
    if forall i :: k < i < m ==> steps[i] != Commit {
      ForgottenUntilCommit(ws, steps, k, m);
    }
  }

  datatype Result = Requeue | EarlyExit | TooManyReboots | Rebooting | Applied | Failed

  /** What the world answers to one reconcile: generations shown by the API, plugin results, and which calls fail. */
  datatype Answers = Answers(
    fetched: nat, drifted: bool, resynced: nat, drainDone: bool, reboot: bool, pluginsOk: bool,
    readOk: bool, counterOk: bool, shown: nat, statusOk: bool, resetOk: bool, updates: nat)

  function Between(low: nat, g: nat, high: nat): nat { if g < low then low else if g > high then high else g }

  /** The generation a reconcile fetches, and the one it sees when it has written its sync status. */
  function FetchedGeneration(w: World, ans: Answers): nat {
    var g := Between(w.seen, ans.fetched, w.live + ans.updates);
    if g == 0 then 1 else g
  }

  function ResyncedGeneration(w: World, ans: Answers): nat {
    Between(FetchedGeneration(w, ans), ans.resynced, w.live + 2 * ans.updates)
  }

  /** What apply comes to: every failure ends it, the plugins' first of all; a reboot needs room under the limit. */
  function OutcomeOf(ans: Answers, counted: nat): Result {
    if !ans.pluginsOk then Failed
    else if ans.reboot && !ans.readOk then Failed
    else if ans.reboot && counted >= MAX_REBOOTS_PER_GENERATION then TooManyReboots
    else if ans.reboot then if ans.counterOk then Rebooting else Failed
    else if ans.statusOk && ans.resetOk then Applied else Failed
  }

  /** Applied exactly when nothing failed and no reboot is needed; a reboot exactly when one is, and is on record below the limit. */
  lemma OutcomesAre(ans: Answers, counted: nat)
    ensures OutcomeOf(ans, counted) == Applied <==> ans.pluginsOk && !ans.reboot && ans.statusOk && ans.resetOk
    ensures OutcomeOf(ans, counted) == Rebooting <==>
      ans.pluginsOk && ans.reboot && ans.readOk && ans.counterOk && counted < MAX_REBOOTS_PER_GENERATION
    ensures OutcomeOf(ans, counted) == TooManyReboots <==>
      ans.pluginsOk && ans.reboot && ans.readOk && counted >= MAX_REBOOTS_PER_GENERATION
    ensures OutcomeOf(ans, counted) in {Applied, Rebooting, TooManyReboots, Failed}
  {
  }

  /** Nothing that lasts has changed: not what is applied, not the counter, not the reboots. */
  predicate SameRecord(w: World, w': World) {
    w'.applied == w.applied && w'.lastApplied == w.lastApplied && w'.file == w.file && w'.reboots == w.reboots
  }

  class NodeReconciler {
    const tracker: Tracker
    var world: World
    /** The run that led to `world`. */
    ghost var past: seq<World>
    ghost var steps: seq<Step>

    ghost predicate OnRun()
      reads this
    {
      IsRun(past, steps) && past[|steps|] == world
    }

    /** The tracker's file is the world's. */
    ghost predicate Valid()
      reads this, tracker
    {
      OnRun() && tracker.Valid() && tracker.file == world.file
    }

    constructor (live: nat)
      ensures Valid() && fresh(tracker) && world == FreshWorld(live)
    {
      tracker := new Tracker();
      world := FreshWorld(live);
      past := [FreshWorld(live)];
      steps := [];
    }

    method Take(a: Step)
      requires OnRun() && CanStep(world, a)
      modifies this
      ensures OnRun() && steps == old(steps) + [a] && world == Next(old(world), a)
    {
      world := Next(world, a);
      past := past + [world];
      steps := steps + [a];
    }

    /** Spec updates arrive while the reconcile is under way. */
    method UpdatesArrive(n: nat)
      requires OnRun()
      modifies this
      ensures OnRun() && old(steps) <= steps && world == old(world).(live := old(world.live) + n)
    {
      for i := 0 to n
        invariant OnRun() && old(steps) <= steps && world == old(world).(live := old(world.live) + i)
      {
        Take(SpecUpdate);
      }
    }

    /** A read: some generation between the newest seen and the live one. */
    function Shown(g: nat): nat
      reads this
    {
      Between(world.seen, g, world.live)
    }

    /** One reconcile; spec updates arrive before each of its reads. */
    method Reconcile(ans: Answers) returns (result: Result, latest: nat)
      requires Valid() && world.place.Waiting? && world.live >= 1 && world.seen <= world.live
      modifies this, tracker
      ensures Valid() && old(steps) <= steps && world.place.Waiting?
      ensures latest == FetchedGeneration(old(world), ans)
      // which answers lead to which outcome
      ensures result == EarlyExit <==> old(world.lastApplied) == latest && !ans.drifted
      ensures result == Requeue <==>
        !(old(world.lastApplied) == latest && !ans.drifted) && !(ResyncedGeneration(old(world), ans) == latest && ans.drainDone)
      ensures result in {Applied, Rebooting, TooManyReboots, Failed} ==> OutcomeOf(ans, CountedSince(old(tracker.log), latest)) == result
      // what each outcome leaves behind
      ensures result == EarlyExit ==> latest in world.applied && world.attempted == latest
      ensures result in {EarlyExit, Requeue, TooManyReboots} ==> SameRecord(old(world), world) && tracker.log == old(tracker.log)
      ensures result == Failed && !ans.pluginsOk ==> SameRecord(old(world), world) && tracker.log == old(tracker.log)
      ensures result == Applied ==> world.lastApplied == latest && latest in world.applied && world.attempted == latest
      ensures result != Applied ==> world.lastApplied == old(world.lastApplied)
      ensures result == Rebooting ==> RebootsOf(world, latest) == RebootsOf(old(world), latest) + 1 <= MAX_REBOOTS_PER_GENERATION
      ensures result == TooManyReboots ==> CountedSince(old(tracker.log), latest) >= MAX_REBOOTS_PER_GENERATION
      ensures result == Rebooting || result == Applied || world.reboots == old(world.reboots)
      ensures result == Rebooting ==> tracker.log == old(tracker.log) + [Rebooted(latest)]
    {
      latest := Fetch(ans);
      if world.lastApplied == latest && !ans.drifted {
        ExitEarly();
        return EarlyExit, latest;
      }
      result := Continue(ans);
    }

    method Fetch(ans: Answers) returns (latest: nat)
      requires Valid() && world.place.Waiting? && world.live >= 1 && world.seen <= world.live
      modifies this
      ensures Valid() && old(steps) <= steps && latest == FetchedGeneration(old(world), ans)
      ensures world == old(world).(live := old(world.live) + ans.updates, seen := latest, place := Fetched(latest))
    {
      UpdatesArrive(ans.updates);
      latest := if Shown(ans.fetched) == 0 then 1 else Shown(ans.fetched);
      Take(Get(latest));
    }

    method ExitEarly()
      requires Valid() && CanStep(world, NothingDrifted)
      modifies this
      ensures Valid() && old(steps) <= steps && world == old(world).(place := Waiting)
      ensures old(world.place.latest) in world.applied && world.attempted == old(world.place.latest)
    {
      EarlyExitHere();
      Take(NothingDrifted);
    }

    /** The reconcile of a generation that is new, or that the host has drifted from. */
    method Continue(ans: Answers) returns (result: Result)
      requires Valid() && world.place.Fetched? && world.seen <= world.live
      modifies this, tracker
      ensures Valid() && old(steps) <= steps && world.place.Waiting?
      ensures var g := old(world.place.latest);
        if ans.drainDone && Between(old(world.seen), ans.resynced, old(world.live) + ans.updates) == g
        then result == OutcomeOf(ans, CountedSince(old(tracker.log), g)) else result == Requeue
      ensures result == Applied || world.lastApplied == old(world.lastApplied)
      ensures result == Rebooting || result == Applied || world.reboots == old(world.reboots)
      ensures result in {Requeue, TooManyReboots} || !ans.pluginsOk ==> SameRecord(old(world), world) && tracker.log == old(tracker.log)
      ensures var g := old(world.place.latest);
        && (result == Applied ==> world.lastApplied == g && g in world.applied && world.attempted == g)
        && (result == Rebooting ==> RebootsOf(world, g) == RebootsOf(old(world), g) + 1 <= MAX_REBOOTS_PER_GENERATION)
        && (result == Rebooting ==> tracker.log == old(tracker.log) + [Rebooted(g)])
    {
      var ready := Prepare(ans);
      if !ready {
        return Requeue;
      }
      result := ApplyChanges(ans);
    }

    /** Between the fetch and apply: the sync status is written, and a newer spec or an unfinished drain ends the reconcile. */
    method Prepare(ans: Answers) returns (ready: bool)
      requires Valid() && world.place.Fetched? && world.seen <= world.live
      modifies this
      ensures Valid() && old(steps) <= steps
      ensures ready <==> ans.drainDone && Between(old(world.seen), ans.resynced, old(world.live) + ans.updates) == old(world.place.latest)
      ensures ready ==> world.place == Synced(old(world.place.latest), old(world.place.latest))
      ensures !ready ==> world.place.Waiting?
      ensures SameRecord(old(world), world)
    {
      UpdatesArrive(ans.updates);
      Take(UpdateSyncState(Shown(ans.resynced)));
      if world.place.Waiting? {
        return false;
      }
      if !ans.drainDone {
        Take(GiveUp);
        return false;
      }
      return true;
    }

    /** apply: the plugins, then either the reboot or the closing writes. */
    method ApplyChanges(ans: Answers) returns (result: Result)
      requires Valid() && world.place.Synced? && world.place.meta == world.place.latest
      modifies this, tracker
      ensures Valid() && old(steps) <= steps && world.place.Waiting?
      ensures result == OutcomeOf(ans, CountedSince(old(tracker.log), old(world.place.latest)))
      ensures world.applied == old(world.applied) + if ans.pluginsOk && !ans.reboot then {old(world.place.latest)} else {}
      ensures !ans.pluginsOk || result == TooManyReboots ==> SameRecord(old(world), world) && tracker.log == old(tracker.log)
      ensures result != Applied ==> world.lastApplied == old(world.lastApplied)
      ensures result == Rebooting || result == Applied || world.reboots == old(world.reboots)
      ensures var g := old(world.place.latest);
        && (result == Applied ==> world.lastApplied == g && g in world.applied && world.attempted == g)
        && (result == Rebooting ==> RebootsOf(world, g) == RebootsOf(old(world), g) + 1 <= MAX_REBOOTS_PER_GENERATION)
        && (result == Rebooting ==> tracker.log == old(tracker.log) + [Rebooted(g)])
    {
      Take(StartPlugins(ans.reboot));
      if !ans.pluginsOk {
        Take(GiveUp);
        return Failed;
      }
      Take(FinishPlugins);
      if ans.reboot {
        result := RebootOrFail(ans);
      } else {
        result := Conclude(ans);
      }
    }

    lemma EarlyExitHere()
      requires Valid() && CanStep(world, NothingDrifted)
      ensures world.place.latest in world.applied && world.attempted == world.place.latest
    {
      RunKeepsInv(past, steps, |steps|);
    }

    /** The reboot branch of apply: the counter is read, and raised before the node goes down. */
    method RebootOrFail(ans: Answers) returns (result: Result)
      requires Valid() && world.place.Configured? && world.place.reboot && world.place.meta == world.place.latest
      modifies this, tracker
      ensures Valid() && old(steps) <= steps && world.place.Waiting?
      ensures world.lastApplied == old(world.lastApplied) && world.applied == old(world.applied)
      ensures var counted := CountedSince(old(tracker.log), old(world.place.latest));
        && (result == Failed <==> !ans.readOk || (counted < MAX_REBOOTS_PER_GENERATION && !ans.counterOk))
        && (result == TooManyReboots <==> ans.readOk && counted >= MAX_REBOOTS_PER_GENERATION)
        && (result == Rebooting <==> ans.readOk && counted < MAX_REBOOTS_PER_GENERATION && ans.counterOk)
      ensures result != Rebooting ==> world.file == old(world.file) && tracker.log == old(tracker.log)
      ensures var g := old(world.place.latest);
        && (result == Rebooting ==> RebootsOf(world, g) == RebootsOf(old(world), g) + 1 <= MAX_REBOOTS_PER_GENERATION)
        && (result == Rebooting ==> tracker.log == old(tracker.log) + [Rebooted(g)])
        && (result != Rebooting ==> world.reboots == old(world.reboots))
    {
      var generation := world.place.meta;
      var count := tracker.GetRebootCount(generation, ans.readOk);
      if !count.Ok? {
        Take(GiveUp);
        return Failed;
      }
      assert CountFor(world.file, generation) == count.value;
      if count.value >= MAX_REBOOTS_PER_GENERATION {
        Take(LimitReached);
        return TooManyReboots;
      }
      var ok := tracker.IncrementRebootCounter(generation, ans.counterOk);
      if !ok {
        Take(GiveUp);
        return Failed;
      }
      CountedSinceSnoc(old(tracker.log), Rebooted(generation), generation);
      Reboot(generation);
      return Rebooting;
    }

    /** The counter has been raised; the reboot command follows, whatever becomes of it. */
    method Reboot(generation: nat)
      requires OnRun() && CanStep(world, CountReboot) && world.place.meta == generation
      modifies this
      ensures OnRun() && old(steps) <= steps && world.place.Waiting? && world.lastApplied == old(world.lastApplied)
      ensures world.file == Some(Record(generation, CountFor(old(world.file), generation) + 1)) && world.applied == old(world.applied)
      ensures RebootsOf(world, generation) == RebootsOf(old(world), generation) + 1 <= MAX_REBOOTS_PER_GENERATION
    {
      Take(CountReboot);
      Take(StartReboot);
      RebootsAreBounded(past, steps, |steps|, generation);
    }

    /** The rest of apply: status, counter, and only then lastAppliedGeneration. */
    method Conclude(ans: Answers) returns (result: Result)
      requires Valid() && world.place.Configured? && !world.place.reboot
      modifies this, tracker
      ensures Valid() && old(steps) <= steps && world.place.Waiting?
      ensures result == Applied || (result == Failed && world.lastApplied == old(world.lastApplied) && world.reboots == old(world.reboots))
      ensures result == Applied <==> ans.statusOk && ans.resetOk
      ensures world.applied == old(world.applied)
      ensures var g := old(world.place.latest);
        result == Applied ==> world.lastApplied == g && g in world.applied && world.attempted == g
    {
      RunKeepsInv(past, steps, |steps|);
      UpdatesArrive(ans.updates);
      if !ans.statusOk {
        Take(GiveUp);
        return Failed;
      }
      Take(WriteStatus(Shown(ans.shown)));
      var ok := tracker.ResetRebootCounter(world.place.latest, ans.resetOk);
      if !ok {
        Take(GiveUp);
        return Failed;
      }
      assert CountFor(tracker.file, tracker.file.value.generation) == 0;
      Close();
      return Applied;
    }

    /** The counter has been reset; lastAppliedGeneration follows. */
    method Close()
      requires OnRun() && world.place.StatusWritten?
      modifies this
      ensures OnRun() && old(steps) <= steps && world.place.Waiting?
      ensures world.file == Some(Record(old(world.place.latest), 0))
      ensures world.lastApplied == old(world.place.latest) && world.attempted == old(world.attempted) && world.applied == old(world.applied)
    {
      Take(ResetCounter);
      Take(Commit);
    }
  }
}
