/** Admission of informers to their first list: every informer task of the controller
    manager shares one semaphore, takes a slot before its initial list, and gives it
    back at the end of that list or as soon as the list fails. */
module StartupAdmission {
  import opened SharedInformer
  import opened Wrappers

  datatype TaskPhase = Waiting | Streaming | BackingOff

  /** One list/watch task. `listing` says that the stall deadline is armed. */
  datatype Task = Task(phase: TaskPhase, initialized: bool, permit: bool, listing: bool, failures: nat)

  const NEW_TASK := Task(Waiting, false, false, true, 0)

  /** What can happen to a task between two of its suspension points. */
  datatype Happening = Started | Received(event: Event) | Stalled | Broke | Retried

  const MAX_FAILURES: nat := 0xFFFF_FFFF

  function StreamEnds(available: nat, t: Task): (nat, Task) {
    (if t.permit then available + 1 else available,
     t.(phase := BackingOff, permit := false,
        failures := if t.failures < MAX_FAILURES then t.failures + 1 else MAX_FAILURES))
  }

  /** The free slots and the task afterwards, or nothing if it cannot happen now. */
  function TaskStep(available: nat, t: Task, h: Happening): Option<(nat, Task)> {
    match h
    case Started =>
      if t.phase != Waiting || (!t.initialized && available == 0) then None
      else if t.initialized then Some((available, t.(phase := Streaming, listing := true)))
      else Some((available - 1, t.(phase := Streaming, listing := true, permit := true)))
    case Received(e) =>
      if t.phase != Streaming then None
      else if e.Init? then Some((available, t.(listing := true)))
      else if !e.InitDone? then Some((available, t))
      else if t.permit then
        Some((available + 1, t.(listing := false, failures := 0, permit := false, initialized := true)))
      else Some((available, t.(listing := false, failures := 0)))
    case Stalled => if t.phase == Streaming && t.listing then Some(StreamEnds(available, t)) else None
    case Broke => if t.phase == Streaming then Some(StreamEnds(available, t)) else None
    case Retried => if t.phase == BackingOff then Some((available, t.(phase := Waiting))) else None
  }

  /** Only a list is bounded in time: a stream can stall from its start, and from a relist, up
      to the end of the list, and never while it watches. */
  lemma StallsExactlyWhileListing(available: nat, t: Task, h: Happening)
    requires TaskStep(available, t, h).Some?
    ensures var (after, t') := TaskStep(available, t, h).value;
      TaskStep(after, t', Stalled).Some? <==>
        match h
        case Started => true
        case Received(e) => e.Init? || (!e.InitDone? && TaskStep(available, t, Stalled).Some?)
        case _ => false
  {
  }

  /** What can happen to a task: a start if it waits and has had its first list or a slot is
      free, an event, a failure or a stall of its stream, and a retry after it backed off. */
  lemma HappensExactlyWhen(available: nat, t: Task, h: Happening)
    ensures TaskStep(available, t, h).Some? <==>
      match h
      case Started => t.phase == Waiting && (t.initialized || available > 0)
      case Received(_) => t.phase == Streaming
      case Broke => t.phase == Streaming
      case Stalled => t.phase == Streaming && t.listing
      case Retried => t.phase == BackingOff
    ensures TaskStep(available, t, h).Some? ==>
      var phase := TaskStep(available, t, h).value.1.phase;
      match h
      case Started => phase == Streaming
      case Received(_) => phase == Streaming
      case Retried => phase == Waiting
      case _ => phase == BackingOff
  {
  }

  /** The failures since the last completed list, as the backoff counts them: one more with
      every stream that ends, up to the largest 32-bit number. */
  lemma FailuresAreCounted(available: nat, t: Task, h: Happening)
    requires TaskStep(available, t, h).Some? && t.failures <= 4294967295
    ensures TaskStep(available, t, h).value.1.failures ==
      if h == Received(InitDone) then 0
      else if h == Stalled || h == Broke then (if t.failures == 4294967295 then t.failures else t.failures + 1)
      else t.failures
  {
  }

  /** A task takes a slot for its first list only, and gives it back when that list or its
      stream ends; it is initialized by the end of the list for which it held one. */
  lemma SlotsMove(available: nat, t: Task, h: Happening)
    requires TaskOk(t) && TaskStep(available, t, h).Some?
    ensures var (after, t') := TaskStep(available, t, h).value;
      && (after == available - 1 <==> h == Started && !t.initialized)
      && (after == available + 1 <==> t.permit && (h == Received(InitDone) || h == Stalled || h == Broke))
      && (available - 1 <= after <= available + 1)
      && (t'.initialized <==> t.initialized || (h == Received(InitDone) && t.phase == Streaming))
  {
  }

  /** A task holds a slot exactly while its first list is under way, and then its stall
      deadline is armed. */
  ghost predicate TaskOk(t: Task) {
    && (t.permit <==> t.phase == Streaming && !t.initialized)
    && (t.permit ==> t.listing)
  }

  function Permits(tasks: seq<Task>): nat {
    if tasks == [] then 0
    else Permits(tasks[..|tasks| - 1]) + if tasks[|tasks| - 1].permit then 1 else 0
  }

  datatype Admission = Admission(available: nat, tasks: seq<Task>)

  ghost predicate Next(s: Admission, who: nat, h: Happening, s': Admission) {
    && who < |s.tasks|
    && TaskStep(s.available, s.tasks[who], h).Some?
    && var (available, t) := TaskStep(s.available, s.tasks[who], h).value;
       s' == Admission(available, s.tasks[who := t])
  }

  ghost predicate IsRun(limit: nat, informers: nat, states: seq<Admission>, steps: seq<(nat, Happening)>) {
    && |states| == |steps| + 1
    && states[0] == Admission(limit, seq(informers, _ => NEW_TASK))
    && forall i :: 0 <= i < |steps| ==> Next(states[i], steps[i].0, steps[i].1, states[i + 1])
  }

  ghost predicate Ok(limit: nat, s: Admission) {
    && s.available + Permits(s.tasks) == limit
    && forall i :: 0 <= i < |s.tasks| ==> TaskOk(s.tasks[i])
  }

  lemma {:induction false} PermitsUpdate(tasks: seq<Task>, i: nat, t: Task)
    requires i < |tasks|
    ensures Permits(tasks[i := t]) + (if tasks[i].permit then 1 else 0)
         == Permits(tasks) + (if t.permit then 1 else 0)
  {
    var n := |tasks| - 1;
    if i == n {
      assert tasks[i := t][..n] == tasks[..n];
    } else {
      PermitsUpdate(tasks[..n], i, t);
      assert tasks[i := t][..n] == tasks[..n][i := t];
    }
  }

  lemma {:induction false} NoPermits(tasks: seq<Task>)
    requires forall i :: 0 <= i < |tasks| ==> !tasks[i].permit
    ensures Permits(tasks) == 0
  {
    if tasks == [] {
    } else {
      NoPermits(tasks[..|tasks| - 1]);
    }
  }

  lemma NextKeepsOk(limit: nat, s: Admission, who: nat, h: Happening, s': Admission)
    requires Ok(limit, s) && Next(s, who, h, s')
    ensures Ok(limit, s')
  {
    PermitsUpdate(s.tasks, who, s'.tasks[who]);
  }

  /** Over every run the slots are conserved: free ones and held ones always add up to
      the limit, whatever lists complete, stall, fail or are retried. */
  lemma {:induction false} SlotsAreConserved(limit: nat, informers: nat, states: seq<Admission>, steps: seq<(nat, Happening)>, n: nat)
    requires IsRun(limit, informers, states, steps) && n < |states|
    ensures Ok(limit, states[n])
  {
    if n == 0 {
      NoPermits(states[0].tasks);
    } else {
      SlotsAreConserved(limit, informers, states, steps, n - 1);
      assert Next(states[n - 1], steps[n - 1].0, steps[n - 1].1, states[n]);
      NextKeepsOk(limit, states[n - 1], steps[n - 1].0, steps[n - 1].1, states[n]);
    }
  }

  /** The tasks whose first list is in flight. */
  function FirstLists(tasks: seq<Task>): nat {
    if tasks == [] then 0
    else
      var t := tasks[|tasks| - 1];
      FirstLists(tasks[..|tasks| - 1]) + if t.phase == Streaming && !t.initialized then 1 else 0
  }

  lemma {:induction false} FirstListsHoldPermits(tasks: seq<Task>)
    requires forall i :: 0 <= i < |tasks| ==> TaskOk(tasks[i])
    ensures FirstLists(tasks) == Permits(tasks)
  {
    if tasks == [] {
    } else {
      assert TaskOk(tasks[|tasks| - 1]);
      FirstListsHoldPermits(tasks[..|tasks| - 1]);
    }
  }

  /** What admission is for, over every run: never more than `limit` first lists in
      flight; a task that cannot start is held up by exactly `limit` first lists, every
      one of which has its stall deadline armed; and a task that has completed its first
      list never holds a slot again. */
  lemma AdmissionIsBounded(limit: nat, informers: nat, states: seq<Admission>, steps: seq<(nat, Happening)>, n: nat)
    requires IsRun(limit, informers, states, steps) && n < |states|
    ensures var s := states[n];
      && FirstLists(s.tasks) <= limit
      && forall i :: 0 <= i < |s.tasks| ==>
           && (s.tasks[i].initialized ==> !s.tasks[i].permit)
           && (s.tasks[i].phase == Streaming && !s.tasks[i].initialized ==> s.tasks[i].listing)
           && (s.tasks[i].phase == Waiting && TaskStep(s.available, s.tasks[i], Started).None? ==>
                 FirstLists(s.tasks) == limit)
  {
    SlotsAreConserved(limit, informers, states, steps, n);
    FirstListsHoldPermits(states[n].tasks);
  }

  // ---------------------------------------------------------------- the task itself

  class Semaphore {
    var available: nat

    constructor (limit: nat)
      ensures available == if limit < 1 then 1 else limit
    {
      available := if limit < 1 then 1 else limit;
    }
  }

  class InformerTask {
    const startup: Semaphore
    var phase: TaskPhase
    var initialized: bool
    var permit: bool
    var listing: bool
    var failures: nat

    ghost function Model(): Task
      reads this
    {
      Task(phase, initialized, permit, listing, failures)
    }

    constructor (startup: Semaphore)
      ensures Model() == NEW_TASK && this.startup == startup
      ensures phase == Waiting && !initialized && !permit && failures == 0
    {
      this.startup := startup;
      phase, initialized, permit, listing, failures := Waiting, false, false, true, 0;
    }

    /** Opens a stream, taking a slot first unless the task is initialized. */
    method Start() returns (ok: bool)
      requires phase == Waiting
      modifies this, startup
      ensures var step := TaskStep(old(startup.available), old(Model()), Started);
        && ok == step.Some?
        && (startup.available, Model()) == if ok then step.value else (old(startup.available), old(Model()))
      ensures ok <==> old(initialized) || old(startup.available) > 0
      ensures ok ==> phase == Streaming && listing
      ensures startup.available == if ok && !initialized then old(startup.available) - 1 else old(startup.available)
      ensures ok && !initialized ==> permit
    {
      ok := true;
      if !initialized {
        if startup.available == 0 {
          return false;
        }
        startup.available := startup.available - 1;
        permit := true;
      }
      phase, listing := Streaming, true;
    }

    method Receive(e: Event)
      requires phase == Streaming
      modifies this, startup
      ensures Some((startup.available, Model())) == TaskStep(old(startup.available), old(Model()), Received(e))
      ensures e == InitDone ==> !listing && failures == 0 && !permit && initialized == (old(initialized) || old(permit))
      ensures startup.available == if e == InitDone && old(permit) then old(startup.available) + 1 else old(startup.available)
      ensures e != InitDone ==> permit == old(permit) && initialized == old(initialized) && failures == old(failures)
      ensures e != InitDone ==> listing == (e == Init || old(listing))
    {
      if e == Init {
        listing := true;
      }
      if e == InitDone {
        listing, failures := false, 0;
        if permit {
          startup.available := startup.available + 1;
          permit, initialized, failures := false, true, 0;
        }
      }
    }

    /** The stream ended, failed, or (while listing) stalled. */
    method EndStream()
      requires phase == Streaming
      modifies this, startup
      ensures Some((startup.available, Model())) == TaskStep(old(startup.available), old(Model()), Broke)
      ensures phase == BackingOff && !permit && initialized == old(initialized)
      ensures startup.available == if old(permit) then old(startup.available) + 1 else old(startup.available)
      ensures old(listing) ==>
        Some((startup.available, Model())) == TaskStep(old(startup.available), old(Model()), Stalled)
    {
      if permit {
        startup.available := startup.available + 1;
        permit := false;
      }
      phase := BackingOff;
      failures := if failures < MAX_FAILURES then failures + 1 else MAX_FAILURES;
    }
  }
}
