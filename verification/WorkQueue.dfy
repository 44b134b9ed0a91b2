/** The keyed work queue of the controllers: a FIFO of distinct keys, and the wake-ups that
    tell its consumers of work. */
module WorkQueue {
  import opened Wrappers

  type Key = string

  datatype Queue = Queue(pending: seq<Key>, queued: set<Key>)

  ghost predicate Distinct(s: seq<Key>) { forall i, j :: 0 <= i < j < |s| ==> s[i] != s[j] }

  /** The set holds exactly the pending keys, each pending once. */
  ghost predicate IsQueue(q: Queue) { Distinct(q.pending) && forall k :: k in q.queued <==> k in q.pending }

  /** An enqueue has an effect only on a key that is not queued. */
  function Enqueued(q: Queue, key: Key): Queue {
    if key in q.queued then q else Queue(q.pending + [key], q.queued + {key})
  }

  function Popped(q: Queue): Queue
    requires q.pending != []
  {
    Queue(q.pending[1..], q.queued - {q.pending[0]})
  }

  lemma EnqueuedIsQueue(q: Queue, key: Key)
    requires IsQueue(q)
    ensures IsQueue(Enqueued(q, key))
  {
  }

  lemma PoppedIsQueue(q: Queue)
    requires IsQueue(q) && q.pending != []
    ensures IsQueue(Popped(q))
  {
    var rest := q.pending[1..];
    forall k ensures k in Popped(q).queued <==> k in rest {
      if k in q.pending && k != q.pending[0] {
        var i :| 0 <= i < |q.pending| && q.pending[i] == k;
        assert rest[i - 1] == k;
      }
    }
  }

  class KeyedWorkQueue {
    var pending: seq<Key>
    var queued: set<Key>
    /** The notification stored for the next consumer that waits. */
    var permit: bool
    /** Consumers waiting for a notification. */
    var waiting: nat

    function Contents(): Queue
      reads this
    {
      Queue(pending, queued)
    }

    ghost predicate Valid()
      reads this
    {
      IsQueue(Contents())
    }

    constructor ()
      ensures Valid() && Contents() == Queue([], {}) && !permit && waiting == 0
    {
      pending, queued, permit, waiting := [], {}, false, 0;
    }

    /** Wakes one waiting consumer, or stores at most one permit if none waits. */
    method NotifyOne() returns (woke: bool)
      modifies this`permit, this`waiting
      ensures woke <==> old(waiting) > 0
      ensures waiting == if woke then old(waiting) - 1 else 0
      ensures permit == (old(permit) || !woke)
    {
      woke := waiting > 0;
      if woke {
        waiting := waiting - 1;
      } else {
        permit := true;
      }
    }

    method Enqueue(key: Key) returns (woke: bool)
      requires Valid()
      modifies this
      ensures Valid() && Contents() == Enqueued(old(Contents()), key)
      ensures pending == old(pending) + if key in old(queued) then [] else [key]
      ensures key in queued
      ensures key in old(queued) ==> !woke && permit == old(permit) && waiting == old(waiting)
      ensures key !in old(queued) ==> (woke <==> old(waiting) > 0) && permit == (old(permit) || !woke)
      ensures waiting == if woke then old(waiting) - 1 else old(waiting)
    {
      EnqueuedIsQueue(Contents(), key);
      woke := false;
      if key !in queued {
        queued := queued + {key};
        pending := pending + [key];
        woke := NotifyOne();
      }
    }

    /** One turn of the loop in `pop`: the oldest key, or none and the consumer must wait. */
    method TryPop() returns (key: Option<Key>)
      requires Valid()
      modifies this`pending, this`queued
      ensures Valid()
      ensures key.None? <==> old(pending) == []
      ensures key.Some? ==> key.value == old(pending)[0] && Contents() == Popped(old(Contents()))
      ensures key.Some? ==> pending == old(pending)[1..] && key.value !in queued
      ensures key.None? ==> Contents() == old(Contents())
    {
      if pending == [] {
        return None;
      }
      PoppedIsQueue(Contents());
      key := Some(pending[0]);
      pending := pending[1..];
      queued := queued - {key.value};
    }

    /** The first poll of a wait: it takes the stored permit, or starts waiting. */
    method Wait() returns (resumed: bool)
      modifies this`permit, this`waiting
      ensures resumed == old(permit)
      ensures !permit && waiting == if resumed then old(waiting) else old(waiting) + 1
    {
      resumed := permit;
      permit := false;
      if !resumed {
        waiting := waiting + 1;
      }
    }
  }

  // --------------------------------------------------- producers and consumers together

  type Consumer = nat

  /** Where a consumer is: outside `pop`, about to look at the queue, about to wait after
      finding it empty, or waiting. */
  datatype Phase = Busy | Looking | Emptied | Waiting

  datatype Event = Accepted(key: Key) | Taken(key: Key)

  datatype State = State(queue: Queue, permit: bool, phase: map<Consumer, Phase>, log: seq<Event>)

  datatype Action =
    | Enqueue(key: Key, wake: Consumer)
    | CallPop(c: Consumer)
    | Look(c: Consumer)
    | Wait(c: Consumer)

  predicate SomeWaits(s: State) { exists c :: c in s.phase && s.phase[c].Waiting? }

  /** The notification of an enqueue reaches a waiting consumer if there is one. */
  predicate IsEnabled(s: State, a: Action) {
    match a
    case Enqueue(key, wake) =>
      key !in s.queue.queued && SomeWaits(s) ==> wake in s.phase && s.phase[wake].Waiting?
    case CallPop(c) => c in s.phase && s.phase[c].Busy?
    case Look(c) => c in s.phase && s.phase[c].Looking?
    case Wait(c) => c in s.phase && s.phase[c].Emptied?
  }

  function Next(s: State, a: Action): State
    requires IsEnabled(s, a)
  {
    match a
    case Enqueue(key, wake) =>
      if key in s.queue.queued then s
      else
        var t := s.(queue := Enqueued(s.queue, key), log := s.log + [Accepted(key)]);
        if SomeWaits(s) then t.(phase := s.phase[wake := Looking]) else t.(permit := true)
    case CallPop(c) => s.(phase := s.phase[c := Looking])
    case Look(c) =>
      if s.queue.pending == [] then s.(phase := s.phase[c := Emptied])
      else
        s.(queue := Popped(s.queue), phase := s.phase[c := Busy], log := s.log + [Taken(s.queue.pending[0])])
    case Wait(c) =>
      if s.permit then s.(permit := false, phase := s.phase[c := Looking])
      else s.(phase := s.phase[c := Waiting])
  }

  predicate IsStart(s: State) {
    s.queue == Queue([], {}) && !s.permit && s.log == [] && forall c :: c in s.phase ==> s.phase[c].Busy?
  }

  /** Whether the actions can be taken one after the other. */
  predicate IsRun(s: State, actions: seq<Action>)
    decreases |actions|
  {
    actions == [] || (IsEnabled(s, actions[0]) && IsRun(Next(s, actions[0]), actions[1..]))
  }

  function After(s: State, actions: seq<Action>): State
    requires IsRun(s, actions)
    decreases |actions|
  {
    if actions == [] then s else After(Next(s, actions[0]), actions[1..])
  }

  // ------------------------------------------------------------------------ wake-ups

  predicate Serves(s: State, c: Consumer) { c in s.phase && (s.phase[c].Looking? || s.phase[c].Busy?) }

  /** Pending work has a permit stored for it, or a consumer that will look at the queue; and
      a permit is stored only while nobody waits. */
  ghost predicate NoLostWakeup(s: State) {
    && (s.queue.pending != [] ==> s.permit || exists c :: Serves(s, c))
    && (s.permit ==> !SomeWaits(s))
  }

  lemma NextKeepsWakeups(s: State, a: Action)
    requires NoLostWakeup(s) && IsEnabled(s, a)
    ensures NoLostWakeup(Next(s, a))
  {
    var t := Next(s, a);
    match a
    case Enqueue(key, wake) =>
      if key !in s.queue.queued && SomeWaits(s) {
        assert Serves(t, wake);
      }
    case CallPop(c) =>
      assert Serves(t, c);
      NobodyStartsWaiting(s, t, c);
    case Look(c) =>
      NobodyStartsWaiting(s, t, c);
      if s.queue.pending != [] {
        assert Serves(t, c);
      }
    case Wait(c) =>
      if s.permit {
        assert Serves(t, c);
        NobodyStartsWaiting(s, t, c);
      } else if s.queue.pending != [] {
        var d :| Serves(s, d);
        assert Serves(t, d);
      }
  }

  lemma NobodyStartsWaiting(s: State, t: State, c: Consumer)
    requires c in t.phase && !t.phase[c].Waiting? && t.phase == s.phase[c := t.phase[c]]
    ensures SomeWaits(t) ==> SomeWaits(s)
  {
    if SomeWaits(t) {
      var d :| d in t.phase && t.phase[d].Waiting?;
      assert d in s.phase && s.phase[d].Waiting?;
    }
  }

  lemma {:induction false} RunKeepsWakeups(s: State, actions: seq<Action>)
    requires NoLostWakeup(s) && IsRun(s, actions)
    ensures NoLostWakeup(After(s, actions))
    decreases |actions|
  {
    if actions == [] {
    } else {
      NextKeepsWakeups(s, actions[0]);
      RunKeepsWakeups(Next(s, actions[0]), actions[1..]);
    }
  }

  /** Whatever the interleaving, work is never pending while every consumer waits. */
  lemma WorkIsNeverForgotten(s: State, actions: seq<Action>)
    requires IsStart(s) && s.phase != map[] && IsRun(s, actions)
    ensures var t := After(s, actions);
      t.queue.pending != [] ==> exists c :: c in t.phase && !t.phase[c].Waiting?
  {
    RunKeepsWakeups(s, actions);
    ConsumersStay(s, actions);
    var t := After(s, actions);
    if t.queue.pending != [] {
      if t.permit {
        var c :| c in t.phase;
        assert !t.phase[c].Waiting?;
      } else {
        var c :| Serves(t, c);
        assert !t.phase[c].Waiting?;
      }
    }
  }

  lemma {:induction false} ConsumersStay(s: State, actions: seq<Action>)
    requires IsRun(s, actions)
    ensures After(s, actions).phase.Keys == s.phase.Keys
    decreases |actions|
  {
    if actions == [] {
    } else {
      ConsumersStay(Next(s, actions[0]), actions[1..]);
    }
  }

  lemma Then(s: State, a: Action, t: State, rest: seq<Action>)
    requires IsEnabled(s, a) && Next(s, a) == t && IsRun(t, rest)
    ensures IsRun(s, [a] + rest) && After(s, [a] + rest) == After(t, rest)
  {
    assert ([a] + rest)[1..] == rest;
  }

  /** Two consumers have found the queue empty, nobody waits, and there is no permit. */
  ghost predicate BothEmptied(s: State, c: Consumer, d: Consumer) {
    && s.queue == Queue([], {}) && !s.permit && !SomeWaits(s)
    && c != d && c in s.phase && s.phase[c].Emptied? && d in s.phase && s.phase[d].Emptied?
  }

  function ArriveThenWait(c: Consumer, d: Consumer): seq<Action> {
    [Enqueue("a", c)] + ([Enqueue("b", c)] + ([Wait(c)] + ([Wait(d)] + ([Look(c)] + []))))
  }

  /** Then two keys arrive on one permit, and the second consumer is left waiting. */
  lemma OneIsLeftWaiting(s: State, c: Consumer, d: Consumer)
    requires BothEmptied(s, c, d)
    ensures IsRun(s, ArriveThenWait(c, d))
    ensures var t := After(s, ArriveThenWait(c, d));
      t.queue.pending == ["b"] && !t.permit && d in t.phase && t.phase[d].Waiting? && c in t.phase && t.phase[c].Busy?
  {
    var s1 := Next(s, Enqueue("a", c));
    assert s1.phase == s.phase && s1.permit;
    NobodyWaits(s, s1);
    var s2 := Next(s1, Enqueue("b", c));
    assert s2.phase == s.phase && s2.permit && s2.queue.pending == ["a", "b"];
    var s3 := Next(s2, Wait(c));
    var s4 := Next(s3, Wait(d));
    var t := Next(s4, Look(c));
    assert s4.queue.pending == ["a", "b"] && t.queue.pending == ["b"];
    Then(s4, Look(c), t, []);
    Then(s3, Wait(d), s4, [Look(c)] + []);
    Then(s2, Wait(c), s3, [Wait(d)] + ([Look(c)] + []));
    Then(s1, Enqueue("b", c), s2, [Wait(c)] + ([Wait(d)] + ([Look(c)] + [])));
    Then(s, Enqueue("a", c), s1, [Enqueue("b", c)] + ([Wait(c)] + ([Wait(d)] + ([Look(c)] + []))));
  }

  lemma NobodyWaits(s: State, t: State)
    requires !SomeWaits(s) && t.phase == s.phase
    ensures !SomeWaits(t)
  {
  }

  /** From the start, any two consumers can both find the queue empty. */
  function BothLook(c: Consumer, d: Consumer, rest: seq<Action>): seq<Action> {
    [CallPop(c)] + ([CallPop(d)] + ([Look(c)] + ([Look(d)] + rest)))
  }

  lemma BothFindItEmpty(s: State, c: Consumer, d: Consumer) returns (t: State)
    requires IsStart(s) && c in s.phase && d in s.phase && c != d
    ensures BothEmptied(t, c, d)
    ensures forall rest :: IsRun(t, rest) ==>
      IsRun(s, BothLook(c, d, rest)) && After(s, BothLook(c, d, rest)) == After(t, rest)
  {
    var s1 := Next(s, CallPop(c));
    var s2 := Next(s1, CallPop(d));
    var s3 := Next(s2, Look(c));
    t := Next(s3, Look(d));
    forall rest | IsRun(t, rest)
      ensures IsRun(s, BothLook(c, d, rest)) && After(s, BothLook(c, d, rest)) == After(t, rest)
    {
      Then(s3, Look(d), t, rest);
      Then(s2, Look(c), s3, [Look(d)] + rest);
      Then(s1, CallPop(d), s2, [Look(c)] + ([Look(d)] + rest));
      Then(s, CallPop(c), s1, [CallPop(d)] + ([Look(c)] + ([Look(d)] + rest)));
    }
  }

  /** Any two consumers that both found the queue empty before two keys arrive share the one
      permit: one of them then waits beside pending work until the other is done. */
  lemma WakeupsCoalesce(s: State, c: Consumer, d: Consumer) returns (actions: seq<Action>)
    requires IsStart(s) && c in s.phase && d in s.phase && c != d
    ensures IsRun(s, actions)
    ensures var t := After(s, actions);
      t.queue.pending == ["b"] && !t.permit && d in t.phase && t.phase[d].Waiting? && c in t.phase && t.phase[c].Busy?
  {
    var t := BothFindItEmpty(s, c, d);
    OneIsLeftWaiting(t, c, d);
    actions := BothLook(c, d, ArriveThenWait(c, d));
  }

  /** No consumer waits beside pending work. */
  ghost predicate NobodyIdles(s: State) { s.queue.pending != [] ==> !SomeWaits(s) }

  lemma AloneNeverIdles(s: State, actions: seq<Action>)
    requires IsStart(s) && |s.phase| <= 1 && IsRun(s, actions)
    ensures NobodyIdles(After(s, actions))
  {
    var t := After(s, actions);
    RunKeepsWakeups(s, actions);
    ConsumersStay(s, actions);
    if t.queue.pending != [] && SomeWaits(t) {
      var c :| Serves(t, c);
      var d :| d in t.phase && t.phase[d].Waiting?;
      AtMostOne(s.phase.Keys, c, d);
    }
  }

  lemma AtMostOne(keys: set<Consumer>, c: Consumer, d: Consumer)
    requires |keys| <= 1 && c in keys && d in keys
    ensures c == d
  {
    var others := keys - {c};
    assert |others| == |keys| - 1;
    assert d !in others;
  }

  /** In every run no consumer waits beside pending work, if and only if there is at most one
      consumer: from two on, wake-ups can coalesce. */
  lemma NobodyIdlesExactlyWhen(s: State)
    requires IsStart(s)
    ensures (forall actions :: IsRun(s, actions) ==> NobodyIdles(After(s, actions))) <==> |s.phase| <= 1
  {
    if |s.phase| <= 1 {
      forall actions | IsRun(s, actions) ensures NobodyIdles(After(s, actions)) {
        AloneNeverIdles(s, actions);
      }
    } else {
      var c, d := TwoOf(s.phase.Keys);
      var actions := WakeupsCoalesce(s, c, d);
      assert IsRun(s, actions) && !NobodyIdles(After(s, actions));
    }
  }

  lemma TwoOf(keys: set<Consumer>) returns (c: Consumer, d: Consumer)
    requires |keys| > 1
    ensures c in keys && d in keys && c != d
  {
    c :| c in keys;
    assert |keys - {c}| == |keys| - 1;
    d :| d in keys - {c};
  }

  // --------------------------------------------------------------------- the history

  function AcceptedKeys(log: seq<Event>): seq<Key> {
    if log == [] then []
    else
      var rest := AcceptedKeys(log[..|log| - 1]);
      match log[|log| - 1]
      case Accepted(k) => rest + [k]
      case Taken(_) => rest
  }

  function TakenKeys(log: seq<Event>): seq<Key> {
    if log == [] then []
    else
      var rest := TakenKeys(log[..|log| - 1]);
      match log[|log| - 1]
      case Accepted(_) => rest
      case Taken(k) => rest + [k]
  }

  ghost predicate IsFaithful(s: State) {
    IsQueue(s.queue) && AcceptedKeys(s.log) == TakenKeys(s.log) + s.queue.pending
  }

  lemma AcceptedPush(log: seq<Event>, e: Event)
    ensures AcceptedKeys(log + [e]) == AcceptedKeys(log) + (if e.Accepted? then [e.key] else [])
    ensures TakenKeys(log + [e]) == TakenKeys(log) + (if e.Taken? then [e.key] else [])
  {
    assert (log + [e])[..|log|] == log;
  }

  lemma Regroup(taken: seq<Key>, pending: seq<Key>, k: Key)
    ensures (taken + pending) + [k] == taken + (pending + [k])
    ensures pending != [] ==> (taken + [pending[0]]) + pending[1..] == taken + pending
  {
  }

  lemma AcceptIsFaithful(q: Queue, log: seq<Event>, key: Key)
    requires AcceptedKeys(log) == TakenKeys(log) + q.pending && key !in q.queued
    ensures AcceptedKeys(log + [Accepted(key)]) == TakenKeys(log + [Accepted(key)]) + Enqueued(q, key).pending
  {
    AcceptedPush(log, Accepted(key));
    Regroup(TakenKeys(log), q.pending, key);
  }

  lemma TakeIsFaithful(q: Queue, log: seq<Event>)
    requires AcceptedKeys(log) == TakenKeys(log) + q.pending && q.pending != []
    ensures var e := Taken(q.pending[0]);
      AcceptedKeys(log + [e]) == TakenKeys(log + [e]) + Popped(q).pending
  {
    AcceptedPush(log, Taken(q.pending[0]));
    Regroup(TakenKeys(log), q.pending, q.pending[0]);
  }

  lemma EnqueueIsFaithful(s: State, a: Action)
    requires IsFaithful(s) && IsEnabled(s, a) && a.Enqueue?
    ensures IsFaithful(Next(s, a))
  {
    EnqueuedIsQueue(s.queue, a.key);
    if a.key !in s.queue.queued {
      AcceptIsFaithful(s.queue, s.log, a.key);
    }
  }

  lemma LookIsFaithful(s: State, a: Action)
    requires IsFaithful(s) && IsEnabled(s, a) && a.Look?
    ensures IsFaithful(Next(s, a))
  {
    if s.queue.pending != [] {
      PoppedIsQueue(s.queue);
      TakeIsFaithful(s.queue, s.log);
    }
  }

  lemma NextIsFaithful(s: State, a: Action)
    requires IsFaithful(s) && IsEnabled(s, a)
    ensures IsFaithful(Next(s, a))
  {
    if a.Enqueue? {
      EnqueueIsFaithful(s, a);
    } else if a.Look? {
      LookIsFaithful(s, a);
    }
  }

  /** Keys come out in the order they were accepted, none lost and none repeated: what was
      accepted is what was taken followed by what is pending. */
  lemma {:induction false} RunIsFaithful(s: State, actions: seq<Action>)
    requires IsFaithful(s) && IsRun(s, actions)
    ensures IsFaithful(After(s, actions))
    decreases |actions|
  {
    if actions == [] {
    } else {
      NextIsFaithful(s, actions[0]);
      RunIsFaithful(Next(s, actions[0]), actions[1..]);
    }
  }

  /** Accepted and not taken since. */
  predicate IsOpen(log: seq<Event>, key: Key) {
    if log == [] then false
    else if log[|log| - 1].key == key then log[|log| - 1].Accepted?
    else IsOpen(log[..|log| - 1], key)
  }

  /** Acceptances and pops of a key take turns, an acceptance first. */
  predicate Alternates(log: seq<Event>, key: Key) {
    log == [] || (
      Alternates(log[..|log| - 1], key)
      && var last := log[|log| - 1];
         (last.key == key ==> (last.Taken? <==> IsOpen(log[..|log| - 1], key))))
  }

  ghost predicate TakesTurns(s: State, key: Key) {
    IsQueue(s.queue) && Alternates(s.log, key) && (key in s.queue.queued <==> IsOpen(s.log, key))
  }

  lemma AcceptTakesTurns(q: Queue, log: seq<Event>, key: Key, k: Key)
    requires IsQueue(q) && Alternates(log, key) && (key in q.queued <==> IsOpen(log, key)) && k !in q.queued
    ensures Alternates(log + [Accepted(k)], key)
    ensures key in Enqueued(q, k).queued <==> IsOpen(log + [Accepted(k)], key)
  {
    assert (log + [Accepted(k)])[..|log|] == log;
  }

  lemma TakeTakesTurns(q: Queue, log: seq<Event>, key: Key)
    requires IsQueue(q) && Alternates(log, key) && (key in q.queued <==> IsOpen(log, key)) && q.pending != []
    ensures Alternates(log + [Taken(q.pending[0])], key)
    ensures key in Popped(q).queued <==> IsOpen(log + [Taken(q.pending[0])], key)
  {
    assert (log + [Taken(q.pending[0])])[..|log|] == log;
  }

  /** Over any run, a key is accepted and taken in turns: however often it is enqueued before
      a pop it is taken once, and between two pops of it lies an acceptance. */
  lemma {:induction false} RunTakesTurns(s: State, actions: seq<Action>, key: Key)
    requires TakesTurns(s, key) && IsRun(s, actions)
    ensures TakesTurns(After(s, actions), key)
    decreases |actions|
  {
    if actions == [] {
    } else {
      var a := actions[0];
      if a.Enqueue? && a.key !in s.queue.queued {
        EnqueuedIsQueue(s.queue, a.key);
        AcceptTakesTurns(s.queue, s.log, key, a.key);
      } else if a.Look? && s.queue.pending != [] {
        PoppedIsQueue(s.queue);
        TakeTakesTurns(s.queue, s.log, key);
      }
      RunTakesTurns(Next(s, a), actions[1..], key);
    }
  }

  lemma {:induction false} AcceptedBetween(log: seq<Event>, key: Key, i: nat) returns (m: nat)
    requires i < |log| && log[i] == Taken(key) && IsOpen(log, key)
    ensures i < m < |log| && log[m] == Accepted(key)
    decreases |log|
  {
    m := |log| - 1;
    if log[m].key == key {
    } else {
      m := AcceptedBetween(log[..m], key, i);
    }
  }

  /** Between two pops of a key the key was accepted again. */
  lemma {:induction false} PopsAreSeparated(log: seq<Event>, key: Key, i: nat, j: nat) returns (m: nat)
    requires Alternates(log, key) && i < j < |log| && log[i] == Taken(key) && log[j] == Taken(key)
    ensures i < m < j && log[m] == Accepted(key)
    decreases |log|
  {
    if j == |log| - 1 {
      m := AcceptedBetween(log[..j], key, i);
    } else {
      m := PopsAreSeparated(log[..|log| - 1], key, i, j);
    }
  }

  /** From the start, every run keeps the queue faithful and each key's events in turn. */
  lemma RunsFromStart(s: State, actions: seq<Action>, key: Key)
    requires IsStart(s) && IsRun(s, actions)
    ensures IsFaithful(After(s, actions)) && TakesTurns(After(s, actions), key)
  {
    RunIsFaithful(s, actions);
    RunTakesTurns(s, actions, key);
  }
}
