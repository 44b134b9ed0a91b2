/** The two objects of the shared informer as the program keeps them: the watch behind
    its snapshot lock, with a ring of recent events instead of the whole log, and one
    subscription. Every method is proved to be one step of `SharedInformer`. */
module SharedInformerObjects {
  import opened SharedInformer
  import opened Wrappers

  /** What the broadcast receiver says. */
  datatype Received = Empty | Overrun(oldest: nat) | Got(event: Event)

  /** The objects of a map, each once, in whatever order it yields them. */
  method Values(view: View) returns (items: seq<Object>)
    requires KeyedByIdentity(view)
    ensures Enumerates(items, view)
  {
    items := [];
    var left := view.Keys;
    while left != {}
      invariant left <= view.Keys
      invariant |items| + |left| == |view|
      invariant forall i :: 0 <= i < |items| ==>
        ObjectKey(items[i]) in view && view[ObjectKey(items[i])] == items[i]
      invariant forall k :: k in view.Keys - left ==> view[k] in items
      decreases left
    {
      var k :| k in left;
      items := items + [view[k]];
      left := left - {k};
    }
  }

  /** The ring holds exactly the last `capacity` events of the log. */
  ghost predicate RingOk(capacity: nat, ring: seq<Event>, log: seq<Event>) {
    && |ring| == (if |log| <= capacity then |log| else capacity)
    && ring == log[|log| - |ring|..]
  }

  function Push(capacity: nat, ring: seq<Event>, e: Event): seq<Event> {
    if |ring| == capacity then (ring + [e])[1..] else ring + [e]
  }

  lemma PushKeepsRing(capacity: nat, ring: seq<Event>, log: seq<Event>, e: Event)
    requires RingOk(capacity, ring, log)
    ensures RingOk(capacity, Push(capacity, ring, e), log + [e])
  {
    var grown := log + [e];
    assert ring + [e] == grown[|log| - |ring|..];
    if |ring| == capacity {
      assert grown[|log| - |ring|..][1..] == grown[|log| - |ring| + 1..];
    }
  }

  function ApplyEvents(s: Store, events: seq<Event>): Store
    decreases |events|
  {
    if events == [] then s else ApplyEvents(ApplyEvent(s, events[0]), events[1..])
  }

  lemma {:induction false} ApplyEventsConcat(s: Store, a: seq<Event>, b: seq<Event>)
    ensures ApplyEvents(s, a + b) == ApplyEvents(ApplyEvents(s, a), b)
    decreases |a|
  {
    if a == [] {
      assert a + b == b;
    } else {
      assert (a + b)[1..] == a[1..] + b;
      ApplyEventsConcat(ApplyEvent(s, a[0]), a[1..], b);
    }
  }

  function Concat(batches: seq<seq<Event>>): seq<Event> {
    if batches == [] then [] else Concat(batches[..|batches| - 1]) + batches[|batches| - 1]
  }

  lemma ConcatPush(batches: seq<seq<Event>>, n: nat)
    requires n < |batches|
    ensures Concat(batches[..n + 1]) == Concat(batches[..n]) + batches[n]
  {
    assert batches[..n + 1][..n] == batches[..n];
  }

  /** What a turn delivers, and that the position the consumer's map stands for only grows. */
  lemma TurnDelivers(capacity: nat, s: Store, sub: Sub, items: seq<Object>, sub': Sub)
    requires SubOk(s, sub) && After(Turn(capacity, s, sub, items), sub, sub')
    ensures var o := Turn(capacity, s, sub, items);
      sub'.delivered == sub.delivered + if o.Yield? then [o.event] else []
    ensures sub.viewAt <= sub'.viewAt
  {
  }

  class SharedWatch {
    const capacity: nat
    var objects: View
    var ready: bool
    var readyVersion: nat
    /** The retained events, oldest first, and how many were ever sent. */
    var ring: seq<Event>
    var sent: nat
    ghost var log: seq<Event>

    ghost function Model(): Store
      reads this
    {
      Store(objects, ready, readyVersion, log)
    }

    ghost predicate Valid()
      reads this
    {
      && StoreOk(Model())
      && sent == |log|
      && RingOk(capacity, ring, log)
    }

    constructor (capacity: nat)
      ensures Valid() && Model() == EMPTY_STORE && this.capacity == capacity
      ensures objects == map[] && !ready && log == []
    {
      this.capacity := capacity;
      objects, ready, readyVersion := map[], false, 0;
      ring, sent, log := [], 0, [];
    }

    /** Updates the map and publishes, under the snapshot lock. */
    method ApplyUpstream(e: Event)
      requires Valid()
      modifies this
      ensures Valid()
      ensures Model() == ApplyEvent(old(Model()), e)
      ensures log == old(log) + [e]
      ensures e.Init? ==> objects == map[] && !ready
      ensures e.InitDone? ==> objects == old(objects) && ready
      ensures !e.Init? && !e.InitDone? ==>
        && ready == old(ready)
        && (forall k :: k != ObjectKey(e.about) ==>
              (k in objects <==> k in old(objects)) && (k in objects ==> objects[k] == old(objects)[k]))
        && (ObjectKey(e.about) in objects <==> !e.Delete?)
        && (!e.Delete? ==> objects[ObjectKey(e.about)] == e.about)
    {
      ApplyKeepsStoreOk(Model(), e);
      match e {
        case Init =>
          objects := map[];
          ready, readyVersion := false, readyVersion + 1;
        case InitApply(o) => objects := objects[ObjectKey(o) := o];
        case Apply(o) => objects := objects[ObjectKey(o) := o];
        case Delete(o) => objects := objects - {ObjectKey(o)};
        case InitDone => ready, readyVersion := true, readyVersion + 1;
      }
      PushKeepsRing(capacity, ring, log, e);
      ring := Push(capacity, ring, e);
      sent := sent + 1;
      log := log + [e];
    }

    /** Nothing while a list is in progress; otherwise the map as it stands, and a
        receiver positioned exactly after the last event it reflects. */
    method SnapshotAndSubscribe() returns (r: Option<(seq<Object>, nat)>)
      requires Valid()
      ensures r.None? <==> !ready
      ensures r.Some? ==> Enumerates(r.value.0, objects) && r.value.1 == |log|
    {
      if !ready {
        return None;
      }
      FoldKeepsKeys(map[], log);
      assert log[..|log|] == log;
      var items := Values(objects);
      r := Some((items, sent));
    }

    /** The bounded channel: the event at `position`, unless it is not sent yet or has
        been pushed out by `capacity` later ones. */
    method Receive(position: nat) returns (r: Received)
      requires Valid() && position <= |log|
      ensures r == if |log| > position + capacity then Overrun(|log| - capacity)
                   else if position == |log| then Empty else Got(log[position])
    {
      var oldest := sent - |ring|;
      if position < oldest {
        r := Overrun(oldest);
      } else if position == sent {
        r := Empty;
      } else {
        r := Got(ring[position - oldest]);
      }
    }
  }

  /** How a turn of the subscription's loop ends: waiting, going round again, or with
      an event for the consumer. */
  datatype TurnResult = Pending | Again | Ready(event: Event)

  class SharedSubscription {
    const shared: SharedWatch
    var phase: Phase
    var initial: seq<Object>
    var initialIndex: nat
    var receiver: nat
    var seenReady: nat
    var awaitingReady: bool
    ghost var delivered: seq<Event>
    ghost var viewAt: nat

    ghost function Model(): Sub
      reads this
    {
      Sub(phase, initial, initialIndex, receiver, seenReady, awaitingReady, delivered, viewAt)
    }

    ghost predicate Valid()
      reads this, shared
    {
      shared.Valid() && SubOk(shared.Model(), Model())
    }

    constructor (shared: SharedWatch)
      requires shared.Valid()
      ensures Valid() && this.shared == shared
      ensures Model() == Subscribe(shared.Model())
    {
      this.shared := shared;
      phase, initial, initialIndex := NeedSnapshot, [], 0;
      receiver, seenReady, awaitingReady := shared.sent, shared.readyVersion, false;
      delivered, viewAt := [], 0;
    }

    /** What a turn of the loop must do: one turn of the model from `before`, whose
        snapshot order, if it takes a snapshot, is `items`. */
    ghost predicate TurnedFrom(before: Sub, r: TurnResult, items: seq<Object>)
      reads this, shared
    {
      && SnapshotOk(shared.Model(), before, items)
      && var o := Turn(shared.capacity, shared.Model(), before, items);
         && After(o, before, Model())
         && r == (if o.Blocked? then Pending else if o.Continue? then Again else Ready(o.event))
    }

    method CheckReady() returns (r: TurnResult, ghost items: seq<Object>)
      requires Valid() && phase == NeedSnapshot
      modifies this
      ensures TurnedFrom(old(Model()), r, items)
    {
      items := [];
      r := Again;
      if awaitingReady {
        if seenReady == shared.readyVersion {
          r := Pending;
        } else {
          seenReady, awaitingReady := shared.readyVersion, false;
        }
      } else {
        var snapshot := shared.SnapshotAndSubscribe();
        match snapshot {
          case None => awaitingReady := true;
          case Some(pair) =>
            items := pair.0;
            initial, receiver, initialIndex, phase := pair.0, pair.1, 0, SendInit;
        }
      }
    }

    method Replay() returns (r: TurnResult, ghost items: seq<Object>)
      requires Valid() && phase in {SendInit, SendInitApply, SendInitDone}
      modifies this
      ensures TurnedFrom(old(Model()), r, items)
    {
      items := [];
      var e := Init;
      if phase == SendInit {
        phase := if initial == [] then SendInitDone else SendInitApply;
      } else if phase == SendInitApply {
        e := InitApply(initial[initialIndex]);
        initialIndex := initialIndex + 1;
        if initialIndex == |initial| {
          phase := SendInitDone;
        }
      } else {
        phase, viewAt := Live, receiver;
        e := InitDone;
      }
      delivered := delivered + [e];
      r := Ready(e);
    }

    method Follow() returns (r: TurnResult, ghost items: seq<Object>)
      requires Valid() && phase == Live
      modifies this
      ensures TurnedFrom(old(Model()), r, items)
    {
      items := [];
      var received := shared.Receive(receiver);
      match received {
        case Empty => r := Pending;
        case Overrun(oldest) =>
          phase, receiver := NeedSnapshot, oldest;
          r := Again;
        case Got(e) =>
          receiver, viewAt := receiver + 1, receiver + 1;
          delivered := delivered + [e];
          r := Ready(e);
      }
    }

    /** One turn of the loop. */
    method TakeTurn() returns (r: TurnResult, ghost items: seq<Object>)
      requires Valid()
      modifies this
      ensures Valid() && TurnedFrom(old(Model()), r, items)
    {
      ghost var before := Model();
      match phase {
        case NeedSnapshot => r, items := CheckReady();
        case Live => r, items := Follow();
        case _ => r, items := Replay();
      }
      TurnKeepsSubOk(shared.capacity, shared.Model(), before, items, Model());
    }

    /** Events from upstream land while this subscription is between two turns. */
    method Interrupted(events: seq<Event>)
      requires Valid()
      modifies shared
      ensures Valid() && shared.Model() == ApplyEvents(old(shared.Model()), events)
    {
      for k := 0 to |events|
        invariant Valid()
        invariant ApplyEvents(shared.Model(), events[k..]) == ApplyEvents(old(shared.Model()), events)
      {
        assert events[k..][0] == events[k] && events[k..][1..] == events[k + 1..];
        ApplyKeepsSubOk(shared.Model(), events[k], Model());
        shared.ApplyUpstream(events[k]);
      }
    }

    /** One turn after `events` have landed. It delivers an event or nothing, never rewinds
        what the consumer's map stands for, and waits only when nothing was missed: the
        consumer is current, or a list is in progress. */
    method TurnAfter(events: seq<Event>) returns (r: TurnResult)
      requires Valid()
      modifies this, shared
      ensures Valid() && shared.Model() == ApplyEvents(old(shared.Model()), events)
      ensures delivered == old(delivered) + (if r.Ready? then [r.event] else []) && viewAt >= old(viewAt)
      ensures r == Pending ==>
        if phase == Live then ViewOf(Model()) == shared.objects else phase == NeedSnapshot && !shared.ready
      ensures r == Again && events == [] ==>
        TurnsLeft(shared.capacity, shared.Model(), Model()) < old(TurnsLeft(shared.capacity, shared.Model(), Model()))
    {
      Interrupted(events);
      ghost var before := Model();
      ghost var items;
      r, items := TakeTurn();
      if r == Pending {
        BlockedIsCurrent(shared.capacity, shared.Model(), before, items);
      } else {
        TurnMakesProgress(shared.capacity, shared.Model(), before, items, Model());
        TurnDelivers(shared.capacity, shared.Model(), before, items, Model());
      }
    }

    /** Runs until there is an event for the consumer, while `arriving[k]` lands before
        the loop's turn number k. It delivers one event, or it is still waiting after
        everything arrived, and then nothing was missed. */
    method NextEvent(arriving: seq<seq<Event>>) returns (r: Option<Event>, turns: nat)
      requires Valid()
      modifies this, shared
      ensures Valid() && turns <= |arriving|
      ensures shared.Model() == ApplyEvents(old(shared.Model()), Concat(arriving[..turns]))
      ensures delivered == old(delivered) + (if r.Some? then [r.value] else []) && viewAt >= old(viewAt)
      ensures r.None? ==> turns == |arriving|
      ensures r.None? ==>
        if phase == Live then ViewOf(Model()) == shared.objects else phase == NeedSnapshot && !shared.ready
    {
      turns := 0;
      while true
        invariant Valid() && turns <= |arriving|
        invariant shared.Model() == ApplyEvents(old(shared.Model()), Concat(arriving[..turns]))
        invariant delivered == old(delivered) && viewAt >= old(viewAt)
        decreases |arriving| - turns, TurnsLeft(shared.capacity, shared.Model(), Model())
      {
        var landing := turns < |arriving|;
        var events := if landing then arriving[turns] else [];
        if landing {
          ConcatPush(arriving, turns);
        }
        ApplyEventsConcat(old(shared.Model()), Concat(arriving[..turns]), events);
        var result := TurnAfter(events);
        turns := if landing then turns + 1 else turns;
        match result {
          case Pending =>
            if !landing {
              return None, turns;
            }
          case Ready(e) => return Some(e), turns;
          case Again =>
        }
      }
    }
  }
}
