/** The shared informer: one list/watch stream applied to a locked object map and
    broadcast, over a bounded and lossy channel, to any number of subscribers.

    The functions of this module are the atomic steps of the writer and of a
    subscriber; `Next` interleaves them in every possible order, and the lemmas below it
    are about all runs. The locked objects themselves are the classes of
    `SharedInformerObjects`, each method proved to perform exactly one of the steps. */
module SharedInformer {
  import Text

  /** A Kubernetes object; `body` stands for everything but its identity. */
  datatype Object = Object(namespace: string, name: string, body: string)

  function ObjectKey(o: Object): string { o.namespace + "/" + o.name }

  datatype Event =
    | Init
    | InitApply(about: Object)
    | InitDone
    | Apply(about: Object)
    | Delete(about: Object)

  type View = map<string, Object>

  /** What one event means to whoever keeps a map of objects. */
  function FoldEvent(view: View, e: Event): View {
    match e
    case Init => map[]
    case InitApply(o) => view[ObjectKey(o) := o]
    case Apply(o) => view[ObjectKey(o) := o]
    case Delete(o) => view - {ObjectKey(o)}
    case InitDone => view
  }

  function Fold(view: View, events: seq<Event>): View {
    if events == [] then view
    else FoldEvent(Fold(view, events[..|events| - 1]), events[|events| - 1])
  }

  // -------------------------------------------------------------------- the writer

  /** The state behind the snapshot lock. `log` is every event ever broadcast; the
      channel retains the last `capacity` of them. `readyVersion` counts the sends on
      the ready channel. */
  datatype Store = Store(objects: View, ready: bool, readyVersion: nat, log: seq<Event>)

  const EMPTY_STORE := Store(map[], false, 0, [])

  function ApplyEvent(s: Store, e: Event): Store {
    Store(
      FoldEvent(s.objects, e),
      match e case Init => false case InitDone => true case _ => s.ready,
      if e.Init? || e.InitDone? then s.readyVersion + 1 else s.readyVersion,
      s.log + [e])
  }

  /** The store as it was after the first `p` events. */
  function StoreAt(log: seq<Event>, p: nat): View
    requires p <= |log|
  {
    Fold(map[], log[..p])
  }

  /** A snapshot: the objects of a view, each once, in an arbitrary order. */
  ghost predicate Enumerates(items: seq<Object>, view: View) {
    && |items| == |view|
    && (forall i :: 0 <= i < |items| ==> ObjectKey(items[i]) in view && view[ObjectKey(items[i])] == items[i])
    && (forall k :: k in view ==> view[k] in items)
  }

  // ---------------------------------------------------------------- one subscriber

  datatype Phase = NeedSnapshot | SendInit | SendInitApply | SendInitDone | Live

  /** A subscription. `receiver` is the next position its broadcast receiver reads and
      `seenReady` the version its ready receiver has seen; `awaitingReady` says that it
      found the store not ready and is about to wait for a change. `delivered` and
      `viewAt` are history: all it has handed to its consumer, and the position of the
      log that the consumer's map last stood for. */
  datatype Sub = Sub(
    phase: Phase,
    initial: seq<Object>,
    initialIndex: nat,
    receiver: nat,
    seenReady: nat,
    awaitingReady: bool,
    delivered: seq<Event>,
    viewAt: nat)

  function Subscribe(s: Store): Sub {
    Sub(NeedSnapshot, [], 0, |s.log|, s.readyVersion, false, [], 0)
  }

  /** The consumer's map. */
  function ViewOf(sub: Sub): View { Fold(map[], sub.delivered) }

  datatype Outcome = Blocked | Continue(sub: Sub) | Yield(event: Event, sub: Sub)

  function Deliver(sub: Sub, e: Event): Sub { sub.(delivered := sub.delivered + [e]) }

  predicate Lagged(capacity: nat, s: Store, sub: Sub) {
    |s.log| > sub.receiver + capacity
  }

  /** One turn of the subscriber's loop. `items` is the order in which a snapshot, if
      this turn takes one, lists the objects. */
  function Turn(capacity: nat, s: Store, sub: Sub, items: seq<Object>): Outcome {
    match sub.phase
    case NeedSnapshot =>
      if sub.awaitingReady then
        if sub.seenReady == s.readyVersion then Blocked
        else Continue(sub.(seenReady := s.readyVersion, awaitingReady := false))
      else if !s.ready then Continue(sub.(awaitingReady := true))
      else Continue(sub.(phase := SendInit, initial := items, initialIndex := 0, receiver := |s.log|))
    case SendInit =>
      Yield(Init, Deliver(sub.(phase := if sub.initial == [] then SendInitDone else SendInitApply), Init))
    case SendInitApply =>
      if sub.initialIndex >= |sub.initial| then Blocked
      else
        var e := InitApply(sub.initial[sub.initialIndex]);
        var next := sub.initialIndex + 1;
        Yield(e, Deliver(sub.(initialIndex := next,
                              phase := if next == |sub.initial| then SendInitDone else SendInitApply), e))
    case SendInitDone =>
      Yield(InitDone, Deliver(sub.(phase := Live, viewAt := sub.receiver), InitDone))
    case Live =>
      if Lagged(capacity, s, sub) then
        Continue(sub.(phase := NeedSnapshot, receiver := |s.log| - capacity))
      else if sub.receiver >= |s.log| then Blocked
      else
        var e := s.log[sub.receiver];
        Yield(e, Deliver(sub.(receiver := sub.receiver + 1, viewAt := sub.receiver + 1), e))
  }

  predicate TakesSnapshot(s: Store, sub: Sub) {
    sub.phase == NeedSnapshot && !sub.awaitingReady && s.ready
  }

  /** A snapshot, if the next turn takes one, lists what the lock shows now. */
  ghost predicate SnapshotOk(s: Store, sub: Sub, items: seq<Object>) {
    TakesSnapshot(s, sub) ==> Enumerates(items, s.objects)
  }

  /** What is still to come from the snapshot the subscriber is replaying. */
  function Unreplayed(sub: Sub): seq<Event> {
    match sub.phase
    case SendInit => [Init] + InitApplies(sub.initial) + [InitDone]
    case SendInitApply =>
      (if sub.initialIndex <= |sub.initial| then InitApplies(sub.initial[sub.initialIndex..]) else []) + [InitDone]
    case SendInitDone => [InitDone]
    case _ => []
  }

  function InitApplies(items: seq<Object>): (r: seq<Event>)
    ensures |r| == |items|
    ensures forall i :: 0 <= i < |r| ==> r[i] == InitApply(items[i])
  {
    seq(|items|, i requires 0 <= i < |items| => InitApply(items[i]))
  }

  // ------------------------------------------------------------------ folding facts

  lemma FoldPush(view: View, events: seq<Event>, e: Event)
    ensures Fold(view, events + [e]) == FoldEvent(Fold(view, events), e)
  {
    assert (events + [e])[..|events|] == events;
  }

  lemma {:induction false} FoldConcat(view: View, a: seq<Event>, b: seq<Event>)
    ensures Fold(view, a + b) == Fold(Fold(view, a), b)
  {
    if b == [] {
      assert a + b == a;
    } else {
      var b' := b[..|b| - 1];
      assert a + b == (a + b') + [b[|b| - 1]];
      FoldPush(view, a + b', b[|b| - 1]);
      FoldConcat(view, a, b');
    }
  }

  ghost predicate KeyedByIdentity(view: View) {
    forall k :: k in view ==> ObjectKey(view[k]) == k
  }

  lemma {:induction false} FoldKeepsKeys(view: View, events: seq<Event>)
    requires KeyedByIdentity(view)
    ensures KeyedByIdentity(Fold(view, events))
  {
    if events == [] {
    } else {
      FoldKeepsKeys(view, events[..|events| - 1]);
    }
  }

  lemma {:induction false} FoldInitApplies(items: seq<Object>, view: View, n: nat)
    requires n <= |items|
    requires forall i :: 0 <= i < |items| ==> ObjectKey(items[i]) in view && view[ObjectKey(items[i])] == items[i]
    ensures var m := Fold(map[], InitApplies(items[..n]));
      && (forall i :: 0 <= i < n ==> ObjectKey(items[i]) in m)
      && (forall k :: k in m ==> k in view && m[k] == view[k])
  {
    if n == 0 {
    } else {
      FoldInitApplies(items, view, n - 1);
      assert InitApplies(items[..n]) == InitApplies(items[..n - 1]) + [InitApply(items[n - 1])];
      FoldPush(map[], InitApplies(items[..n - 1]), InitApply(items[n - 1]));
    }
  }

  /** Keys tell objects apart: the namespace holds no slash. */
  lemma KeyIsIdentity(a: Object, b: Object)
    requires Text.Lacks(a.namespace, '/') && Text.Lacks(b.namespace, '/')
    ensures ObjectKey(a) == ObjectKey(b) <==> a.namespace == b.namespace && a.name == b.name
  {
    Text.SplitOnceAt(a.namespace, '/', a.name);
    Text.SplitOnceAt(b.namespace, '/', b.name);
  }

  /** The event speaks of the key: it is about its object, or about all of them. */
  predicate Settles(e: Event, key: string) { e.Init? || (!e.InitDone? && ObjectKey(e.about) == key) }

  /** The last event that speaks of a key puts this object there. */
  ghost predicate IsLastWord(events: seq<Event>, key: string, o: Object) {
    exists i :: 0 <= i < |events| && (events[i] == Apply(o) || events[i] == InitApply(o)) && ObjectKey(o) == key
      && forall j :: i < j < |events| ==> !Settles(events[j], key)
  }

  lemma LastWordPush(front: seq<Event>, e: Event, key: string, o: Object)
    ensures IsLastWord(front + [e], key, o)
       <==> if Settles(e, key) then (e == Apply(o) || e == InitApply(o)) && ObjectKey(o) == key
            else IsLastWord(front, key, o)
  {
    var events := front + [e];
    assert events[|front|] == e;
    if IsLastWord(front, key, o) && !Settles(e, key) {
      var i :| 0 <= i < |front| && (front[i] == Apply(o) || front[i] == InitApply(o)) && ObjectKey(o) == key
        && forall j :: i < j < |front| ==> !Settles(front[j], key);
      assert events[i] == front[i];
    }
    if IsLastWord(events, key, o) {
      var i :| 0 <= i < |events| && (events[i] == Apply(o) || events[i] == InitApply(o)) && ObjectKey(o) == key
        && forall j :: i < j < |events| ==> !Settles(events[j], key);
      if i < |front| {
        assert front[i] == events[i];
        forall j | i < j < |front| ensures !Settles(front[j], key) {
          assert front[j] == events[j];
        }
      }
    }
  }

  /** A map built from events holds exactly what the last word on each key put there: an
      object that was deleted, or that a new list did not mention, is gone, and every other
      object is the one last seen. */
  lemma {:induction false} MapIsLastWord(events: seq<Event>, key: string, o: Object)
    ensures key in Fold(map[], events) && Fold(map[], events)[key] == o <==> IsLastWord(events, key, o)
  {
    hide IsLastWord, ObjectKey;
    if events == [] {
      NoLastWord(key, o);
    } else {
      var n := |events| - 1;
      MapIsLastWord(events[..n], key, o);
      LastWordPush(events[..n], events[n], key, o);
      assert events[..n] + [events[n]] == events;
    }
  }

  lemma NoLastWord(key: string, o: Object)
    ensures !IsLastWord([], key, o)
  {
  }

  /** Replaying a snapshot rebuilds the view it lists. */
  lemma SnapshotRebuilds(items: seq<Object>, view: View)
    requires Enumerates(items, view) && KeyedByIdentity(view)
    ensures Fold(map[], InitApplies(items)) == view
  {
    FoldInitApplies(items, view, |items|);
    assert items[..|items|] == items;
    var m := Fold(map[], InitApplies(items));
    forall k | k in view ensures k in m {
      var i :| 0 <= i < |items| && items[i] == view[k];
    }
  }

  // --------------------------------------------------------------------- invariants

  ghost predicate StoreOk(s: Store) {
    s.objects == StoreAt(s.log, |s.log|)
  }

  ghost predicate SubOk(s: Store, sub: Sub) {
    && sub.viewAt <= sub.receiver <= |s.log|
    && (sub.phase in {NeedSnapshot, SendInit, Live} ==> ViewOf(sub) == StoreAt(s.log, sub.viewAt))
    && (sub.phase == Live ==> sub.receiver == sub.viewAt)
    && (sub.phase in {SendInit, SendInitApply, SendInitDone} ==> Enumerates(sub.initial, StoreAt(s.log, sub.receiver)))
    && (sub.phase == SendInit ==> sub.initialIndex == 0)
    && (sub.phase == SendInitApply ==> sub.initialIndex < |sub.initial|)
    && (sub.phase == SendInitDone ==> sub.initialIndex == |sub.initial|)
    && (sub.phase in {SendInitApply, SendInitDone} ==>
          sub.initialIndex <= |sub.initial| && ViewOf(sub) == Fold(map[], InitApplies(sub.initial[..sub.initialIndex])))
    && ReadyOk(s, sub)
  }

  /** The ready flag never has a change the subscriber could sleep through. */
  ghost predicate ReadyOk(s: Store, sub: Sub) {
    && sub.seenReady <= s.readyVersion
    && (sub.awaitingReady ==> sub.phase == NeedSnapshot)
    && (sub.awaitingReady && sub.seenReady == s.readyVersion ==> !s.ready)
  }

  lemma StoreAtIsStable(log: seq<Event>, e: Event, p: nat)
    requires p <= |log|
    ensures StoreAt(log + [e], p) == StoreAt(log, p)
  {
    assert (log + [e])[..p] == log[..p];
  }

  lemma StoreAtGrows(log: seq<Event>, p: nat)
    requires p < |log|
    ensures StoreAt(log, p + 1) == FoldEvent(StoreAt(log, p), log[p])
  {
    assert log[..p + 1] == log[..p] + [log[p]];
    FoldPush(map[], log[..p], log[p]);
  }

  lemma ApplyKeepsStoreOk(s: Store, e: Event)
    requires StoreOk(s)
    ensures StoreOk(ApplyEvent(s, e))
  {
    StoreAtIsStable(s.log, e, |s.log|);
    StoreAtGrows(s.log + [e], |s.log|);
  }

  lemma ApplyKeepsSubOk(s: Store, e: Event, sub: Sub)
    requires SubOk(s, sub)
    ensures SubOk(ApplyEvent(s, e), sub)
  {
    StoreAtIsStable(s.log, e, sub.viewAt);
    StoreAtIsStable(s.log, e, sub.receiver);
  }

  lemma SubscribeIsOk(s: Store)
    ensures SubOk(s, Subscribe(s))
  {
  }

  ghost predicate After(o: Outcome, sub: Sub, sub': Sub) {
    match o
    case Blocked => sub' == sub
    case Continue(next) => sub' == next
    case Yield(_, next) => sub' == next
  }

  lemma SendInitKeepsSubOk(capacity: nat, s: Store, sub: Sub, items: seq<Object>, sub': Sub)
    requires SubOk(s, sub) && sub.phase == SendInit
    requires After(Turn(capacity, s, sub, items), sub, sub')
    ensures SubOk(s, sub')
  {
    FoldPush(map[], sub.delivered, Init);
    assert sub.initial[..0] == [];
  }

  lemma SendInitApplyKeepsSubOk(capacity: nat, s: Store, sub: Sub, items: seq<Object>, sub': Sub)
    requires SubOk(s, sub) && sub.phase == SendInitApply
    requires After(Turn(capacity, s, sub, items), sub, sub')
    ensures SubOk(s, sub')
  {
    var n := sub.initialIndex;
    var e := InitApply(sub.initial[n]);
    FoldPush(map[], sub.delivered, e);
    FoldNextItem(sub.initial, n);
  }

  lemma FoldNextItem(items: seq<Object>, n: nat)
    requires n < |items|
    ensures Fold(map[], InitApplies(items[..n + 1])) == FoldEvent(Fold(map[], InitApplies(items[..n])), InitApply(items[n]))
  {
    assert InitApplies(items[..n + 1]) == InitApplies(items[..n]) + [InitApply(items[n])];
    FoldPush(map[], InitApplies(items[..n]), InitApply(items[n]));
  }

  lemma SnapshotOfLog(log: seq<Event>, p: nat, items: seq<Object>)
    requires p <= |log| && Enumerates(items, StoreAt(log, p))
    ensures Fold(map[], InitApplies(items)) == StoreAt(log, p)
  {
    FoldKeepsKeys(map[], log[..p]);
    SnapshotRebuilds(items, StoreAt(log, p));
  }

  lemma SendInitDoneKeepsSubOk(capacity: nat, s: Store, sub: Sub, items: seq<Object>, sub': Sub)
    requires SubOk(s, sub) && sub.phase == SendInitDone
    requires After(Turn(capacity, s, sub, items), sub, sub')
    ensures SubOk(s, sub')
  {
    FoldPush(map[], sub.delivered, InitDone);
    assert sub.initial[..|sub.initial|] == sub.initial;
    SnapshotOfLog(s.log, sub.receiver, sub.initial);
  }

  lemma TurnKeepsSubOk(capacity: nat, s: Store, sub: Sub, items: seq<Object>, sub': Sub)
    requires StoreOk(s) && SubOk(s, sub) && SnapshotOk(s, sub, items)
    requires After(Turn(capacity, s, sub, items), sub, sub')
    ensures SubOk(s, sub')
  {
    match sub.phase {
      case NeedSnapshot =>
      case SendInit => SendInitKeepsSubOk(capacity, s, sub, items, sub');
      case SendInitApply => SendInitApplyKeepsSubOk(capacity, s, sub, items, sub');
      case SendInitDone => SendInitDoneKeepsSubOk(capacity, s, sub, items, sub');
      case Live =>
        if !Lagged(capacity, s, sub) && sub.receiver < |s.log| {
          FoldPush(map[], sub.delivered, s.log[sub.receiver]);
          StoreAtGrows(s.log, sub.receiver);
        }
    }
  }

  // --------------------------------------------------------------------- whole runs

  datatype State = State(store: Store, subs: seq<Sub>)

  datatype Action =
    | Upstream(event: Event)
    | NewSubscriber
    | TakeTurn(who: nat, items: seq<Object>)

  /** Every interleaving of the writer, new subscribers, and subscribers' turns. */
  ghost predicate Next(capacity: nat, s: State, a: Action, s': State) {
    match a
    case Upstream(e) => s' == s.(store := ApplyEvent(s.store, e))
    case NewSubscriber => s' == s.(subs := s.subs + [Subscribe(s.store)])
    case TakeTurn(i, items) =>
      && i < |s.subs|
      && SnapshotOk(s.store, s.subs[i], items)
      && s'.store == s.store
      && |s'.subs| == |s.subs|
      && After(Turn(capacity, s.store, s.subs[i], items), s.subs[i], s'.subs[i])
      && forall j :: 0 <= j < |s.subs| && j != i ==> s'.subs[j] == s.subs[j]
  }

  ghost predicate IsRun(capacity: nat, states: seq<State>, actions: seq<Action>) {
    && |states| == |actions| + 1
    && states[0] == State(EMPTY_STORE, [])
    && forall i :: 0 <= i < |actions| ==> Next(capacity, states[i], actions[i], states[i + 1])
  }

  ghost predicate Ok(s: State) {
    && StoreOk(s.store)
    && forall i :: 0 <= i < |s.subs| ==> SubOk(s.store, s.subs[i])
  }

  lemma NextKeepsOk(capacity: nat, s: State, a: Action, s': State)
    requires Ok(s) && Next(capacity, s, a, s')
    ensures Ok(s')
  {
    match a {
      case Upstream(e) =>
        ApplyKeepsStoreOk(s.store, e);
        forall i | 0 <= i < |s.subs| ensures SubOk(s'.store, s'.subs[i]) {
          ApplyKeepsSubOk(s.store, e, s.subs[i]);
        }
      case NewSubscriber =>
        SubscribeIsOk(s.store);
      case TakeTurn(i, items) =>
        TurnKeepsSubOk(capacity, s.store, s.subs[i], items, s'.subs[i]);
    }
  }

  lemma {:induction false} RunIsOk(capacity: nat, states: seq<State>, actions: seq<Action>, n: nat)
    requires IsRun(capacity, states, actions) && n < |states|
    ensures Ok(states[n])
  {
    if n == 0 {
    } else {
      RunIsOk(capacity, states, actions, n - 1);
      NextKeepsOk(capacity, states[n - 1], actions[n - 1], states[n]);
    }
  }

  /** In every reachable state, whatever was interleaved: what a subscriber has
      delivered, then the rest of its snapshot, then what its receiver is still to read,
      fold to exactly the shared map. Nothing is lost, doubled or out of order. */
  lemma NothingIsLost(capacity: nat, states: seq<State>, actions: seq<Action>, n: nat, i: nat)
    requires IsRun(capacity, states, actions) && n < |states| && i < |states[n].subs|
    requires states[n].subs[i].phase != NeedSnapshot
    ensures var s, sub := states[n].store, states[n].subs[i];
      && sub.receiver <= |s.log|
      && Fold(map[], sub.delivered + Unreplayed(sub) + s.log[sub.receiver..]) == s.objects
  {
    RunIsOk(capacity, states, actions, n);
    PendingFoldsToStore(states[n].store, states[n].subs[i]);
  }

  lemma PendingFoldsToStore(s: Store, sub: Sub)
    requires StoreOk(s) && SubOk(s, sub) && sub.phase != NeedSnapshot
    ensures Fold(map[], sub.delivered + Unreplayed(sub) + s.log[sub.receiver..]) == s.objects
  {
    ReplayReachesSnapshot(s, sub);
    SuffixFoldsToStore(s, sub.delivered + Unreplayed(sub), sub.receiver);
  }

  lemma SuffixFoldsToStore(s: Store, events: seq<Event>, p: nat)
    requires StoreOk(s) && p <= |s.log| && Fold(map[], events) == StoreAt(s.log, p)
    ensures Fold(map[], events + s.log[p..]) == s.objects
  {
    FoldConcat(map[], events, s.log[p..]);
    FoldConcat(map[], s.log[..p], s.log[p..]);
    assert s.log[..p] + s.log[p..] == s.log == s.log[..|s.log|];
  }

  lemma ReplayReachesSnapshot(s: Store, sub: Sub)
    requires SubOk(s, sub) && sub.phase != NeedSnapshot
    ensures Fold(map[], sub.delivered + Unreplayed(sub)) == StoreAt(s.log, sub.receiver)
  {
    if sub.phase == Live {
      assert sub.delivered + [] == sub.delivered;
    } else {
      SnapshotOfLog(s.log, sub.receiver, sub.initial);
      FoldConcat(map[], sub.delivered, Unreplayed(sub));
      if sub.phase == SendInit {
        ReplayFromInit(ViewOf(sub), sub.initial);
      } else {
        ReplayFromIndex(sub.initial, sub.initialIndex);
      }
    }
  }

  lemma ReplayFromInit(view: View, items: seq<Object>)
    ensures Fold(view, [Init] + InitApplies(items) + [InitDone]) == Fold(map[], InitApplies(items))
  {
    FoldPush(view, [Init] + InitApplies(items), InitDone);
    FoldConcat(view, [Init], InitApplies(items));
    assert [] + [Init] == [Init];
    FoldPush(view, [], Init);
  }

  lemma ReplayFromIndex(items: seq<Object>, n: nat)
    requires n <= |items|
    ensures Fold(Fold(map[], InitApplies(items[..n])), InitApplies(items[n..]) + [InitDone])
         == Fold(map[], InitApplies(items))
    ensures n == |items| ==> InitApplies(items[n..]) + [InitDone] == [InitDone]
  {
    FoldPush(Fold(map[], InitApplies(items[..n])), InitApplies(items[n..]), InitDone);
    assert InitApplies(items) == InitApplies(items[..n]) + InitApplies(items[n..]);
    FoldConcat(map[], InitApplies(items[..n]), InitApplies(items[n..]));
  }

  /** A subscriber that has nothing to do has missed nothing: either a relist is in
      progress, or its consumer's map is the shared map. */
  lemma BlockedMeansCurrent(capacity: nat, states: seq<State>, actions: seq<Action>, n: nat, i: nat, items: seq<Object>)
    requires IsRun(capacity, states, actions) && n < |states| && i < |states[n].subs|
    requires Turn(capacity, states[n].store, states[n].subs[i], items) == Blocked
    ensures var s, sub := states[n].store, states[n].subs[i];
      if sub.phase == Live then ViewOf(sub) == s.objects else sub.phase == NeedSnapshot && !s.ready
  {
    RunIsOk(capacity, states, actions, n);
    BlockedIsCurrent(capacity, states[n].store, states[n].subs[i], items);
  }

  lemma BlockedIsCurrent(capacity: nat, s: Store, sub: Sub, items: seq<Object>)
    requires StoreOk(s) && SubOk(s, sub) && Turn(capacity, s, sub, items).Blocked?
    ensures if sub.phase == Live then ViewOf(sub) == s.objects else sub.phase == NeedSnapshot && !s.ready
  {
  }

  ghost predicate Advances(s: Store, sub: Sub, s': Store, sub': Sub) {
    && s.log <= s'.log
    && sub.delivered <= sub'.delivered
    && sub.viewAt <= sub'.viewAt
  }

  lemma NextAdvances(capacity: nat, s: State, a: Action, s': State, i: nat)
    requires Ok(s) && Next(capacity, s, a, s') && i < |s.subs|
    ensures i < |s'.subs| && Advances(s.store, s.subs[i], s'.store, s'.subs[i])
  {
  }

  /** In every reachable state an object is in the shared map exactly if the last event about
      it, or about all objects, put it there. */
  lemma StoreIsLastWord(capacity: nat, states: seq<State>, actions: seq<Action>, n: nat, key: string, o: Object)
    requires IsRun(capacity, states, actions) && n < |states|
    ensures var s := states[n].store;
      key in s.objects && s.objects[key] == o <==> IsLastWord(s.log, key, o)
  {
    RunIsOk(capacity, states, actions, n);
    var log := states[n].store.log;
    MapIsLastWord(log, key, o);
    assert log[..|log|] == log;
  }

  /** And the upstream events are all in the log, in order, and nothing else is. */
  lemma {:induction false} LogIsUpstream(capacity: nat, states: seq<State>, actions: seq<Action>, n: nat)
    requires IsRun(capacity, states, actions) && n < |states|
    ensures states[n].store.log == Upstreams(actions[..n])
    ensures states[n].store.ready <==> IsReady(states[n].store.log)
  {
    if n == 0 {
    } else {
      LogIsUpstream(capacity, states, actions, n - 1);
      assert Next(capacity, states[n - 1], actions[n - 1], states[n]);
      assert actions[..n][..n - 1] == actions[..n - 1];
      if actions[n - 1].Upstream? {
        ReadyPush(states[n - 1].store.log, actions[n - 1].event);
      }
    }
  }

  function Upstreams(actions: seq<Action>): seq<Event> {
    if actions == [] then []
    else
      var a := actions[|actions| - 1];
      Upstreams(actions[..|actions| - 1]) + if a.Upstream? then [a.event] else []
  }

  /** A list has completed, and none has begun since. */
  ghost predicate IsReady(log: seq<Event>) {
    exists i :: 0 <= i < |log| && log[i].InitDone? && forall j :: i < j < |log| ==> !log[j].Init?
  }

  lemma ReadyPush(log: seq<Event>, e: Event)
    ensures IsReady(log + [e]) <==> e.InitDone? || (!e.Init? && IsReady(log))
  {
    var grown := log + [e];
    assert grown[|log|] == e;
    if IsReady(log) && !e.Init? {
      var i :| 0 <= i < |log| && log[i].InitDone? && forall j :: i < j < |log| ==> !log[j].Init?;
      assert grown[i] == log[i];
    }
    if IsReady(grown) {
      var i :| 0 <= i < |grown| && grown[i].InitDone? && forall j :: i < j < |grown| ==> !grown[j].Init?;
      if i < |log| {
        assert log[i] == grown[i];
        forall j | i < j < |log| ensures !log[j].Init? {
          assert log[j] == grown[j];
        }
      }
    }
  }

  /** No rewinding: along a run a subscriber's deliveries only grow, the position its
      consumer's map stands for never decreases across lags, relists and new snapshots,
      and whenever it is live its map is the store at that position. */
  lemma {:induction false} ViewsNeverRewind(capacity: nat, states: seq<State>, actions: seq<Action>, m: nat, n: nat, i: nat)
    requires IsRun(capacity, states, actions) && m <= n < |states| && i < |states[m].subs|
    ensures i < |states[n].subs|
    ensures Advances(states[m].store, states[m].subs[i], states[n].store, states[n].subs[i])
    ensures var s, sub := states[n].store, states[n].subs[i];
      sub.viewAt <= |s.log| && (sub.phase == Live ==> ViewOf(sub) == StoreAt(s.log, sub.viewAt))
  {
    hide Next, Fold;
    RunIsOk(capacity, states, actions, n);
    if m >= n {
    } else {
      ViewsNeverRewind(capacity, states, actions, m, n - 1, i);
      RunIsOk(capacity, states, actions, n - 1);
      NextAdvances(capacity, states[n - 1], actions[n - 1], states[n], i);
    }
  }

  // ------------------------------------------------- what a delivered stream is made of

  /** One completed replay and what followed it: a snapshot of the store at position
      `at` of the log, then the log from `at` up to `upTo`. */
  datatype Session = Session(at: nat, items: seq<Object>, upTo: nat)

  ghost predicate SessionOk(log: seq<Event>, x: Session) {
    x.at <= x.upTo <= |log| && Enumerates(x.items, StoreAt(log, x.at))
  }

  /** Sessions in log order: each starts no earlier than where the one before it ended. */
  ghost predicate SessionsOk(log: seq<Event>, xs: seq<Session>) {
    && (forall i :: 0 <= i < |xs| ==> SessionOk(log, xs[i]))
    && (forall i :: 0 < i < |xs| ==> xs[i - 1].upTo <= xs[i].at)
  }

  function Replay(items: seq<Object>): seq<Event> { [Init] + InitApplies(items) }

  function Slice(log: seq<Event>, p: nat, q: nat): seq<Event> {
    if p <= q <= |log| then log[p..q] else []
  }

  function SessionStream(log: seq<Event>, x: Session): seq<Event> {
    Replay(x.items) + [InitDone] + Slice(log, x.at, x.upTo)
  }

  function StreamOf(log: seq<Event>, xs: seq<Session>): seq<Event> {
    if xs == [] then []
    else StreamOf(log, xs[..|xs| - 1]) + SessionStream(log, xs[|xs| - 1])
  }

  /** Completed sessions, then the part of the replay under way that is delivered. */
  function StreamSoFar(log: seq<Event>, xs: seq<Session>, sub: Sub): seq<Event> {
    if sub.phase in {SendInitApply, SendInitDone} && sub.initialIndex <= |sub.initial|
    then StreamOf(log, xs) + Replay(sub.initial[..sub.initialIndex])
    else StreamOf(log, xs)
  }

  ghost predicate MadeOf(log: seq<Event>, xs: seq<Session>, sub: Sub) {
    && SessionsOk(log, xs)
    && sub.delivered == StreamSoFar(log, xs, sub)
    && sub.viewAt == (if xs == [] then 0 else xs[|xs| - 1].upTo)
    && (sub.phase == Live ==> xs != [])
  }

  lemma {:induction false} StreamOfIsStable(log: seq<Event>, e: Event, xs: seq<Session>)
    requires forall i :: 0 <= i < |xs| ==> xs[i].at <= xs[i].upTo <= |log|
    ensures StreamOf(log + [e], xs) == StreamOf(log, xs)
  {
    if xs == [] {
    } else {
      var x := xs[|xs| - 1];
      StreamOfIsStable(log, e, xs[..|xs| - 1]);
      assert (log + [e])[x.at..x.upTo] == log[x.at..x.upTo];
    }
  }

  lemma SessionsAreStable(log: seq<Event>, e: Event, xs: seq<Session>)
    requires SessionsOk(log, xs)
    ensures SessionsOk(log + [e], xs)
  {
    forall i | 0 <= i < |xs| ensures SessionOk(log + [e], xs[i]) {
      StoreAtIsStable(log, e, xs[i].at);
    }
  }

  lemma StreamOfPush(log: seq<Event>, xs: seq<Session>, x: Session)
    ensures StreamOf(log, xs + [x]) == StreamOf(log, xs) + SessionStream(log, x)
  {
    assert (xs + [x])[..|xs|] == xs;
  }

  lemma SessionsPush(log: seq<Event>, xs: seq<Session>, x: Session)
    requires SessionsOk(log, xs) && SessionOk(log, x)
    requires xs != [] ==> xs[|xs| - 1].upTo <= x.at
    ensures SessionsOk(log, xs + [x])
  {
    var ys := xs + [x];
    assert forall i :: 0 <= i < |xs| ==> ys[i] == xs[i];
    forall i | 0 <= i < |ys| ensures SessionOk(log, ys[i]) {
      assert ys[i] == if i < |xs| then xs[i] else x;
    }
  }

  lemma SessionStarts(log: seq<Event>, xs: seq<Session>, p: nat, items: seq<Object>)
    requires p <= |log|
    ensures StreamOf(log, xs + [Session(p, items, p)]) == (StreamOf(log, xs) + Replay(items)) + [InitDone]
  {
    var x := Session(p, items, p);
    StreamOfPush(log, xs, x);
    assert SessionStream(log, x) == Replay(items) + [InitDone];
    AssocPush(StreamOf(log, xs), Replay(items), InitDone);
  }

  lemma SessionStreamGrows(log: seq<Event>, x: Session)
    requires x.at <= x.upTo < |log|
    ensures SessionStream(log, x.(upTo := x.upTo + 1)) == SessionStream(log, x) + [log[x.upTo]]
  {
    assert log[x.at..x.upTo + 1] == log[x.at..x.upTo] + [log[x.upTo]];
    AssocPush(Replay(x.items) + [InitDone], log[x.at..x.upTo], log[x.upTo]);
  }

  lemma StreamGrows(log: seq<Event>, init: seq<Session>, x: Session)
    requires x.at <= x.upTo < |log|
    ensures StreamOf(log, init + [x.(upTo := x.upTo + 1)]) == StreamOf(log, init + [x]) + [log[x.upTo]]
  {
    StreamOfPush(log, init, x);
    StreamOfPush(log, init, x.(upTo := x.upTo + 1));
    SessionStreamGrows(log, x);
    AssocPush(StreamOf(log, init), SessionStream(log, x), log[x.upTo]);
  }

  lemma SessionGrows(log: seq<Event>, xs: seq<Session>) returns (ys: seq<Session>)
    requires SessionsOk(log, xs) && xs != [] && xs[|xs| - 1].upTo < |log|
    ensures SessionsOk(log, ys) && ys != []
    ensures var p := xs[|xs| - 1].upTo;
      ys[|ys| - 1].upTo == p + 1 && StreamOf(log, ys) == StreamOf(log, xs) + [log[p]]
  {
    var x := xs[|xs| - 1];
    var init := xs[..|xs| - 1];
    assert xs == init + [x];
    StreamGrows(log, init, x);
    ys := init + [x.(upTo := x.upTo + 1)];
    SessionsPush(log, init, x.(upTo := x.upTo + 1));
  }

  lemma ReplayPush(items: seq<Object>, n: nat)
    requires n < |items|
    ensures Replay(items[..n + 1]) == Replay(items[..n]) + [InitApply(items[n])]
  {
  }

  lemma AssocPush(a: seq<Event>, b: seq<Event>, e: Event)
    ensures (a + b) + [e] == a + (b + [e])
  {
  }

  lemma SendInitKeepsMadeOf(log: seq<Event>, xs: seq<Session>, sub: Sub, sub': Sub)
    requires MadeOf(log, xs, sub) && sub.phase == SendInit && sub.initialIndex == 0
    requires sub' == Deliver(sub.(phase := if sub.initial == [] then SendInitDone else SendInitApply), Init)
    ensures MadeOf(log, xs, sub')
  {
    assert sub.initial[..0] == [] && Replay([]) == [Init];
  }

  lemma SendInitApplyKeepsMadeOf(log: seq<Event>, xs: seq<Session>, sub: Sub, sub': Sub)
    requires MadeOf(log, xs, sub) && sub.phase == SendInitApply && sub.initialIndex < |sub.initial|
    requires sub'.phase in {SendInitApply, SendInitDone} && sub'.initial == sub.initial
    requires sub'.initialIndex == sub.initialIndex + 1 && sub'.viewAt == sub.viewAt
    requires sub'.delivered == sub.delivered + [InitApply(sub.initial[sub.initialIndex])]
    ensures MadeOf(log, xs, sub')
  {
    ReplayPush(sub.initial, sub.initialIndex);
    AssocPush(StreamOf(log, xs), Replay(sub.initial[..sub.initialIndex]), InitApply(sub.initial[sub.initialIndex]));
  }

  lemma SendInitDoneKeepsMadeOf(log: seq<Event>, xs: seq<Session>, sub: Sub, sub': Sub) returns (ys: seq<Session>)
    requires MadeOf(log, xs, sub) && sub.phase == SendInitDone && sub.initialIndex == |sub.initial|
    requires sub.viewAt <= sub.receiver <= |log| && Enumerates(sub.initial, StoreAt(log, sub.receiver))
    requires sub' == Deliver(sub.(phase := Live, viewAt := sub.receiver), InitDone)
    ensures MadeOf(log, ys, sub')
  {
    assert sub.initial[..|sub.initial|] == sub.initial;
    var x := Session(sub.receiver, sub.initial, sub.receiver);
    SessionStarts(log, xs, sub.receiver, sub.initial);
    SessionsPush(log, xs, x);
    ys := xs + [x];
  }

  lemma LiveKeepsMadeOf(log: seq<Event>, xs: seq<Session>, sub: Sub, sub': Sub) returns (ys: seq<Session>)
    requires MadeOf(log, xs, sub) && sub.phase == Live && sub.viewAt == sub.receiver < |log|
    requires sub' == Deliver(sub.(receiver := sub.receiver + 1, viewAt := sub.receiver + 1), log[sub.receiver])
    ensures MadeOf(log, ys, sub')
  {
    ys := SessionGrows(log, xs);
  }

  lemma TurnKeepsMadeOf(capacity: nat, s: Store, xs: seq<Session>, sub: Sub, items: seq<Object>, sub': Sub)
      returns (ys: seq<Session>)
    requires SubOk(s, sub) && MadeOf(s.log, xs, sub)
    requires After(Turn(capacity, s, sub, items), sub, sub')
    ensures MadeOf(s.log, ys, sub')
  {
    ys := xs;
    match sub.phase {
      case NeedSnapshot =>
      case SendInit => SendInitKeepsMadeOf(s.log, xs, sub, sub');
      case SendInitApply => SendInitApplyKeepsMadeOf(s.log, xs, sub, sub');
      case SendInitDone => ys := SendInitDoneKeepsMadeOf(s.log, xs, sub, sub');
      case Live =>
        if !Lagged(capacity, s, sub) && sub.receiver < |s.log| {
          ys := LiveKeepsMadeOf(s.log, xs, sub, sub');
        }
    }
  }

  lemma UpstreamKeepsMadeOf(log: seq<Event>, xs: seq<Session>, sub: Sub, e: Event)
    requires MadeOf(log, xs, sub)
    ensures MadeOf(log + [e], xs, sub)
  {
    StreamOfIsStable(log, e, xs);
    SessionsAreStable(log, e, xs);
  }

  /** A subscriber that an action leaves out stays as it was. */
  lemma NextKeepsMadeOf(capacity: nat, s: State, a: Action, s': State, xs: seq<Session>, i: nat)
      returns (ys: seq<Session>)
    requires Ok(s) && Next(capacity, s, a, s') && i < |s.subs| && MadeOf(s.store.log, xs, s.subs[i])
    ensures i < |s'.subs| && MadeOf(s'.store.log, ys, s'.subs[i])
  {
    hide MadeOf, SubOk, StoreOk, Turn;
    ys := xs;
    if a.Upstream? {
      UpstreamKeepsMadeOf(s.store.log, xs, s.subs[i], a.event);
    } else if a.TakeTurn? && a.who == i {
      ys := TurnKeepsMadeOf(capacity, s.store, xs, s.subs[i], a.items, s'.subs[i]);
    }
  }

  lemma NewKeepsMadeOf(capacity: nat, s: State, a: Action, s': State, i: nat)
    requires Next(capacity, s, a, s') && |s.subs| <= i < |s'.subs|
    ensures MadeOf(s'.store.log, [], s'.subs[i])
  {
  }

  /** The shape of every delivered stream in every reachable state: completed sessions,
      each an exact snapshot of the store at some position of the log followed by the
      log from that very position on, sessions in log order, then the replay under way.
      So no event older than a snapshot ever follows it, and none is skipped between a
      snapshot and the last event delivered after it. */
  lemma {:induction false} StreamsAreSessions(capacity: nat, states: seq<State>, actions: seq<Action>, n: nat, i: nat)
      returns (xs: seq<Session>)
    requires IsRun(capacity, states, actions) && n < |states| && i < |states[n].subs|
    ensures MadeOf(states[n].store.log, xs, states[n].subs[i])
  {
    hide MadeOf, Ok, Next;
    xs := [];
    if n == 0 {
    } else {
      var s, a, s' := states[n - 1], actions[n - 1], states[n];
      assert Next(capacity, s, a, s');
      if i < |s.subs| {
        RunIsOk(capacity, states, actions, n - 1);
        xs := StreamsAreSessions(capacity, states, actions, n - 1, i);
        xs := NextKeepsMadeOf(capacity, s, a, s', xs, i);
      } else {
        NewKeepsMadeOf(capacity, s, a, s', i);
      }
    }
  }

  // ------------------------------------------------------------- the stream grammar

  /** Where a stream stands in the grammar
      `(Init InitApply* (InitDone (Apply | Delete)*)?)*`. */
  datatype Mode = Idle | Listing | Following | Broken

  function ModeStep(mode: Mode, e: Event): Mode {
    if mode == Broken then Broken
    else if e.Init? then Listing
    else if e.InitApply? then (if mode == Listing then Listing else Broken)
    else if e.InitDone? then (if mode == Listing then Following else Broken)
    else if mode == Following then Following
    else Broken
  }

  function ModeAfter(events: seq<Event>): Mode {
    if events == [] then Idle
    else ModeStep(ModeAfter(events[..|events| - 1]), events[|events| - 1])
  }

  lemma ModePush(events: seq<Event>, e: Event)
    ensures ModeAfter(events + [e]) == ModeStep(ModeAfter(events), e)
  {
    assert (events + [e])[..|events|] == events;
  }

  lemma {:induction false} PrefixesConform(events: seq<Event>, p: nat)
    requires p <= |events| && ModeAfter(events) != Broken
    ensures ModeAfter(events[..p]) != Broken
  {
    if p < |events| {
      PrefixesConform(events[..|events| - 1], p);
      assert events[..|events| - 1][..p] == events[..p];
    } else {
      assert events[..p] == events;
    }
  }

  /** A watch that breaks and is restarted, each time from a list, still conforms. */
  lemma {:induction false} RestartConforms(a: seq<Event>, b: seq<Event>)
    requires ModeAfter(a) != Broken && ModeAfter(b) != Broken
    ensures ModeAfter(a + b) != Broken
    ensures b != [] ==> ModeAfter(a + b) == ModeAfter(b)
  {
    if b == [] {
      assert a + b == a;
    } else {
      var b' := b[..|b| - 1];
      RestartConforms(a, b');
      assert a + b == (a + b') + [b[|b| - 1]];
      ModePush(a + b', b[|b| - 1]);
    }
  }

  ghost predicate Conforms(s: Store, sub: Sub) {
    && sub.receiver <= |s.log|
    && ModeAfter(sub.delivered) != Broken
    && (sub.phase in {SendInitApply, SendInitDone} ==> ModeAfter(sub.delivered) == Listing)
    && (sub.phase in {SendInit, SendInitApply, SendInitDone} ==> ModeAfter(s.log[..sub.receiver]) == Following)
    && (sub.phase == Live ==> ModeAfter(sub.delivered) == ModeAfter(s.log[..sub.receiver]))
  }

  ghost predicate ReadyTracksLog(s: Store) {
    s.ready <==> ModeAfter(s.log) == Following
  }

  lemma ReplayConforms(capacity: nat, s: Store, sub: Sub, items: seq<Object>, sub': Sub)
    requires Conforms(s, sub) && sub.phase in {SendInit, SendInitApply, SendInitDone}
    requires After(Turn(capacity, s, sub, items), sub, sub')
    ensures Conforms(s, sub')
  {
    ModePush(sub.delivered, Init);
    ModePush(sub.delivered, InitDone);
    if sub.initialIndex < |sub.initial| {
      ModePush(sub.delivered, InitApply(sub.initial[sub.initialIndex]));
    }
  }

  lemma TurnKeepsConforms(capacity: nat, s: Store, sub: Sub, items: seq<Object>, sub': Sub)
    requires Conforms(s, sub) && ReadyTracksLog(s) && ModeAfter(s.log) != Broken
    requires After(Turn(capacity, s, sub, items), sub, sub')
    ensures Conforms(s, sub')
  {
    if sub.phase in {SendInit, SendInitApply, SendInitDone} {
      ReplayConforms(capacity, s, sub, items, sub');
    } else if sub.phase == NeedSnapshot {
      assert s.log[..|s.log|] == s.log;
    } else if !Lagged(capacity, s, sub) && sub.receiver < |s.log| {
      LiveConforms(s.log, sub.receiver, sub.delivered);
    }
  }

  lemma LiveConforms(log: seq<Event>, p: nat, delivered: seq<Event>)
    requires p < |log| && ModeAfter(log) != Broken && ModeAfter(delivered) == ModeAfter(log[..p])
    ensures ModeAfter(delivered + [log[p]]) == ModeAfter(log[..p + 1]) != Broken
  {
    ModePush(delivered, log[p]);
    ModePush(log[..p], log[p]);
    assert log[..p + 1] == log[..p] + [log[p]];
    PrefixesConform(log, p + 1);
  }

  /** Given an upstream that follows the grammar, every subscriber's own stream follows
      it too, at every moment of every run, and the ready flag is set exactly when the
      upstream has completed its latest list. */
  lemma {:induction false} StreamsConform(capacity: nat, states: seq<State>, actions: seq<Action>, n: nat)
    requires IsRun(capacity, states, actions) && n < |states|
    requires ModeAfter(states[n].store.log) != Broken
    ensures ReadyTracksLog(states[n].store)
    ensures forall i :: 0 <= i < |states[n].subs| ==> Conforms(states[n].store, states[n].subs[i])
  {
    if n == 0 {
    } else {
      var s, s' := states[n - 1], states[n];
      var a := actions[n - 1];
      assert Next(capacity, s, a, s');
      if a.Upstream? {
        ModePush(s.store.log, a.event);
      }
      StreamsConform(capacity, states, actions, n - 1);
      RunIsOk(capacity, states, actions, n - 1);
      forall i | 0 <= i < |s'.subs| ensures Conforms(s'.store, s'.subs[i]) {
        if a.Upstream? {
          assert s'.store.log[..s.subs[i].receiver] == s.store.log[..s.subs[i].receiver];
        } else if a.TakeTurn? && a.who == i {
          TurnKeepsConforms(capacity, s.store, s.subs[i], a.items, s'.subs[i]);
        }
      }
    }
  }

  // ------------------------------------------------------------ catching up in bounded turns

  /** How many turns a subscriber can take before it blocks, if the store stands still. */
  function TurnsLeft(capacity: nat, s: Store, sub: Sub): nat {
    var replay := |s.objects| + 2;
    var retry := if s.ready then 1 + replay else if sub.seenReady == s.readyVersion then 1 else 3;
    var follow :=
      if Lagged(capacity, s, sub) then 1 + retry
      else if sub.receiver <= |s.log| then |s.log| - sub.receiver else 0;
    match sub.phase
    case NeedSnapshot =>
      if !sub.awaitingReady then retry
      else if sub.seenReady == s.readyVersion then 0
      else if s.ready then 2 + replay else 2
    case SendInit => |sub.initial| + 2 + follow
    case SendInitApply => (if sub.initialIndex <= |sub.initial| then |sub.initial| - sub.initialIndex else 0) + 1 + follow
    case SendInitDone => 1 + follow
    case Live => follow
  }

  lemma TurnMakesProgress(capacity: nat, s: Store, sub: Sub, items: seq<Object>, sub': Sub)
    requires SubOk(s, sub) && SnapshotOk(s, sub, items)
    requires !Turn(capacity, s, sub, items).Blocked?
    requires After(Turn(capacity, s, sub, items), sub, sub')
    ensures TurnsLeft(capacity, s, sub') < TurnsLeft(capacity, s, sub)
  {
  }

  /** All the turns a subscriber can take while the store stands still. */
  function CatchUp(capacity: nat, s: Store, sub: Sub, items: seq<Object>, fuel: nat): Sub
    decreases fuel
  {
    if fuel == 0 then sub
    else
      match Turn(capacity, s, sub, items)
      case Blocked => sub
      case Continue(next) => CatchUp(capacity, s, next, items, fuel - 1)
      case Yield(_, next) => CatchUp(capacity, s, next, items, fuel - 1)
  }

  lemma CatchUpUnfolds(capacity: nat, s: Store, sub: Sub, items: seq<Object>, fuel: nat)
    ensures Turn(capacity, s, sub, items).Blocked? ==> CatchUp(capacity, s, sub, items, fuel) == sub
    ensures !Turn(capacity, s, sub, items).Blocked? && fuel > 0 ==>
      CatchUp(capacity, s, sub, items, fuel) == CatchUp(capacity, s, Turn(capacity, s, sub, items).sub, items, fuel - 1)
  {
  }

  lemma TurnKeepsGoing(capacity: nat, s: Store, sub: Sub, items: seq<Object>)
    requires StoreOk(s) && SubOk(s, sub) && Enumerates(items, s.objects)
    requires !Turn(capacity, s, sub, items).Blocked?
    ensures var sub' := Turn(capacity, s, sub, items).sub;
      SubOk(s, sub') && TurnsLeft(capacity, s, sub') < TurnsLeft(capacity, s, sub)
  {
    TurnKeepsSubOk(capacity, s, sub, items, Turn(capacity, s, sub, items).sub);
    TurnMakesProgress(capacity, s, sub, items, Turn(capacity, s, sub, items).sub);
  }

  /** From any state it can be in, a subscriber left alone with a ready store becomes
      current within a bounded number of turns. */
  lemma {:induction false} CatchesUp(capacity: nat, s: Store, sub: Sub, items: seq<Object>, fuel: nat)
    requires StoreOk(s) && SubOk(s, sub) && Enumerates(items, s.objects) && s.ready
    requires fuel >= TurnsLeft(capacity, s, sub)
    ensures var sub' := CatchUp(capacity, s, sub, items, fuel);
      sub'.phase == Live && ViewOf(sub') == s.objects
    decreases fuel
  {
    CatchUpUnfolds(capacity, s, sub, items, fuel);
    if Turn(capacity, s, sub, items).Blocked? {
      BlockedIsCurrent(capacity, s, sub, items);
    } else {
      TurnKeepsGoing(capacity, s, sub, items);
      CatchesUp(capacity, s, Turn(capacity, s, sub, items).sub, items, fuel - 1);
    }
  }
}
