/** What an operator can read off the Lease: over every run of the election, and every
    order in which requests land, including those given up on, the record's transition
    count, acquire time and renew time mean what they say. */
module LeaseHistory {
  import opened LeaderElection
  import opened Wrappers

  function OrZero(n: Option<int>): int { if n.Some? then n.value else 0 }

  /** `next` may succeed `prev` as the lease's record. */
  ghost predicate Follows(prev: Record, next: Record) {
    && next.renewTime.Some?
    && (prev.renewTime.Some? ==> prev.renewTime.value <= next.renewTime.value)
    && next.transitions == Some(OrZero(prev.transitions) + if prev.holder == next.holder then 0 else 1)
    && next.acquireTime == if prev.holder == next.holder && prev.acquireTime.Some? then prev.acquireTime else next.renewTime
  }

  ghost predicate IsLineage(records: seq<Record>) {
    forall k :: 0 < k < |records| ==> Follows(records[k - 1], records[k])
  }

  /** The records so far, starting from `first`, the record that existed before the run,
      or from a creation. */
  ghost predicate LineageOk(first: Option<Record>, s: State) {
    && (s.server.lease.Some? <==> s.lineage != [])
    && (s.lineage != [] ==> s.server.lease == Some(s.lineage[|s.lineage| - 1]))
    && (first.Some? ==> s.lineage != [] && s.lineage[0] == first.value)
    && (first.None? && s.lineage != [] ==>
          s.lineage[0].transitions == Some(1)
          && s.lineage[0].renewTime.Some? && s.lineage[0].acquireTime == s.lineage[0].renewTime)
    && IsLineage(s.lineage)
  }

  ghost predicate Unheld(r: Record) { r.holder == None || r.holder == Some("") }

  /** Nothing but the initial record is unheld, and every clock reading is later. */
  ghost predicate SinceStart(t0: real, s: State) {
    && t0 <= s.now
    && (forall i :: 0 <= i < |s.replicas| && s.replicas[i].Active? ==> t0 <= s.replicas[i].started)
    && (forall q :: InFlight(s, q) ==> t0 <= q.startedAt)
    && (s.server.lease.Some? && Unheld(s.server.lease.value) && s.server.lease.value.renewTime.Some? ==>
          s.server.lease.value.renewTime.value <= t0)
  }

  lemma LandingFollows(w: World, t0: real, s: State, q: Request)
    requires Configured(w) && RequestOk(w, s, q) && Accepts(s.server, q) && t0 <= q.startedAt
    requires SinceStart(t0, s) && s.server.lease.Some?
    ensures Follows(s.server.lease.value, q.record) && !Unheld(q.record)
  {
    assert w.ids[q.owner] != "";
  }

  lemma LandingKeepsLineage(w: World, first: Option<Record>, t0: real, s: State, q: Request)
    requires Configured(w) && RequestOk(w, s, q) && t0 <= q.startedAt
    requires SinceStart(t0, s) && LineageOk(first, s)
    ensures LineageOk(first, LandIn(s, q))
  {
    if Accepts(s.server, q) && s.server.lease.Some? {
      LandingFollows(w, t0, s, q);
    }
  }

  lemma StepKeepsSinceStart(w: World, t0: real, s: State, a: Action, s': State)
    requires Configured(w) && Inv(w, s) && SinceStart(t0, s) && Step(w, s, a) == Some(s')
    ensures SinceStart(t0, s')
  {
    if !a.Tick? && !a.LandOrphan? {
      assert ReplicaOk(w, s, a.i);
    }
    forall q | InFlight(s', q) ensures t0 <= q.startedAt {
    }
    if a.LandOwn? {
      LandedIsHeld(w, s, s.replicas[a.i].activity.request);
    } else if a.LandOrphan? {
      LandedIsHeld(w, s, a.w);
    }
  }

  lemma LandedIsHeld(w: World, s: State, q: Request)
    requires Configured(w) && Inv(w, s) && InFlight(s, q)
    ensures !Unheld(q.record)
  {
    assert RequestOk(w, s, q);
    assert w.ids[q.owner] != "";
  }

  lemma StepKeepsLineage(w: World, first: Option<Record>, t0: real, s: State, a: Action, s': State)
    requires Configured(w) && Inv(w, s) && SinceStart(t0, s) && LineageOk(first, s) && Step(w, s, a) == Some(s')
    ensures LineageOk(first, s')
  {
    if a.LandOwn? {
      var q := s.replicas[a.i].activity.request;
      assert ReplicaOk(w, s, a.i);
      assert InFlight(s, q);
      LandingKeepsLineage(w, first, t0, s, q);
    } else if a.LandOrphan? {
      assert InFlight(s, a.w);
      LandingKeepsLineage(w, first, t0, s.(orphans := s.orphans - {a.w}), a.w);
    }
  }

  lemma FirstKeepsLineage(w: World, s: State)
    requires Initial(w, s)
    ensures LineageOk(s.server.lease, s)
  {
  }

  lemma {:induction false} RunKeepsLineage(w: World, states: seq<State>, actions: seq<Action>, n: nat)
    requires Configured(w) && IsRun(w, states, actions) && n < |states|
    ensures LineageOk(states[0].server.lease, states[n]) && SinceStart(states[0].now, states[n])
    ensures states[0].lineage <= states[n].lineage
  {
    hide LineageOk, Inv, Step;
    if n == 0 {
      FirstKeepsLineage(w, states[0]);
    } else {
      RunKeepsLineage(w, states, actions, n - 1);
      RunKeepsInv(w, states, actions, n - 1);
      var s, a := states[n - 1], actions[n - 1];
      StepKeepsSinceStart(w, states[0].now, s, a, states[n]);
      StepKeepsLineage(w, states[0].server.lease, states[0].now, s, a, states[n]);
    }
  }

  // ---------------------------------------------------------------- reading a lineage

  /** How often the holder changed from one record to the next. */
  function HolderChanges(records: seq<Record>): nat {
    if |records| <= 1 then 0
    else
      var n := |records| - 1;
      HolderChanges(records[..n]) + if records[n - 1].holder == records[n].holder then 0 else 1
  }

  lemma {:induction false} TransitionsCountChanges(records: seq<Record>, k: nat)
    requires IsLineage(records) && k < |records|
    ensures OrZero(records[k].transitions) == OrZero(records[0].transitions) + HolderChanges(records[..k + 1])
  {
    if k == 0 {
    } else {
      TransitionsCountChanges(records, k - 1);
      assert records[..k + 1][..k] == records[..k];
      assert Follows(records[k - 1], records[k]);
    }
  }

  lemma {:induction false} RenewTimesAscend(records: seq<Record>, j: nat, k: nat)
    requires IsLineage(records) && 0 < j <= k < |records|
    ensures records[j].renewTime.Some? && records[k].renewTime.Some?
    ensures records[j].renewTime.value <= records[k].renewTime.value
  {
    assert Follows(records[k - 1], records[k]);
    if j >= k {
    } else {
      RenewTimesAscend(records, j, k - 1);
    }
  }

  lemma {:induction false} TermKeepsAcquireTime(records: seq<Record>, j: nat, k: nat)
    requires IsLineage(records) && j <= k < |records|
    requires forall i :: j < i <= k ==> records[i - 1].holder == records[i].holder
    requires records[j].acquireTime.Some?
    ensures records[k].acquireTime == records[j].acquireTime
  {
    if j >= k {
    } else {
      TermKeepsAcquireTime(records, j, k - 1);
      assert Follows(records[k - 1], records[k]);
    }
  }

  /** Over every run from a cluster without the lease, and every interleaving of the
      requests that create and replace it: the transition count of each record is the
      number of writes that changed the holder, creation counting as one; renew times
      never decrease; and all records of one term carry the acquire time of its first. */
  lemma LeaseTellsTheTruth(w: World, states: seq<State>, actions: seq<Action>, n: nat, j: nat, k: nat)
    requires Configured(w) && IsRun(w, states, actions) && n < |states|
    requires states[0].server.lease.None?
    requires j <= k < |states[n].lineage|
    ensures var l := states[n].lineage;
      && l[k].transitions == Some(1 + HolderChanges(l[..k + 1]))
      && l[j].renewTime.Some? && l[k].renewTime.Some? && l[j].renewTime.value <= l[k].renewTime.value
      && ((forall i :: j < i <= k ==> l[i - 1].holder == l[i].holder) ==> l[k].acquireTime == l[j].acquireTime)
  {
    RunKeepsLineage(w, states, actions, n);
    var l := states[n].lineage;
    TransitionsCountChanges(l, k);
    if k > 0 {
      assert Follows(l[k - 1], l[k]);
      if j == 0 {
        assert Follows(l[0], l[1]);
        RenewTimesAscend(l, 1, k);
      } else {
        RenewTimesAscend(l, j, k);
      }
    }
    if j > 0 {
      assert Follows(l[j - 1], l[j]);
    }
    if forall i :: j < i <= k ==> l[i - 1].holder == l[i].holder {
      TermKeepsAcquireTime(l, j, k);
    }
  }
}
