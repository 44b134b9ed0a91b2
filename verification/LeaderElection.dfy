/** Leader election over a Lease: N replicas read, decide and compare-and-swap one
    versioned record, each with its own timers.

    Time is in seconds and common to all replicas; a sleep or a timeout ends up to `slack`
    late. The apiserver is one atomic record. A request that was given up on may still land
    later. */
module LeaderElection {
  import opened Wrappers

  // ------------------------------------------------------------------ configuration

  datatype Config = Config(enabled: bool, leaseDuration: real, renewDeadline: real, retryPeriod: real)

  datatype Verdict = Valid | DeadlineNotBeforeLease | RetryNotBeforeDeadline

  function Validate(c: Config): Verdict {
    if !c.enabled then Valid
    else if c.renewDeadline >= c.leaseDuration then DeadlineNotBeforeLease
    else if c.retryPeriod >= c.renewDeadline then RetryNotBeforeDeadline
    else Valid
  }

  /** The lease as takeover measures it: whole seconds only. */
  function LeaseSeconds(c: Config): real { c.leaseDuration.Floor as real }

  function Longest(a: real, b: real): real { if a < b then b else a }

  /** What a configuration passes with: retry period, renew deadline and lease in ascending
      order, or the election switched off. */
  lemma ValidMeans(c: Config)
    ensures Validate(c) == Valid <==> !c.enabled || c.retryPeriod < c.renewDeadline < c.leaseDuration
    ensures Validate(c) == DeadlineNotBeforeLease <==> c.enabled && c.leaseDuration <= c.renewDeadline
  {
  }

  /** The fraction of a second is cut off. */
  lemma LeaseSecondsAreWhole(c: Config)
    ensures LeaseSeconds(c) <= c.leaseDuration < LeaseSeconds(c) + 1.0
    ensures LeaseSeconds(c) == LeaseSeconds(c).Floor as real
  {
  }

  // ------------------------------------------------------------- one attempt's decision

  datatype Record = Record(
    holder: Option<string>,
    renewTime: Option<real>,
    acquireTime: Option<real>,
    transitions: Option<int>)

  function MayAcquire(holder: Option<string>, renewedAt: Option<real>, leaseSeconds: real, now: real, me: string): bool {
    if holder == None || holder == Some("") then true
    else if holder == Some(me) then true
    else if renewedAt == None then true
    else now > renewedAt.value + leaseSeconds
  }

  /** What an attempt that read `observed` writes back; nothing if it may not acquire. */
  function Decide(leaseSeconds: real, me: string, now: real, observed: Option<Record>): Option<Record> {
    match observed
    case None => Some(Record(Some(me), Some(now), Some(now), Some(1)))
    case Some(existing) =>
      if !MayAcquire(existing.holder, existing.renewTime, leaseSeconds, now, me) then None
      else
        var mine := existing.holder == Some(me);
        var transitions := (if existing.transitions.Some? then existing.transitions.value else 0) + if mine then 0 else 1;
        var acquiredAt := if mine && existing.acquireTime.Some? then existing.acquireTime.value else now;
        Some(Record(Some(me), Some(now), Some(acquiredAt), Some(transitions)))
  }

  ghost predicate IsFree(existing: Record) { existing.holder == None || existing.holder == Some("") }

  /** A lease is taken at once if there is none or nobody holds it, and renewed at any time by
      its holder. Another's is taken only if its renew time is not known, or more than the
      whole seconds of the lease ago. */
  lemma TakesExactlyWhen(leaseSeconds: real, me: string, now: real, observed: Option<Record>)
    ensures Decide(leaseSeconds, me, now, observed).Some? <==>
      || observed.None? || IsFree(observed.value) || observed.value.holder == Some(me)
      || observed.value.renewTime.None? || now - observed.value.renewTime.value > leaseSeconds
    ensures Decide(leaseSeconds, me, now, observed).Some? ==>
      var r := Decide(leaseSeconds, me, now, observed).value; r.holder == Some(me) && r.renewTime == Some(now)
  {
  }

  // -------------------------------------------------------------------- the apiserver

  datatype Server = Server(lease: Option<Record>, version: nat)

  /** A request on its way to the apiserver: a create, or a replace that carries the
      version it read. `basis`, `owner` and `startedAt` are history: the record read, the
      replica that sent it, and its clock reading. */
  datatype Request = Request(
    expected: Option<nat>,
    record: Record,
    basis: Option<Record>,
    owner: nat,
    startedAt: real)

  predicate Accepts(server: Server, w: Request) {
    match w.expected
    case None => server.lease.None?
    case Some(version) => server.lease.Some? && server.version == version
  }

  function Land(server: Server, w: Request): Server {
    if Accepts(server, w) then Server(Some(w.record), server.version + 1) else server
  }

  function MakeRequest(server: Server, record: Record, owner: nat, startedAt: real): Request {
    Request(if server.lease.None? then None else Some(server.version), record, server.lease, owner, startedAt)
  }

  // --------------------------------------------------------------------- one replica

  /** A leader remembers when its last successful attempt returned; `acked` is history:
      the renew time that attempt wrote. */
  datatype Role = Acquiring | Leading(lastSuccess: real, acked: real)

  datatype Activity =
    | Sleeping(until: real)
    | Reading
    | Writing(request: Request)
    | Answered(ok: bool)

  /** `started` is the clock reading of the current or latest attempt. */
  datatype Replica = NotStarted | Stopped | Active(role: Role, activity: Activity, started: real)

  predicate Working(r: Replica) { r.Active? && r.role.Leading? }

  datatype AttemptResult = Won | Lost | Failed

  /** The renewal loop after one attempt: the new last success, or none to stop. */
  function AfterRenewal(c: Config, lastSuccess: real, now: real, result: AttemptResult): Option<real> {
    match result
    case Lost => None
    case Won => if 0.0 >= c.renewDeadline then None else Some(now)
    case Failed => if now - lastSuccess >= c.renewDeadline then None else Some(lastSuccess)
  }

  function AfterAttempt(c: Config, r: Replica, now: real, result: AttemptResult): Replica
    requires r.Active?
  {
    match r.role
    case Acquiring =>
      var role := if result == Won then Leading(now, r.started) else Acquiring;
      r.(role := role, activity := Sleeping(now + c.retryPeriod))
    case Leading(lastSuccess, acked) =>
      match AfterRenewal(c, lastSuccess, now, result)
      case None => Stopped
      case Some(success) =>
        r.(role := Leading(success, if result == Won then r.started else acked),
           activity := Sleeping(now + c.retryPeriod))
  }

  // ------------------------------------------------------------------- all of them

  /** `orphans` are the requests given up on that may still land; `lineage` is every
      record the lease has held, oldest first. */
  datatype State = State(now: real, server: Server, replicas: seq<Replica>, orphans: set<Request>, lineage: seq<Record>)

  datatype Action =
    | Tick(to: real)
    | Start(i: nat)
    | Wake(i: nat)
    | Read(i: nat)
    | LandOwn(i: nat)
    | Respond(i: nat)
    | Fail(i: nat)
    | Quit(i: nat)
    | LandOrphan(w: Request)

  /** `firstBound` bounds an attempt to acquire, which the program itself does not cut off,
      and `slack` how late a timer can be. */
  datatype World = World(config: Config, ids: seq<string>, firstBound: real, slack: real) {
    ghost predicate Ok() {
      && 0.0 <= config.retryPeriod
      && 0.0 <= slack
      && 0.0 <= firstBound
      && (forall i :: 0 <= i < |ids| ==> ids[i] != "")
      && (forall i, j :: 0 <= i < j < |ids| ==> ids[i] != ids[j])
    }
  }

  /** The longest a sleep or a renewal attempt of one retry period can take. */
  function Pause(w: World): real { w.config.retryPeriod + w.slack }

  /** The instant by which a replica acts: the end of its sleep, or of its attempt. */
  function ActsBy(w: World, r: Replica): Option<real> {
    if !r.Active? then None
    else if r.activity.Sleeping? then Some(r.activity.until + w.slack)
    else Some(r.started + if r.role.Leading? then Pause(w) else w.firstBound)
  }

  function LandIn(s: State, w: Request): State {
    s.(server := Land(s.server, w), lineage := if Accepts(s.server, w) then s.lineage + [w.record] else s.lineage)
  }

  /** Giving up on an attempt abandons the request it has in flight, if any. */
  function Abandoned(s: State, r: Replica): set<Request> {
    if r.Active? && r.activity.Writing? then s.orphans + {r.activity.request} else s.orphans
  }

  predicate MayTick(w: World, s: State, to: real) {
    && s.now <= to
    && forall i :: 0 <= i < |s.replicas| ==>
         var limit := ActsBy(w, s.replicas[i]); limit.Some? ==> to <= limit.value
  }

  function ReadStep(w: World, s: State, i: nat): State
    requires i < |s.replicas| && s.replicas[i].Active? && i < |w.ids|
  {
    var r := s.replicas[i];
    var activity :=
      match Decide(LeaseSeconds(w.config), w.ids[i], r.started, s.server.lease)
      case None => Answered(false)
      case Some(record) => Writing(MakeRequest(s.server, record, i, r.started));
    s.(replicas := s.replicas[i := r.(activity := activity)])
  }

  /** The state after an action, or none if it cannot happen in this state. */
  function Step(w: World, s: State, a: Action): Option<State> {
    if a.Tick? then
      if MayTick(w, s, a.to) then Some(s.(now := a.to)) else None
    else if a.LandOrphan? then
      if a.w in s.orphans then Some(LandIn(s.(orphans := s.orphans - {a.w}), a.w)) else None
    else if a.i >= |s.replicas| || a.i >= |w.ids| then None
    else
      var r := s.replicas[a.i];
      match a
      case Start(i) =>
        if r.NotStarted? then Some(s.(replicas := s.replicas[i := Active(Acquiring, Reading, s.now)])) else None
      case Wake(i) =>
        if r.Active? && r.activity.Sleeping? && r.activity.until <= s.now
        then Some(s.(replicas := s.replicas[i := r.(activity := Reading, started := s.now)])) else None
      case Read(i) =>
        if r.Active? && r.activity.Reading? then Some(ReadStep(w, s, i)) else None
      case LandOwn(i) =>
        if r.Active? && r.activity.Writing?
        then
          var ok := Accepts(s.server, r.activity.request);
          Some(LandIn(s, r.activity.request).(replicas := s.replicas[i := r.(activity := Answered(ok))]))
        else None
      case Respond(i) =>
        if r.Active? && r.activity.Answered?
        then
          var result := if r.activity.ok then Won else Lost;
          Some(s.(replicas := s.replicas[i := AfterAttempt(w.config, r, s.now, result)]))
        else None
      case Fail(i) =>
        if r.Active? && !r.activity.Sleeping?
        then Some(s.(replicas := s.replicas[i := AfterAttempt(w.config, r, s.now, Failed)], orphans := Abandoned(s, r)))
        else None
      case Quit(i) =>
        Some(s.(replicas := s.replicas[i := Stopped], orphans := Abandoned(s, r)))
  }

  /** Nobody has started. The lease may already exist, written by anyone before now. */
  ghost predicate Initial(w: World, s: State) {
    && |s.replicas| == |w.ids|
    && (forall i :: 0 <= i < |s.replicas| ==> s.replicas[i].NotStarted?)
    && s.orphans == {}
    && s.lineage == (if s.server.lease.Some? then [s.server.lease.value] else [])
    && (s.server.lease.Some? && s.server.lease.value.renewTime.Some? ==> s.server.lease.value.renewTime.value <= s.now)
  }

  ghost predicate IsRun(w: World, states: seq<State>, actions: seq<Action>) {
    && |states| == |actions| + 1
    && Initial(w, states[0])
    && forall k :: 0 <= k < |actions| ==> Step(w, states[k], actions[k]) == Some(states[k + 1])
  }

  // ---------------------------------------------------------------------- invariants

  ghost predicate InFlight(s: State, q: Request) {
    || q in s.orphans
    || (q.owner < |s.replicas| && s.replicas[q.owner].Active? && s.replicas[q.owner].activity == Writing(q))
  }

  /** A request is what its owner decided on the record it read, and while that record
      is still current it can land. */
  ghost predicate RequestOk(w: World, s: State, q: Request) {
    && q.owner < |w.ids|
    && q.startedAt <= s.now
    && Decide(LeaseSeconds(w.config), w.ids[q.owner], q.startedAt, q.basis) == Some(q.record)
    && (q.expected.Some? <==> q.basis.Some?)
    && (q.expected.Some? ==> q.expected.value <= s.server.version)
    && (Accepts(s.server, q) ==> s.server.lease == q.basis)
    && (q.basis.Some? && q.basis.value.holder == Some(w.ids[q.owner]) && q.basis.value.renewTime.Some? ==>
          q.basis.value.renewTime.value <= q.startedAt)
  }

  /** The lease is still this replica's, renewed no earlier than `t`; or the lease taken
      at `t` has run out. */
  ghost predicate HeldOrExpired(w: World, s: State, i: nat, t: real)
    requires i < |w.ids|
  {
    || (&& s.server.lease.Some?
        && s.server.lease.value.holder == Some(w.ids[i])
        && s.server.lease.value.renewTime.Some?
        && t <= s.server.lease.value.renewTime.value)
    || s.now > t + LeaseSeconds(w.config)
  }

  /** The timers of one replica. */
  ghost predicate TimersOk(w: World, s: State, r: Replica) {
    r.Active? ==>
      && r.started <= s.now
      && (match r.activity
          case Sleeping(until) => s.now <= until + w.slack
          case _ => s.now <= r.started + if r.role.Leading? then Pause(w) else w.firstBound)
      && (r.role.Leading? ==>
            var c := w.config;
            && r.role.acked <= r.role.lastSuccess <= r.role.acked + Longest(w.firstBound, Pause(w))
            && r.role.acked <= r.started
            && (match r.activity
                case Sleeping(until) => until < r.role.lastSuccess + c.renewDeadline + c.retryPeriod
                case _ => r.started < r.role.lastSuccess + c.renewDeadline + Pause(w)))
      && (r.activity.Writing? ==> r.activity.request.startedAt == r.started)
  }

  /** What a replica may believe about the lease. */
  ghost predicate ClaimOk(w: World, s: State, i: nat)
    requires i < |w.ids| && i < |s.replicas|
  {
    var r := s.replicas[i];
    r.Active? ==>
      && (r.role.Leading? ==> HeldOrExpired(w, s, i, r.role.acked))
      && (r.activity == Answered(true) ==> HeldOrExpired(w, s, i, r.started))
      && (r.activity.Writing? ==> r.activity.request.owner == i)
  }

  /** A request is no newer than its owner's latest attempt, and one that could still
      land is no older than what its owner has claimed. */
  ghost predicate FreshOk(s: State, q: Request) {
    q.owner < |s.replicas| &&
    var r := s.replicas[q.owner];
    && !r.NotStarted?
    && (r.Active? ==> q.startedAt <= r.started)
    && (r.Active? && Accepts(s.server, q) ==>
          (r.role.Leading? ==> r.role.acked <= q.startedAt) && r.activity != Answered(true))
  }

  /** A record in this replica's name was written by one of its own past attempts. */
  ghost predicate LeaseOk(w: World, s: State, i: nat)
    requires i < |w.ids| && i < |s.replicas|
  {
    s.server.lease.Some? && s.server.lease.value.holder == Some(w.ids[i]) && s.server.lease.value.renewTime.Some? ==>
      var t := s.server.lease.value.renewTime.value;
      t <= s.now && (s.replicas[i].Active? ==> t <= s.replicas[i].started)
  }

  ghost predicate ReplicaOk(w: World, s: State, i: nat)
    requires i < |w.ids| && i < |s.replicas|
  {
    TimersOk(w, s, s.replicas[i]) && ClaimOk(w, s, i) && LeaseOk(w, s, i)
  }

  ghost predicate Inv(w: World, s: State) {
    && |s.replicas| == |w.ids|
    && (forall i :: 0 <= i < |s.replicas| ==> ReplicaOk(w, s, i))
    && (forall q :: InFlight(s, q) ==> RequestOk(w, s, q) && FreshOk(s, q))
  }

  /** A configuration that passes validation, with the election switched on. */
  ghost predicate Configured(w: World) {
    w.Ok() && w.config.enabled && Validate(w.config) == Valid
  }

  lemma TickKeepsInv(w: World, s: State, to: real, s': State)
    requires Configured(w) && Inv(w, s) && Step(w, s, Tick(to)) == Some(s')
    ensures Inv(w, s')
  {
    forall i | 0 <= i < |s.replicas| ensures ReplicaOk(w, s', i) {
      assert ReplicaOk(w, s, i);
      var limit := ActsBy(w, s.replicas[i]);
      assert limit.Some? ==> to <= limit.value;
    }
    forall q | InFlight(s', q) ensures RequestOk(w, s', q) && FreshOk(s', q) {
      assert InFlight(s, q);
    }
  }

  /** A replica's own change of activity or role, with the server and the clock still. */
  lemma ReplicaChangeKeepsInv(w: World, s: State, i: nat, r': Replica, s': State)
    requires Inv(w, s) && i < |s.replicas|
    requires s'.now == s.now && s'.server == s.server && s'.replicas == s.replicas[i := r']
    requires s'.orphans == s.orphans || s'.orphans == Abandoned(s, s.replicas[i])
    requires ReplicaOk(w, s', i)
    requires r'.Active? && r'.activity.Writing? ==>
      RequestOk(w, s', r'.activity.request) && FreshOk(s', r'.activity.request)
    requires !r'.NotStarted?
    requires r'.Active? && s.replicas[i].Active? ==>
      && s.replicas[i].started <= r'.started
      && forall q :: InFlight(s, q) && q.owner == i && Accepts(s.server, q) ==>
           (r'.role.Leading? ==> r'.role.acked <= q.startedAt) && r'.activity != Answered(true)
    requires s.replicas[i].Stopped? ==> r'.Stopped?
    ensures Inv(w, s')
  {
    forall j | 0 <= j < |s'.replicas| ensures ReplicaOk(w, s', j) {
      if j != i { assert ReplicaOk(w, s, j); }
    }
    forall q | InFlight(s', q) ensures RequestOk(w, s', q) && FreshOk(s', q) {
      if !(r'.Active? && r'.activity == Writing(q)) {
        assert InFlight(s, q) by {
          assert ReplicaOk(w, s, i);
        }
      }
    }
  }

  lemma StartKeepsInv(w: World, s: State, i: nat, s': State)
    requires Configured(w) && Inv(w, s) && Step(w, s, Start(i)) == Some(s')
    ensures Inv(w, s')
  {
    assert ReplicaOk(w, s, i);
    ReplicaChangeKeepsInv(w, s, i, Active(Acquiring, Reading, s.now), s');
  }

  lemma WakeKeepsInv(w: World, s: State, i: nat, s': State)
    requires Configured(w) && Inv(w, s) && Step(w, s, Wake(i)) == Some(s')
    ensures Inv(w, s')
  {
    assert ReplicaOk(w, s, i);
    ReplicaChangeKeepsInv(w, s, i, s.replicas[i].(activity := Reading, started := s.now), s');
  }

  lemma ReadKeepsInv(w: World, s: State, i: nat, s': State)
    requires Configured(w) && Inv(w, s) && Step(w, s, Read(i)) == Some(s')
    ensures Inv(w, s')
  {
    assert ReplicaOk(w, s, i);
    ReplicaChangeKeepsInv(w, s, i, s'.replicas[i], s');
  }

  lemma QuitKeepsInv(w: World, s: State, i: nat, s': State)
    requires Configured(w) && Inv(w, s) && Step(w, s, Quit(i)) == Some(s')
    ensures Inv(w, s')
  {
    assert ReplicaOk(w, s, i);
    ReplicaChangeKeepsInv(w, s, i, Stopped, s');
  }

  lemma AttemptEnds(w: World, s: State, i: nat, result: AttemptResult)
    requires Configured(w) && Inv(w, s) && i < |s.replicas|
    requires s.replicas[i].Active? && !s.replicas[i].activity.Sleeping?
    requires result == Won ==> s.replicas[i].activity == Answered(true)
    ensures var r, r' := s.replicas[i], AfterAttempt(w.config, s.replicas[i], s.now, result);
      && TimersOk(w, s, r')
      && (r'.Active? ==> r'.activity.Sleeping? && r'.started == r.started)
      && (r'.Active? && r'.role.Leading? ==>
            || (r.role.Leading? && r'.role.acked == r.role.acked)
            || (r.activity == Answered(true) && r'.role.acked == r.started))
  {
    assert ReplicaOk(w, s, i);
  }

  lemma AttemptEndKeepsInv(w: World, s: State, i: nat, result: AttemptResult, s': State)
    requires Configured(w) && Inv(w, s) && i < |s.replicas|
    requires s.replicas[i].Active? && !s.replicas[i].activity.Sleeping?
    requires result == Won ==> s.replicas[i].activity == Answered(true)
    requires s' == s.(replicas := s.replicas[i := AfterAttempt(w.config, s.replicas[i], s.now, result)],
                      orphans := Abandoned(s, s.replicas[i]))
    ensures Inv(w, s')
  {
    assert ReplicaOk(w, s, i);
    AttemptEnds(w, s, i, result);
    forall q | InFlight(s, q) && q.owner == i && Accepts(s.server, q)
      ensures s.replicas[i].activity != Answered(true)
      ensures s.replicas[i].role.Leading? ==> s.replicas[i].role.acked <= q.startedAt
    {
      assert FreshOk(s, q);
    }
    ReplicaChangeKeepsInv(w, s, i, s'.replicas[i], s');
  }

  /** When a leader stops: at an answer that the lease is another's, or when an attempt that
      failed ends with the renew deadline elapsed. An answer that the lease is its own keeps
      it leading, whatever the time. */
  lemma LeadershipEndsExactlyWhen(w: World, s: State, i: nat, a: Action, s': State)
    requires Configured(w) && i < |s.replicas| && Working(s.replicas[i])
    requires (a == Respond(i) || a == Fail(i)) && Step(w, s, a) == Some(s')
    ensures Working(s'.replicas[i])
       <==> if a.Respond? then s.replicas[i].activity == Answered(true)
            else s.now < s.replicas[i].role.lastSuccess + w.config.renewDeadline
    ensures !Working(s'.replicas[i]) ==> s'.replicas[i] == Stopped
    ensures s'.server == s.server
  {
  }

  /** A request that is given up on stays on its way, and can land at any later time. */
  lemma GivenUpRequestsCanLand(w: World, s: State, i: nat, a: Action, s': State)
    requires i < |s.replicas| && s.replicas[i].Active? && s.replicas[i].activity.Writing?
    requires (a == Fail(i) || a == Quit(i)) && Step(w, s, a) == Some(s')
    ensures var q := s.replicas[i].activity.request;
      && s'.orphans == s.orphans + {q}
      && Step(w, s', LandOrphan(q)).Some?
      && Step(w, s', LandOrphan(q)).value.server ==
           if Accepts(s.server, q) then Server(Some(q.record), s.server.version + 1) else s.server
  {
  }

  /** Leadership begins only with an answer that the lease is one's own. */
  lemma LeadershipBeginsExactlyWhen(w: World, s: State, i: nat, a: Action, s': State)
    requires Configured(w) && i < |s.replicas| && !Working(s.replicas[i]) && Step(w, s, a) == Some(s')
    ensures Working(s'.replicas[i])
       <==> a == Respond(i) && s.replicas[i].Active? && s.replicas[i].activity == Answered(true)
  {
  }

  // ------------------------------------------------------------------ a request lands

  /** Landing another's request takes the lease only after it ran out; landing one's
      own renews it. */
  lemma ClaimSurvivesLanding(w: World, s: State, q: Request, i: nat, t: real)
    requires w.Ok() && i < |w.ids| && RequestOk(w, s, q) && Accepts(s.server, q)
    requires HeldOrExpired(w, s, i, t)
    requires q.owner == i ==> t <= q.startedAt
    ensures HeldOrExpired(w, LandIn(s, q), i, t)
  {
    if q.owner != i {
      assert w.ids[q.owner] != w.ids[i];
    }
  }

  lemma LandingKeepsReplica(w: World, s: State, q: Request, i: nat)
    requires w.Ok() && Inv(w, s) && InFlight(s, q) && i < |s.replicas|
    ensures TimersOk(w, LandIn(s, q), s.replicas[i])
    ensures LeaseOk(w, LandIn(s, q), i)
    ensures ClaimOk(w, LandIn(s, q), i)
  {
    assert ReplicaOk(w, s, i) && RequestOk(w, s, q) && FreshOk(s, q);
    var r := s.replicas[i];
    if Accepts(s.server, q) {
      if r.Active? && r.role.Leading? {
        ClaimSurvivesLanding(w, s, q, i, r.role.acked);
      }
      if r.Active? && r.activity == Answered(true) {
        ClaimSurvivesLanding(w, s, q, i, r.started);
      }
      if q.owner != i {
        assert w.ids[q.owner] != w.ids[i];
      }
    }
  }

  lemma LandingKeepsRequest(w: World, s: State, q: Request, q': Request)
    requires Inv(w, s) && InFlight(s, q) && InFlight(s, q')
    ensures RequestOk(w, LandIn(s, q), q')
    ensures q'.owner < |s.replicas| && !s.replicas[q'.owner].NotStarted?
    ensures FreshOk(LandIn(s, q), q')
    ensures Accepts(s.server, q) ==> !Accepts(Land(s.server, q), q')
  {
  }

  lemma LandOrphanKeepsInv(w: World, s: State, q: Request, s': State)
    requires Configured(w) && Inv(w, s) && Step(w, s, LandOrphan(q)) == Some(s')
    ensures Inv(w, s')
  {
    assert InFlight(s, q);
    forall i | 0 <= i < |s.replicas| ensures ReplicaOk(w, s', i) {
      LandingKeepsReplica(w, s, q, i);
    }
    forall q' | InFlight(s', q') ensures RequestOk(w, s', q') && FreshOk(s', q') {
      assert InFlight(s, q');
      LandingKeepsRequest(w, s, q, q');
    }
  }

  lemma LandOwnKeepsInv(w: World, s: State, i: nat, s': State)
    requires Configured(w) && Inv(w, s) && Step(w, s, LandOwn(i)) == Some(s')
    ensures Inv(w, s')
  {
    var q := s.replicas[i].activity.request;
    assert ReplicaOk(w, s, i);
    assert q.owner == i;
    assert InFlight(s, q) && RequestOk(w, s, q) && FreshOk(s, q);
    forall j | 0 <= j < |s.replicas| ensures ReplicaOk(w, s', j) {
      LandingKeepsReplica(w, s, q, j);
    }
    forall q' | InFlight(s', q') ensures RequestOk(w, s', q') && FreshOk(s', q') {
      assert InFlight(s, q');
      LandingKeepsRequest(w, s, q, q');
    }
  }

  lemma StepKeepsInv(w: World, s: State, a: Action, s': State)
    requires Configured(w) && Inv(w, s) && Step(w, s, a) == Some(s')
    ensures Inv(w, s')
  {
    match a {
      case Tick(to) => TickKeepsInv(w, s, to, s');
      case Start(i) => StartKeepsInv(w, s, i, s');
      case Wake(i) => WakeKeepsInv(w, s, i, s');
      case Read(i) => ReadKeepsInv(w, s, i, s');
      case LandOwn(i) => LandOwnKeepsInv(w, s, i, s');
      case Respond(i) =>
        AttemptEndKeepsInv(w, s, i, if s.replicas[i].activity.ok then Won else Lost, s');
      case Fail(i) => AttemptEndKeepsInv(w, s, i, Failed, s');
      case Quit(i) => QuitKeepsInv(w, s, i, s');
      case LandOrphan(q) => LandOrphanKeepsInv(w, s, q, s');
    }
  }

  lemma {:induction false} RunKeepsInv(w: World, states: seq<State>, actions: seq<Action>, n: nat)
    requires Configured(w) && IsRun(w, states, actions) && n < |states|
    ensures Inv(w, states[n])
  {
    if n == 0 {
    } else {
      RunKeepsInv(w, states, actions, n - 1);
      StepKeepsInv(w, states[n - 1], actions[n - 1], states[n]);
    }
  }

  // ----------------------------------------------------------------- mutual exclusion

  /** How long after its last acknowledged renew time a replica can still be working. */
  function Reach(w: World): real {
    w.config.renewDeadline + 2.0 * Pause(w) + Longest(w.firstBound, Pause(w))
  }

  /** In every run, a replica that is working has acknowledged a renewal less than
      `Reach` ago; with exact timers and first attempts bounded by the retry period that is
      the renew deadline plus three retry periods. */
  lemma WorkIsTimely(w: World, states: seq<State>, actions: seq<Action>, n: nat, i: nat)
    requires Configured(w) && IsRun(w, states, actions) && n < |states| && i < |states[n].replicas|
    requires Working(states[n].replicas[i])
    ensures states[n].now < states[n].replicas[i].role.acked + Reach(w)
  {
    RunKeepsInv(w, states, actions, n);
    assert ReplicaOk(w, states[n], i);
  }

  ghost predicate Exclusive(s: State) {
    forall i, j :: 0 <= i < j < |s.replicas| ==> !(Working(s.replicas[i]) && Working(s.replicas[j]))
  }

  /** If the reach is within the lease, whoever works holds the lease. */
  lemma WorkerHoldsTheLease(w: World, states: seq<State>, actions: seq<Action>, n: nat, i: nat)
    requires Configured(w) && IsRun(w, states, actions) && n < |states| && i < |states[n].replicas| == |w.ids|
    requires Working(states[n].replicas[i])
    requires Reach(w) <= LeaseSeconds(w.config)
    ensures states[n].server.lease.Some? && states[n].server.lease.value.holder == Some(w.ids[i])
  {
    RunKeepsInv(w, states, actions, n);
    WorkIsTimely(w, states, actions, n, i);
    assert ReplicaOk(w, states[n], i);
  }

  /** If the reach is within the lease, no two replicas ever work at the same instant. */
  lemma AtMostOneWorks(w: World, states: seq<State>, actions: seq<Action>, n: nat)
    requires Configured(w) && IsRun(w, states, actions) && n < |states|
    requires Reach(w) <= LeaseSeconds(w.config)
    ensures Exclusive(states[n])
  {
    RunKeepsInv(w, states, actions, n);
    forall i, j | 0 <= i < j < |w.ids|
      ensures !(Working(states[n].replicas[i]) && Working(states[n].replicas[j]))
    {
      if Working(states[n].replicas[i]) && Working(states[n].replicas[j]) {
        WorkerHoldsTheLease(w, states, actions, n, i);
        WorkerHoldsTheLease(w, states, actions, n, j);
      }
    }
  }

  // --------------------------------------------- the exact condition for exclusion

  ghost predicate Reachable(w: World, s: State) {
    exists states, actions :: IsRun(w, states, actions) && states[|actions|] == s
  }

  lemma ReachStep(w: World, s: State, a: Action, s': State)
    requires Reachable(w, s) && Step(w, s, a) == Some(s')
    ensures Reachable(w, s')
  {
    var states, actions :| IsRun(w, states, actions) && states[|actions|] == s;
    assert IsRun(w, states + [s'], actions + [a]);
    assert (states + [s'])[|actions + [a]|] == s';
  }

  /** Replica 0 is `r`, and the others have not started. */
  ghost predicate Alone(w: World, s: State, r: Replica) {
    && |s.replicas| == |w.ids| >= 2
    && s.replicas[0] == r
    && forall i :: 0 < i < |s.replicas| ==> s.replicas[i].NotStarted?
  }

  ghost predicate Holds(w: World, server: Server, renewed: real)
    requires |w.ids| > 0
  {
    && server.lease.Some?
    && server.lease.value.holder == Some(w.ids[0])
    && server.lease.value.renewTime == Some(renewed)
  }

  lemma TickAlone(w: World, s: State, r: Replica, to: real) returns (s': State)
    requires Reachable(w, s) && Alone(w, s, r) && s.now <= to
    requires ActsBy(w, r).Some? ==> to <= ActsBy(w, r).value
    ensures Reachable(w, s') && Alone(w, s', r) && s' == s.(now := to)
  {
    assert MayTick(w, s, to);
    s' := s.(now := to);
    ReachStep(w, s, Tick(to), s');
  }

  lemma WakeAlone(w: World, s: State, role: Role, started: real, until: real, to: real) returns (s': State)
    requires Reachable(w, s) && Alone(w, s, Active(role, Sleeping(until), started))
    requires s.now <= until <= to <= until + w.slack
    ensures Reachable(w, s') && Alone(w, s', Active(role, Reading, to)) && s'.now == to && s'.server == s.server
  {
    var awake := TickAlone(w, s, Active(role, Sleeping(until), started), to);
    s' := awake.(replicas := awake.replicas[0 := Active(role, Reading, to)]);
    ReachStep(w, awake, Wake(0), s');
  }

  lemma AnswerAlone(w: World, s: State, role: Role, started: real) returns (s': State)
    requires Configured(w) && Reachable(w, s) && Alone(w, s, Active(role, Reading, started))
    requires s.server.lease.None? || s.server.lease.value.holder == Some(w.ids[0])
    ensures Reachable(w, s') && Alone(w, s', Active(role, Answered(true), started))
    ensures s'.now == s.now && Holds(w, s'.server, started)
  {
    var read := ReadStep(w, s, 0);
    ReachStep(w, s, Read(0), read);
    s' := Step(w, read, LandOwn(0)).value;
    ReachStep(w, read, LandOwn(0), s');
  }

  lemma EndAlone(w: World, s: State, r: Replica, result: AttemptResult) returns (s': State)
    requires Reachable(w, s) && Alone(w, s, r) && r.Active?
    requires r.activity == (if result == Failed then Reading else Answered(result == Won))
    ensures Reachable(w, s') && Alone(w, s', AfterAttempt(w.config, r, s.now, result))
    ensures s'.now == s.now && s'.server == s.server
  {
    var a := if result == Failed then Fail(0) else Respond(0);
    s' := Step(w, s, a).value;
    ReachStep(w, s, a, s');
  }

  /** Replica 0 leads a lease it renewed at `acked` and was answered about at `success`,
      and is asleep after an attempt that ended now; the others have not started. */
  ghost predicate Sole(w: World, s: State, acked: real, success: real) {
    && |w.ids| >= 2
    && Holds(w, s.server, acked)
    && s.replicas != [] && s.replicas[0].Active?
    && Alone(w, s, Active(Leading(success, acked), Sleeping(s.now + w.config.retryPeriod), s.replicas[0].started))
  }

  function Fresh(w: World): State {
    State(0.0, Server(None, 0), seq(|w.ids|, _ => NotStarted), {}, [])
  }

  lemma FirstStarts(w: World) returns (s: State)
    requires |w.ids| >= 2
    ensures Reachable(w, s) && Alone(w, s, Active(Acquiring, Reading, 0.0))
    ensures s.now == 0.0 && s.server.lease.None?
  {
    var first := Fresh(w);
    var none: seq<Action> := [];
    assert IsRun(w, [first], none) && [first][|none|] == first;
    s := first.(replicas := first.replicas[0 := Active(Acquiring, Reading, 0.0)]);
    ReachStep(w, first, Start(0), s);
  }

  /** Replica 0 can acquire the lease with a first attempt that lasts `latency`. */
  lemma AcquireSlowly(w: World, latency: real) returns (s: State)
    requires Configured(w) && |w.ids| >= 2 && 0.0 <= latency <= w.firstBound
    ensures Reachable(w, s) && Sole(w, s, 0.0, latency) && s.now == latency
  {
    s := FirstStarts(w);
    s := AnswerAlone(w, s, Acquiring, 0.0);
    s := TickAlone(w, s, Active(Acquiring, Answered(true), 0.0), latency);
    s := EndAlone(w, s, Active(Acquiring, Answered(true), 0.0), Won);
  }

  lemma BeginRenewal(w: World, s: State, acked: real, success: real, pause: real) returns (s': State)
    requires Configured(w) && Reachable(w, s) && Sole(w, s, acked, success)
    requires w.config.retryPeriod <= pause <= Pause(w)
    ensures Reachable(w, s') && s'.now == s.now + pause && Holds(w, s'.server, acked)
    ensures Alone(w, s', Active(Leading(success, acked), Reading, s'.now))
  {
    var until := s.now + w.config.retryPeriod;
    s' := WakeAlone(w, s, Leading(success, acked), s.replicas[0].started, until, s.now + pause);
  }

  /** A sole leader can renew with the longest sleep and the longest attempt. */
  lemma RenewSlowly(w: World, s: State, acked: real, success: real) returns (s': State)
    requires Configured(w) && Reachable(w, s) && Sole(w, s, acked, success)
    ensures var started := s.now + Pause(w);
      && Reachable(w, s') && s'.now == started + Pause(w)
      && Sole(w, s', started, s'.now)
  {
    s' := BeginRenewal(w, s, acked, success, Pause(w));
    var started := s'.now;
    var role := Leading(success, acked);
    s' := AnswerAlone(w, s', role, started);
    s' := TickAlone(w, s', Active(role, Answered(true), started), started + Pause(w));
    s' := EndAlone(w, s', Active(role, Answered(true), started), Won);
  }

  /** One failed renewal, over `duration` of sleep and attempt together. */
  lemma FailOnce(w: World, s: State, acked: real, success: real, duration: real) returns (s': State)
    requires Configured(w) && Reachable(w, s) && Sole(w, s, acked, success)
    requires w.config.retryPeriod <= duration <= 2.0 * Pause(w)
    requires s.now + duration - success < w.config.renewDeadline
    ensures Reachable(w, s') && Sole(w, s', acked, success) && s'.now == s.now + duration
  {
    s' := BeginRenewal(w, s, acked, success, if duration <= Pause(w) then duration else Pause(w));
    var r := Active(Leading(success, acked), Reading, s'.now);
    s' := TickAlone(w, s', r, s.now + duration);
    s' := EndAlone(w, s', r, Failed);
  }

  /** Renewals can keep failing so that one of them ends at any instant before the renew
      deadline, a retry period or more from now. */
  lemma {:induction false} FailUntil(w: World, s: State, acked: real, success: real, at: real, fuel: nat)
      returns (s': State)
    requires Configured(w) && Reachable(w, s) && Sole(w, s, acked, success)
    requires s.now + w.config.retryPeriod <= at < success + w.config.renewDeadline
    requires at <= s.now + fuel as real * Pause(w)
    ensures Reachable(w, s') && Sole(w, s', acked, success) && s'.now == at
    decreases fuel
  {
    var r := Pause(w);
    if at <= s.now + 2.0 * r {
      s' := FailOnce(w, s, acked, success, at - s.now);
    } else {
      s' := FailOnce(w, s, acked, success, r);
      assert fuel as real * r == (fuel - 1) as real * r + r;
      s' := FailUntil(w, s', acked, success, at, fuel - 1);
    }
  }

  /** Replica 1 starts, and finds the lease run out. */
  lemma SecondReads(w: World, s: State, leader: Replica, acked: real) returns (s': State)
    requires Configured(w) && Reachable(w, s) && Alone(w, s, leader)
    requires Holds(w, s.server, acked) && s.now > acked + LeaseSeconds(w.config)
    ensures Reachable(w, s') && |s'.replicas| == |s.replicas| && s'.replicas[0] == leader
    ensures var r := s'.replicas[1];
      r.Active? && r.role == Acquiring && r.activity.Writing? && Accepts(s'.server, r.activity.request)
  {
    var s1 := s.(replicas := s.replicas[1 := Active(Acquiring, Reading, s.now)]);
    ReachStep(w, s, Start(1), s1);
    assert w.ids[0] != w.ids[1] && w.ids[0] != "";
    s' := ReadStep(w, s1, 1);
    ReachStep(w, s1, Read(1), s');
  }

  lemma SecondAcquires(w: World, s: State, leader: Replica, acked: real) returns (s': State)
    requires Configured(w) && Reachable(w, s) && Alone(w, s, leader)
    requires Holds(w, s.server, acked) && s.now > acked + LeaseSeconds(w.config)
    ensures Reachable(w, s') && |s'.replicas| == |s.replicas|
    ensures s'.replicas[0] == leader && Working(s'.replicas[1])
  {
    var s1 := SecondReads(w, s, leader, acked);
    var s2 := Step(w, s1, LandOwn(1)).value;
    ReachStep(w, s1, LandOwn(1), s2);
    s' := Step(w, s2, Respond(1)).value;
    ReachStep(w, s2, Respond(1), s');
  }

  /** While a sole leader is in the last renewal it will attempt, the lease runs out and
      a second replica acquires it. */
  lemma TakeOver(w: World, s: State, acked: real, success: real) returns (s': State)
    requires Configured(w) && Reachable(w, s) && Sole(w, s, acked, success)
    requires s.now + 2.0 * Pause(w) > acked + LeaseSeconds(w.config)
    ensures Reachable(w, s') && !Exclusive(s')
  {
    s' := BeginRenewal(w, s, acked, success, Pause(w));
    var leader := Active(Leading(success, acked), Reading, s'.now);
    s' := TickAlone(w, s', leader, s'.now + Pause(w));
    s' := SecondAcquires(w, s', leader, acked);
    assert Working(s'.replicas[0]) && Working(s'.replicas[1]);
  }

  lemma Archimedes(x: real, r: real) returns (n: nat)
    requires x >= 0.0 && r > 0.0
    ensures x <= n as real * r
  {
    n := (x / r).Floor + 1;
    assert x / r <= n as real;
    assert x == (x / r) * r;
    assert x <= n as real * r by {
      RealMulLe(x / r, n as real, r);
    }
  }

  lemma RealMulLe(a: real, b: real, r: real)
    requires a <= b && r >= 0.0
    ensures a * r <= b * r
  {
  }

  lemma SlowStart(w: World) returns (s: State, acked: real)
    requires Configured(w) && |w.ids| >= 2
    ensures Reachable(w, s) && Sole(w, s, acked, s.now)
    ensures s.now == acked + Longest(w.firstBound, Pause(w))
  {
    if w.firstBound < Pause(w) {
      s := AcquireSlowly(w, 0.0);
      acked := s.now + Pause(w);
      s := RenewSlowly(w, s, 0.0, 0.0);
    } else {
      s := AcquireSlowly(w, w.firstBound);
      acked := 0.0;
    }
  }

  /** If the reach exceeds the lease, two replicas can work at the same instant. */
  lemma TwoCanWork(w: World) returns (s: State)
    requires Configured(w) && |w.ids| >= 2 && Pause(w) > 0.0
    requires Reach(w) > LeaseSeconds(w.config)
    ensures Reachable(w, s) && !Exclusive(s)
  {
    var c := w.config;
    var acked: real;
    s, acked := SlowStart(w);
    var success := s.now;
    var excess := Reach(w) - LeaseSeconds(c);
    var delta := if excess / 2.0 <= c.renewDeadline - c.retryPeriod then excess / 2.0 else c.renewDeadline - c.retryPeriod;
    var at := success + c.renewDeadline - delta;
    var fuel := Archimedes(at - s.now, Pause(w));
    s := FailUntil(w, s, acked, success, at, fuel);
    s := TakeOver(w, s, acked, success);
  }

  ghost predicate AlwaysExclusive(w: World) {
    forall s :: Reachable(w, s) ==> Exclusive(s)
  }

  /** Validation promises that a leader stops before anyone else may start. For a
      configuration that passes it, with two or more replicas, that holds of every run
      exactly when the renew deadline, two retry periods and the longest attempt, with the
      lateness of their timers, fit in the whole seconds of the lease. A clock that moves
      needs a retry period or a timer that is late. */
  lemma ExclusiveExactlyWhen(w: World)
    requires Configured(w) && |w.ids| >= 2 && Pause(w) > 0.0
    ensures AlwaysExclusive(w) <==> Reach(w) <= LeaseSeconds(w.config)
  {
    if Reach(w) <= LeaseSeconds(w.config) {
      forall s | Reachable(w, s) ensures Exclusive(s) {
        var states, actions :| IsRun(w, states, actions) && states[|actions|] == s;
        AtMostOneWorks(w, states, actions, |actions|);
      }
    } else {
      var s := TwoCanWork(w);
    }
  }

  ghost predicate ExclusiveWhenLate(w: World, slack: real) {
    slack > 0.0 && AlwaysExclusive(w.(slack := slack))
  }

  /** No timer is exact. Some lateness is harmless if and only if the renew deadline, two
      retry periods and the longest attempt leave a rest of the whole seconds of the lease;
      without a retry period, the renew deadline and the first attempt. */
  lemma SomeLatenessIsSafeExactlyWhen(w: World)
    requires Configured(w) && |w.ids| >= 2 && w.slack == 0.0
    ensures (exists slack :: ExclusiveWhenLate(w, slack)) <==> Reach(w) < LeaseSeconds(w.config)
  {
    if Reach(w) < LeaseSeconds(w.config) {
      var slack := (LeaseSeconds(w.config) - Reach(w)) / 3.0;
      ExclusiveExactlyWhen(w.(slack := slack));
      assert ExclusiveWhenLate(w, slack);
    }
    if slack :| ExclusiveWhenLate(w, slack) {
      ExclusiveExactlyWhen(w.(slack := slack));
    }
  }

  /** A first attempt that outlasts the lease is enough for two replicas to work. */
  lemma SlowFirstAttempt(w: World) returns (s: State)
    requires Configured(w) && |w.ids| >= 2 && w.firstBound > LeaseSeconds(w.config)
    ensures Reachable(w, s) && !Exclusive(s)
  {
    s := AcquireSlowly(w, w.firstBound);
    s := SecondAcquires(w, s, s.replicas[0], 0.0);
    assert Working(s.replicas[0]) && Working(s.replicas[1]);
  }

  /** Nothing bounds the first attempt in the program: for every configuration that passes
      validation, however exact its timers, some duration of it lets two replicas work at
      once. */
  lemma NoConfigurationIsExclusive(c: Config, ids: seq<string>, slack: real) returns (w: World, s: State)
    requires c.enabled && Validate(c) == Valid && 0.0 <= c.retryPeriod && |ids| >= 2 && 0.0 <= slack
    requires forall i :: 0 <= i < |ids| ==> ids[i] != ""
    requires forall i, j :: 0 <= i < j < |ids| ==> ids[i] != ids[j]
    ensures w.config == c && w.ids == ids && w.slack == slack
    ensures Configured(w) && Reachable(w, s) && !Exclusive(s)
  {
    w := World(c, ids, LeaseSeconds(c) + 1.0, slack);
    s := SlowFirstAttempt(w);
  }

  /** Without a retry period the renew deadline still has to elapse: a 14 s deadline and a 2 s
      first attempt outlast a 15 s lease, however little the timers are late. */
  lemma WithoutRetryPeriodTwoCanWork(slack: real) returns (w: World, s: State)
    requires slack > 0.0
    ensures w.config == Config(true, 15.0, 14.0, 0.0) && w.firstBound == 2.0 && w.slack == slack
    ensures Configured(w) && Reachable(w, s) && !Exclusive(s)
  {
    w := World(Config(true, 15.0, 14.0, 0.0), ["a", "b"], 2.0, slack);
    assert LeaseSeconds(w.config) == 15.0;
    s := TwoCanWork(w);
  }

  /** The controller manager's defaults: 15 s lease, 10 s deadline, 2 s retry. */
  const DEFAULTS := Config(true, 15.0, 10.0, 2.0)

  /** They pass validation and still let two replicas work at once, even when no attempt
      outlasts a retry period and every timer is exact. */
  lemma DefaultsAreNotExclusive() returns (w: World, s: State)
    ensures w.config == DEFAULTS && w.firstBound == DEFAULTS.retryPeriod && w.slack == 0.0
    ensures Configured(w) && Reachable(w, s) && !Exclusive(s)
  {
    w := World(DEFAULTS, ["a", "b"], 2.0, 0.0);
    assert LeaseSeconds(w.config) == 15.0;
    s := TwoCanWork(w);
  }
}
