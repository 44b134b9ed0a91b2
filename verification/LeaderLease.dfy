/** The election as one replica runs it: an attempt against the apiserver, with whatever
    other requests land in the middle of it, and the renewal loop. */
module LeaderLease {
  import opened LeaderElection
  import opened Wrappers

  function LandAll(server: Server, requests: seq<Request>): Server
    decreases |requests|
  {
    if requests == [] then server else LandAll(Land(server, requests[0]), requests[1..])
  }

  /** Versions only grow, and an unchanged version is an unchanged record. */
  lemma {:induction false} LandAllVersions(server: Server, requests: seq<Request>)
    ensures LandAll(server, requests).version >= server.version
    ensures LandAll(server, requests).version == server.version ==> LandAll(server, requests) == server
    ensures server.lease.Some? ==> LandAll(server, requests).lease.Some?
    ensures LandAll(server, requests).lease.None? ==> LandAll(server, requests) == server
    decreases |requests|
  {
    if requests == [] {
    } else {
      LandAllVersions(Land(server, requests[0]), requests[1..]);
    }
  }

  class LeaseApi {
    var server: Server

    constructor (server: Server)
      ensures this.server == server
    {
      this.server := server;
    }

    method Handle(q: Request) returns (ok: bool)
      modifies this
      ensures ok == Accepts(old(server), q) && server == Land(old(server), q)
    {
      ok := Accepts(server, q);
      if ok {
        server := Server(Some(q.record), server.version + 1);
      }
    }

    method HandleAll(requests: seq<Request>)
      modifies this
      ensures server == LandAll(old(server), requests)
    {
      for k := 0 to |requests|
        invariant LandAll(server, requests[k..]) == LandAll(old(server), requests)
      {
        assert requests[k..][0] == requests[k] && requests[k..][1..] == requests[k + 1..];
        var _ := Handle(requests[k]);
      }
    }
  }

  /** What the network does to one attempt: whether its read fails, whether its write is
      carried out or compared at all, and whether the answer to it comes back. */
  datatype Network = Network(readFails: bool, delivered: bool, answered: bool)

  class LeaderLease {
    const api: LeaseApi
    const identity: string
    const config: Config

    constructor (api: LeaseApi, identity: string, config: Config)
      ensures this.api == api && this.identity == identity && this.config == config
    {
      this.api, this.identity, this.config := api, identity, config;
    }

    /** One attempt, with `between` landing after its read and before its write, on a
        network that may fail it at any point. It says `Won` exactly when its record was
        written and the answer came back, and `Lost` exactly when it was not entitled to
        the lease or came too late; anything the network did is `Failed`. A record whose
        answer is lost stands all the same. */
    method TryAcquire(now: real, between: seq<Request>, network: Network) returns (r: AttemptResult)
      modifies api
      ensures var mine := Decide(LeaseSeconds(config), identity, now, old(api.server.lease));
        var others := LandAll(old(api.server), between);
        if network.readFails then r == Failed && api.server == old(api.server)
        else if mine.None? then r == Lost && api.server == old(api.server)
        else
          var written := network.delivered && others == old(api.server);
          && api.server == (if written then Server(mine, others.version + 1) else others)
          && (r == Won <==> written && network.answered)
          && (r == Lost <==> network.delivered && network.answered && others != old(api.server))
    {
      if network.readFails {
        return Failed;
      }
      ghost var before := api.server;
      var observed := api.server;
      var mine := Decide(LeaseSeconds(config), identity, now, observed.lease);
      if mine == None {
        return Lost;
      }
      api.HandleAll(between);
      LandAllVersions(before, between);
      if !network.delivered {
        return Failed;
      }
      var ok := api.Handle(MakeRequest(observed, mine.value, 0, now));
      r := if !network.answered then Failed else if ok then Won else Lost;
    }

    /** The renewal loop from a success at `acquiredAt`, over the given attempts. */
    method RenewUntilLost(acquiredAt: real, acked: real, attempts: seq<Attempt>) returns (r: Renewals)
      ensures r == RenewLoop(config, StillLeading(acquiredAt, acquiredAt, acked), attempts)
      ensures r.StillLeading? ==> forall k :: 0 <= k < |attempts| ==> attempts[k].result != Lost
      ensures forall k :: 0 <= k < |attempts| && IsLast(config, acquiredAt, attempts, k) ==>
        r.LostAt? && r.now == EndOf(acquiredAt, attempts, k)
    {
      StopsExactlyWhen(config, acquiredAt, acked, attempts);
      assert forall k :: 0 <= k < |attempts| && attempts[k].result == Lost ==> Ends(config, acquiredAt, attempts, k);
      var now, lastSuccess, ack := acquiredAt, acquiredAt, acked;
      var k := 0;
      while k < |attempts|
        invariant 0 <= k <= |attempts|
        invariant RenewLoop(config, StillLeading(acquiredAt, acquiredAt, acked), attempts)
               == RenewLoop(config, StillLeading(now, lastSuccess, ack), attempts[k..])
      {
        var a := attempts[k];
        assert attempts[k..][0] == a && attempts[k..][1..] == attempts[k + 1..];
        var started := now + a.slept;
        now := started + a.duration;
        match a.result {
          case Won => lastSuccess, ack := now, started;
          case Lost => return LostAt(now, lastSuccess, ack);
          case Failed =>
        }
        if now - lastSuccess >= config.renewDeadline {
          return LostAt(now, lastSuccess, ack);
        }
        k := k + 1;
      }
      r := StillLeading(now, lastSuccess, ack);
    }
  }

  // ------------------------------------------------------------------ the renewal loop

  /** How long the sleep before an attempt took and the attempt itself, and how it ended. */
  datatype Attempt = Attempt(slept: real, duration: real, result: AttemptResult)

  datatype Renewals =
    | StillLeading(now: real, lastSuccess: real, acked: real)
    | LostAt(now: real, lastSuccess: real, acked: real)

  function RenewOnce(c: Config, s: Renewals, a: Attempt): Renewals {
    var started := s.now + a.slept;
    var ended := started + a.duration;
    var acked := if a.result == Won then started else s.acked;
    var lastSuccess := if a.result == Won then ended else s.lastSuccess;
    match AfterRenewal(c, s.lastSuccess, ended, a.result)
    case None => LostAt(ended, lastSuccess, acked)
    case Some(success) => StillLeading(ended, success, acked)
  }

  function RenewLoop(c: Config, s: Renewals, attempts: seq<Attempt>): Renewals
    decreases |attempts|
  {
    if attempts == [] || s.LostAt? then s
    else RenewLoop(c, RenewOnce(c, s, attempts[0]), attempts[1..])
  }

  // What ends the loop, told from the attempts alone.

  /** When attempt number `k` ends. */
  function EndOf(acquiredAt: real, attempts: seq<Attempt>, k: nat): real
    requires k < |attempts|
  {
    (if k == 0 then acquiredAt else EndOf(acquiredAt, attempts, k - 1)) + attempts[k].slept + attempts[k].duration
  }

  /** The end of the last attempt up to number `k` that won; of acquiring, if none did. */
  function LastWin(acquiredAt: real, attempts: seq<Attempt>, k: nat): real
    requires k < |attempts|
  {
    if attempts[k].result == Won then EndOf(acquiredAt, attempts, k)
    else if k == 0 then acquiredAt else LastWin(acquiredAt, attempts, k - 1)
  }

  /** The lease is another's, or the renew deadline has elapsed since the last win. */
  predicate Ends(c: Config, acquiredAt: real, attempts: seq<Attempt>, k: nat)
    requires k < |attempts|
  {
    attempts[k].result == Lost || EndOf(acquiredAt, attempts, k) >= LastWin(acquiredAt, attempts, k) + c.renewDeadline
  }

  /** The first attempt that ends leadership. */
  ghost predicate IsLast(c: Config, acquiredAt: real, attempts: seq<Attempt>, k: nat)
    requires k < |attempts|
  {
    Ends(c, acquiredAt, attempts, k) && forall j :: 0 <= j < k ==> !Ends(c, acquiredAt, attempts, j)
  }

  function Began(acquiredAt: real, acked: real): Renewals { StillLeading(acquiredAt, acquiredAt, acked) }

  lemma {:induction false} LoopPush(c: Config, s: Renewals, attempts: seq<Attempt>, a: Attempt)
    ensures RenewLoop(c, s, attempts + [a])
         == var r := RenewLoop(c, s, attempts); if r.LostAt? then r else RenewOnce(c, r, a)
    decreases |attempts|
  {
    if attempts == [] || s.LostAt? {
      assert (attempts + [a])[1..] == if attempts == [] then [] else attempts[1..] + [a];
    } else {
      assert (attempts + [a])[1..] == attempts[1..] + [a];
      LoopPush(c, RenewOnce(c, s, attempts[0]), attempts[1..], a);
    }
  }

  /** One more attempt from where `k` have led. */
  lemma OnceMore(c: Config, acquiredAt: real, s: Renewals, attempts: seq<Attempt>, k: nat)
    requires k < |attempts| && s.StillLeading?
    requires s.now == if k == 0 then acquiredAt else EndOf(acquiredAt, attempts, k - 1)
    requires s.lastSuccess == if k == 0 then acquiredAt else LastWin(acquiredAt, attempts, k - 1)
    ensures var r := RenewOnce(c, s, attempts[k]);
      && r.now == EndOf(acquiredAt, attempts, k) && r.lastSuccess == LastWin(acquiredAt, attempts, k)
      && (r.StillLeading? <==> !Ends(c, acquiredAt, attempts, k))
      && r.acked == if attempts[k].result == Won then s.now + attempts[k].slept else s.acked
  {
  }

  /** After `n` attempts, none of which ended leadership, the loop leads since the last win;
      and it stopped at the first that did. */
  lemma {:induction false} LoopAfter(c: Config, acquiredAt: real, acked: real, attempts: seq<Attempt>, n: nat)
    requires n <= |attempts|
    ensures var r := RenewLoop(c, Began(acquiredAt, acked), attempts[..n]);
      && (r.StillLeading? <==> forall k :: 0 <= k < n ==> !Ends(c, acquiredAt, attempts, k))
      && (r.StillLeading? && n > 0 ==>
            r.now == EndOf(acquiredAt, attempts, n - 1) && r.lastSuccess == LastWin(acquiredAt, attempts, n - 1))
      && (r.StillLeading? && n == 0 ==> r.now == r.lastSuccess == acquiredAt)
      && (forall k :: 0 <= k < n && IsLast(c, acquiredAt, attempts, k) ==>
            r.LostAt? && r.now == EndOf(acquiredAt, attempts, k))
  {
    if n == 0 {
      assert attempts[..0] == [];
    } else {
      var before := RenewLoop(c, Began(acquiredAt, acked), attempts[..n - 1]);
      LoopAfter(c, acquiredAt, acked, attempts, n - 1);
      LoopPush(c, Began(acquiredAt, acked), attempts[..n - 1], attempts[n - 1]);
      assert attempts[..n] == attempts[..n - 1] + [attempts[n - 1]];
      if before.StillLeading? {
        OnceMore(c, acquiredAt, before, attempts, n - 1);
      }
    }
  }

  /** The loop goes on exactly as long as no attempt finds the lease another's or leaves the
      renew deadline elapsed, and it stops with the first that does. */
  lemma StopsExactlyWhen(c: Config, acquiredAt: real, acked: real, attempts: seq<Attempt>)
    ensures var r := RenewLoop(c, Began(acquiredAt, acked), attempts);
      && (r.StillLeading? <==> forall k :: 0 <= k < |attempts| ==> !Ends(c, acquiredAt, attempts, k))
      && (forall k :: 0 <= k < |attempts| && IsLast(c, acquiredAt, attempts, k) ==>
            r.LostAt? && r.now == EndOf(acquiredAt, attempts, k))
  {
    LoopAfter(c, acquiredAt, acked, attempts, |attempts|);
    assert attempts[..|attempts|] == attempts;
  }

  /** Sleeps of a retry period, and attempts cut off after one, by timers up to `slack` late. */
  ghost predicate Bounded(c: Config, slack: real, attempts: seq<Attempt>) {
    forall k :: 0 <= k < |attempts| ==>
      && c.retryPeriod <= attempts[k].slept <= c.retryPeriod + slack
      && 0.0 <= attempts[k].duration <= c.retryPeriod + slack
  }

  ghost predicate LeadingOk(c: Config, s: Renewals) {
    s.StillLeading? && s.acked <= s.lastSuccess <= s.now < s.lastSuccess + c.renewDeadline
  }

  /** The window in which leadership is given up. If no attempt finds the lease taken by
      another, the loop never stops before the renew deadline after the last success and
      always within two retry periods of it, and twice the timers' lateness; while attempts keep succeeding it never
      stops. Whatever the attempts, the loop that goes on is inside its deadline. */
  lemma {:induction false} GivesUpInTheWindow(c: Config, slack: real, s: Renewals, attempts: seq<Attempt>)
    requires 0.0 <= c.retryPeriod && 0.0 <= slack && 0.0 < c.renewDeadline
    requires LeadingOk(c, s) && Bounded(c, slack, attempts)
    ensures var r := RenewLoop(c, s, attempts);
      && (r.StillLeading? ==> LeadingOk(c, r))
      && r.now < r.lastSuccess + c.renewDeadline + 2.0 * (c.retryPeriod + slack)
      && (r.LostAt? && (forall a :: a in attempts ==> a.result != Lost) ==> r.now >= r.lastSuccess + c.renewDeadline)
      && ((forall a :: a in attempts ==> a.result == Won) ==> r.StillLeading?)
    decreases |attempts|
  {
    if attempts == [] {
    } else {
      var next := RenewOnce(c, s, attempts[0]);
      assert attempts[0] in attempts;
      if next.StillLeading? {
        forall a | a in attempts[1..] ensures a in attempts {}
        GivesUpInTheWindow(c, slack, next, attempts[1..]);
      }
    }
  }
}
