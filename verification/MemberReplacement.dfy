/** Replacing a datastore member: promote the new one, then remove the old one, with a crash
    possible at any point, and requests that may arrive long after their sender is gone. */
module MemberReplacement {
  import opened Wrappers

  datatype Member = Member(id: nat, urls: set<string>, isLearner: bool)

  /** The first member with a peer URL. */
  function Joined(members: seq<Member>, url: string): Option<Member> {
    if members == [] then None
    else if url in members[0].urls then Some(members[0])
    else Joined(members[1..], url)
  }

  predicate Has(members: seq<Member>, id: nat) { exists i :: 0 <= i < |members| && members[i].id == id }

  predicate IsVoter(members: seq<Member>, id: nat) {
    exists i :: 0 <= i < |members| && members[i].id == id && !members[i].isLearner
  }

  function Voters(members: seq<Member>): nat {
    if members == [] then 0 else (if members[0].isLearner then 0 else 1) + Voters(members[1..])
  }

  // ------------------------------------------------------------------------- the cluster

  datatype Request = Promote(id: nat) | Remove(id: nat)

  function Promoted(members: seq<Member>, id: nat): seq<Member> {
    if members == [] then []
    else [if members[0].id == id then members[0].(isLearner := false) else members[0]] + Promoted(members[1..], id)
  }

  function Removed(members: seq<Member>, id: nat): seq<Member> {
    if members == [] then []
    else (if members[0].id == id then [] else [members[0]]) + Removed(members[1..], id)
  }

  function Applied(members: seq<Member>, r: Request): seq<Member> {
    match r
    case Promote(id) => Promoted(members, id)
    case Remove(id) => Removed(members, id)
  }

  // ----------------------------------------------------------------- the replacing process

  datatype Task = Task(url: string, oldId: nat)

  /** Not running, has picked the new member, waits for the promotion, is about to list again,
      or waits for the removal. */
  datatype Phase = Idle | Picked(id: nat, isLearner: bool) | Promoting(id: nat) | Confirming(id: nat) | Removing

  datatype State = State(members: seq<Member>, inFlight: set<Request>, phase: Phase)

  /** `Deliver` lets a request in flight take effect, and `Lose` lets it fail; either may come
      before or after the process is told, or crashes. */
  datatype Action = Begin | SendPromotion | Told | Confirm | Crash | Deliver(request: Request, again: bool) | Lose(request: Request)

  predicate IsEnabled(s: State, a: Action) {
    match a
    case Begin => s.phase.Idle?
    case SendPromotion => s.phase.Picked?
    case Told => s.phase.Promoting? || s.phase.Removing?
    case Confirm => s.phase.Confirming?
    case Crash => true
    case Deliver(r, _) => r in s.inFlight
    case Lose(r) => r in s.inFlight
  }

  function Next(t: Task, s: State, a: Action): State
    requires IsEnabled(s, a)
  {
    match a
    case Begin =>
      (match Joined(s.members, t.url)
       case None => s
       case Some(m) => if m.id == t.oldId then s else s.(phase := Picked(m.id, m.isLearner)))
    case SendPromotion =>
      if s.phase.isLearner
      then s.(phase := Promoting(s.phase.id), inFlight := s.inFlight + {Promote(s.phase.id)})
      else s.(phase := Confirming(s.phase.id))
    case Told =>
      if s.phase.Promoting? then s.(phase := Confirming(s.phase.id)) else s.(phase := Idle)
    case Confirm =>
      if IsVoter(s.members, s.phase.id) && Has(s.members, t.oldId)
      then s.(phase := Removing, inFlight := s.inFlight + {Remove(t.oldId)})
      else s.(phase := Idle)
    case Crash => s.(phase := Idle)
    case Deliver(r, again) =>
      s.(members := Applied(s.members, r), inFlight := if again then s.inFlight else s.inFlight - {r})
    case Lose(r) => s.(inFlight := s.inFlight - {r})
  }

  /** What a run has to reckon with: the process may crash at any time and begins anew, and a
      request may take effect, once or more often, or be lost, whatever the process does. */
  lemma RunsAreDisturbed(t: Task, s: State, r: Request)
    requires r in s.inFlight
    ensures IsEnabled(s, Crash) && Next(t, s, Crash) == State(s.members, s.inFlight, Idle)
    ensures IsEnabled(s, Deliver(r, true)) && Next(t, s, Deliver(r, true)) == State(Applied(s.members, r), s.inFlight, s.phase)
    ensures IsEnabled(s, Deliver(r, false))
    ensures Next(t, s, Deliver(r, false)) == State(Applied(s.members, r), s.inFlight - {r}, s.phase)
    ensures IsEnabled(s, Lose(r)) && Next(t, s, Lose(r)) == State(s.members, s.inFlight - {r}, s.phase)
  {
  }

  predicate IsRun(t: Task, s: State, actions: seq<Action>)
    decreases |actions|
  {
    actions == [] || (IsEnabled(s, actions[0]) && IsRun(t, Next(t, s, actions[0]), actions[1..]))
  }

  function After(t: Task, s: State, actions: seq<Action>): State
    requires IsRun(t, s, actions)
    decreases |actions|
  {
    if actions == [] then s else After(t, Next(t, s, actions[0]), actions[1..])
  }

  // ------------------------------------------------------------- what a run can make of it

  ghost predicate HaveDistinctIds(members: seq<Member>) {
    forall i, j :: 0 <= i < j < |members| ==> members[i].id != members[j].id
  }

  lemma {:induction false} JoinedIn(m: seq<Member>, url: string)
    ensures Joined(m, url).Some? ==> Joined(m, url).value in m
  {
    if m == [] {
    } else {
      JoinedIn(m[1..], url);
    }
  }

  /** Neither change alters which member has the URL. */
  lemma {:induction false} PromotedJoined(m: seq<Member>, id: nat, url: string)
    requires Joined(m, url).Some?
    ensures Joined(Promoted(m, id), url).Some? && Joined(Promoted(m, id), url).value.id == Joined(m, url).value.id
  {
    if url in m[0].urls {
    } else {
      PromotedJoined(m[1..], id, url);
    }
  }

  lemma {:induction false} RemovedJoined(m: seq<Member>, id: nat, url: string)
    requires Joined(m, url).Some? && Joined(m, url).value.id != id
    ensures Joined(Removed(m, id), url) == Joined(m, url)
  {
    if url in m[0].urls {
    } else {
      RemovedJoined(m[1..], id, url);
      if m[0].id != id {
        assert ([m[0]] + Removed(m[1..], id))[1..] == Removed(m[1..], id);
      } else {
        assert [] + Removed(m[1..], id) == Removed(m[1..], id);
      }
    }
  }

  lemma {:induction false} PromotedVotes(m: seq<Member>, id: nat, who: nat)
    ensures IsVoter(Promoted(m, id), who) <==> IsVoter(m, who) || (who == id && Has(m, id))
    ensures |Promoted(m, id)| == |m|
  {
    forall i | 0 <= i < |m|
      ensures |Promoted(m, id)| == |m|
      ensures Promoted(m, id)[i] == if m[i].id == id then m[i].(isLearner := false) else m[i]
    {
      PromotedAt(m, id, i);
    }
    if m == [] {
      assert Promoted(m, id) == [];
    }
  }

  lemma {:induction false} PromotedAt(m: seq<Member>, id: nat, i: nat)
    requires i < |m|
    ensures |Promoted(m, id)| == |m|
    ensures Promoted(m, id)[i] == if m[i].id == id then m[i].(isLearner := false) else m[i]
  {
    if i > 0 {
      PromotedAt(m[1..], id, i - 1);
    } else if |m| > 1 {
      PromotedAt(m[1..], id, 0);
    }
  }

  lemma {:induction false} RemovedHas(m: seq<Member>, id: nat, x: Member)
    ensures x in Removed(m, id) <==> x in m && x.id != id
  {
    if m == [] {
    } else {
      RemovedHas(m[1..], id, x);
      assert m == [m[0]] + m[1..];
    }
  }

  lemma RemovedVotes(m: seq<Member>, id: nat, who: nat)
    ensures IsVoter(Removed(m, id), who) <==> IsVoter(m, who) && who != id
    ensures Has(Removed(m, id), who) <==> Has(m, who) && who != id
  {
    forall x: Member ensures x in Removed(m, id) <==> x in m && x.id != id {
      RemovedHas(m, id, x);
    }
    VoterIsMember(m, who);
    VoterIsMember(Removed(m, id), who);
  }

  lemma VoterIsMember(m: seq<Member>, who: nat)
    ensures IsVoter(m, who) <==> exists x :: x in m && x.id == who && !x.isLearner
    ensures Has(m, who) <==> exists x :: x in m && x.id == who
  {
    if IsVoter(m, who) {
      var i :| 0 <= i < |m| && m[i].id == who && !m[i].isLearner;
      assert m[i] in m;
    }
    if Has(m, who) {
      var i :| 0 <= i < |m| && m[i].id == who;
      assert m[i] in m;
    }
  }

  lemma DistinctTail(m: seq<Member>)
    requires HaveDistinctIds(m) && m != []
    ensures HaveDistinctIds(m[1..]) && !Has(m[1..], m[0].id)
  {
  }

  lemma {:induction false} VotersPromoted(m: seq<Member>, id: nat)
    requires HaveDistinctIds(m)
    ensures Voters(Promoted(m, id)) == Voters(m) + (if Has(m, id) && !IsVoter(m, id) then 1 else 0)
  {
    if m == [] {
    } else {
      DistinctTail(m);
      VotersPromoted(m[1..], id);
      HeadOrTail(m, id);
      if m[0].id == id {
        PromotedAbsent(m[1..], id);
      }
      assert Promoted(m, id)[1..] == Promoted(m[1..], id);
    }
  }

  lemma {:induction false} PromotedAbsent(m: seq<Member>, id: nat)
    requires !Has(m, id)
    ensures Promoted(m, id) == m
  {
    if m == [] {
    } else {
      HeadOrTail(m, id);
      PromotedAbsent(m[1..], id);
    }
  }

  lemma HeadOrTail(m: seq<Member>, id: nat)
    requires m != []
    ensures Has(m, id) <==> m[0].id == id || Has(m[1..], id)
    ensures IsVoter(m, id) <==> (m[0].id == id && !m[0].isLearner) || IsVoter(m[1..], id)
    ensures IsVoter(m[1..], id) ==> Has(m[1..], id)
  {
    forall i | 0 < i < |m| ensures m[1..][i - 1] == m[i] {}
    if Has(m[1..], id) {
      var i :| 0 <= i < |m| - 1 && m[1..][i].id == id;
      assert m[i + 1].id == id;
    }
    if IsVoter(m[1..], id) {
      var i :| 0 <= i < |m| - 1 && m[1..][i].id == id && !m[1..][i].isLearner;
      assert m[i + 1].id == id;
    }
  }

  lemma {:induction false} VotersRemoved(m: seq<Member>, id: nat)
    requires HaveDistinctIds(m)
    ensures Voters(Removed(m, id)) == Voters(m) - (if IsVoter(m, id) then 1 else 0)
  {
    if m == [] {
    } else {
      DistinctTail(m);
      VotersRemoved(m[1..], id);
      HeadOrTail(m, id);
      var rest := Removed(m[1..], id);
      assert [] + rest == rest && ([m[0]] + rest)[1..] == rest;
    }
  }

  lemma ChangedStayDistinct(m: seq<Member>, r: Request)
    requires HaveDistinctIds(m)
    ensures HaveDistinctIds(Applied(m, r))
  {
    if r.Promote? {
      forall i | 0 <= i < |m| ensures |Promoted(m, r.id)| == |m| && Promoted(m, r.id)[i].id == m[i].id {
        PromotedAt(m, r.id, i);
      }
      PromotedVotes(m, r.id, r.id);
    } else {
      RemovedStaysDistinct(m, r.id);
    }
  }

  lemma {:induction false} RemovedStaysDistinct(m: seq<Member>, id: nat)
    requires HaveDistinctIds(m)
    ensures HaveDistinctIds(Removed(m, id))
  {
    if m == [] {
    } else {
      DistinctTail(m);
      RemovedStaysDistinct(m[1..], id);
      var rest := Removed(m[1..], id);
      RemovedVotes(m[1..], id, m[0].id);
      if m[0].id != id {
        assert forall j :: 0 <= j < |rest| ==> rest[j].id != m[0].id;
        assert Removed(m, id) == [m[0]] + rest;
      } else {
        assert Removed(m, id) == rest;
      }
    }
  }

  // -------------------------------------------------------------------------- safety

  /** The old member votes, and another member joined under the URL. */
  ghost predicate IsStart(t: Task, s: State) {
    && HaveDistinctIds(s.members) && s.inFlight == {} && s.phase.Idle?
    && IsVoter(s.members, t.oldId)
    && Joined(s.members, t.url).Some? && Joined(s.members, t.url).value.id != t.oldId
  }

  function NewId(t: Task, members: seq<Member>): nat
    requires Joined(members, t.url).Some?
  {
    Joined(members, t.url).value.id
  }

  /** What every state of a run from `s0` keeps. */
  ghost predicate Inv(t: Task, s0: State, s: State)
    requires IsStart(t, s0)
  {
    var n := NewId(t, s0.members);
    && HaveDistinctIds(s.members)
    && Joined(s.members, t.url).Some? && NewId(t, s.members) == n
    && (forall r :: r in s.inFlight ==> r == Promote(n) || r == Remove(t.oldId))
    && (Remove(t.oldId) in s.inFlight || !Has(s.members, t.oldId) ==> IsVoter(s.members, n))
    && (Has(s.members, t.oldId) ==> IsVoter(s.members, t.oldId))
    && Has(s.members, n)
    && (IsVoter(s0.members, n) ==> IsVoter(s.members, n))
    && (s.phase.Picked? || s.phase.Promoting? || s.phase.Confirming? ==> s.phase.id == n)
    && Voters(s.members) == Voters(s0.members)
         + (if IsVoter(s.members, n) && !IsVoter(s0.members, n) then 1 else 0)
         - (if Has(s.members, t.oldId) then 0 else 1)
  }

  lemma JoinedIsMember(m: seq<Member>, url: string)
    requires Joined(m, url).Some?
    ensures Has(m, Joined(m, url).value.id)
  {
    JoinedIn(m, url);
    var i :| 0 <= i < |m| && m[i] == Joined(m, url).value;
    assert m[i].id == Joined(m, url).value.id;
  }

  lemma VoterIsThere(m: seq<Member>, id: nat)
    ensures IsVoter(m, id) ==> Has(m, id)
  {
  }

  lemma StartHasInv(t: Task, s0: State)
    requires IsStart(t, s0)
    ensures Inv(t, s0, s0)
  {
    JoinedIsMember(s0.members, t.url);
    VoterIsThere(s0.members, t.oldId);
  }

  lemma {:induction false} PromotedHas(m: seq<Member>, id: nat, who: nat)
    ensures Has(Promoted(m, id), who) <==> Has(m, who)
  {
    forall i | 0 <= i < |m| ensures |Promoted(m, id)| == |m| && Promoted(m, id)[i].id == m[i].id {
      PromotedAt(m, id, i);
    }
    PromotedVotes(m, id, who);
  }

  lemma PromotionKeepsInv(t: Task, s0: State, s: State, inFlight: set<Request>)
    requires IsStart(t, s0) && Inv(t, s0, s) && inFlight <= s.inFlight
    ensures Inv(t, s0, s.(members := Promoted(s.members, NewId(t, s0.members)), inFlight := inFlight))
  {
    var n := NewId(t, s0.members);
    ChangedStayDistinct(s.members, Promote(n));
    PromotedJoined(s.members, n, t.url);
    PromotedVotes(s.members, n, n);
    PromotedVotes(s.members, n, t.oldId);
    PromotedHas(s.members, n, n);
    PromotedHas(s.members, n, t.oldId);
    VotersPromoted(s.members, n);
  }

  lemma RemovalKeepsInv(t: Task, s0: State, s: State, inFlight: set<Request>)
    requires IsStart(t, s0) && Inv(t, s0, s) && inFlight <= s.inFlight && Remove(t.oldId) in s.inFlight
    ensures Inv(t, s0, s.(members := Removed(s.members, t.oldId), inFlight := inFlight))
  {
    var n := NewId(t, s0.members);
    ChangedStayDistinct(s.members, Remove(t.oldId));
    RemovedJoined(s.members, t.oldId, t.url);
    RemovedVotes(s.members, t.oldId, n);
    RemovedVotes(s.members, t.oldId, t.oldId);
    VoterIsThere(s.members, t.oldId);
    VotersRemoved(s.members, t.oldId);
  }

  lemma NextKeepsInv(t: Task, s0: State, s: State, a: Action)
    requires IsStart(t, s0) && Inv(t, s0, s) && IsEnabled(s, a)
    ensures Inv(t, s0, Next(t, s, a))
  {
    if a.Deliver? {
      var inFlight := if a.again then s.inFlight else s.inFlight - {a.request};
      if a.request.Promote? {
        PromotionKeepsInv(t, s0, s, inFlight);
      } else {
        RemovalKeepsInv(t, s0, s, inFlight);
      }
    }
  }

  lemma {:induction false} RunKeepsInv(t: Task, s0: State, s: State, actions: seq<Action>)
    requires IsStart(t, s0) && Inv(t, s0, s) && IsRun(t, s, actions)
    ensures Inv(t, s0, After(t, s, actions))
    decreases |actions|
  {
    if actions == [] {
    } else {
      NextKeepsInv(t, s0, s, actions[0]);
      RunKeepsInv(t, s0, Next(t, s, actions[0]), actions[1..]);
    }
  }

  /** Through crashes, retries and late requests, the old member is present or the new one
      votes; and while the new one started as a learner, no vote is ever missing. */
  lemma ReplacementIsSafe(t: Task, s0: State, actions: seq<Action>)
    requires IsStart(t, s0) && IsRun(t, s0, actions)
    ensures var s, n := After(t, s0, actions), NewId(t, s0.members);
      && (Has(s.members, t.oldId) || IsVoter(s.members, n))
      && (!IsVoter(s0.members, n) ==> Voters(s.members) >= Voters(s0.members))
      && (IsVoter(s0.members, n) ==> Voters(s.members) >= Voters(s0.members) - 1)
  {
    StartHasInv(t, s0);
    RunKeepsInv(t, s0, s0, actions);
  }

  lemma Then(t: Task, s: State, a: Action, u: State, rest: seq<Action>)
    requires IsEnabled(s, a) && Next(t, s, a) == u && IsRun(t, u, rest)
    ensures IsRun(t, s, [a] + rest) && After(t, s, [a] + rest) == After(t, u, rest)
  {
    assert ([a] + rest)[1..] == rest;
  }

  /** The process refuses to remove the member that joined, and does nothing if none did. */
  lemma {:induction false} RefusesToRemoveItself(t: Task, s: State, actions: seq<Action>)
    requires s.inFlight == {} && s.phase.Idle? && IsRun(t, s, actions)
    requires Joined(s.members, t.url).Some? ==> Joined(s.members, t.url).value.id == t.oldId
    ensures After(t, s, actions) == s
    decreases |actions|
  {
    if actions == [] {
    } else {
      assert Next(t, s, actions[0]) == s;
      RefusesToRemoveItself(t, s, actions[1..]);
    }
  }

  lemma ChangedKeepsOthers(m: seq<Member>, r: Request, x: Member)
    requires x.id != r.id
    ensures x in Applied(m, r) <==> x in m
  {
    if r.Promote? {
      PromotedVotes(m, r.id, r.id);
      forall i | 0 <= i < |m| ensures Promoted(m, r.id)[i] == if m[i].id == r.id then m[i].(isLearner := false) else m[i] {
        PromotedAt(m, r.id, i);
      }
      if x in m {
        var i :| 0 <= i < |m| && m[i] == x;
        assert Promoted(m, r.id)[i] == x;
      }
    } else {
      RemovedHas(m, r.id, x);
    }
  }

  /** No run touches any other member. */
  lemma {:induction false} OthersAreUntouched(t: Task, s0: State, s: State, actions: seq<Action>, x: Member)
    requires IsStart(t, s0) && Inv(t, s0, s) && IsRun(t, s, actions)
    requires x.id != t.oldId && x.id != NewId(t, s0.members)
    ensures x in After(t, s, actions).members <==> x in s.members
    decreases |actions|
  {
    if actions == [] {
    } else {
      NextKeepsInv(t, s0, s, actions[0]);
      if actions[0].Deliver? {
        ChangedKeepsOthers(s.members, actions[0].request, x);
      }
      OthersAreUntouched(t, s0, Next(t, s, actions[0]), actions[1..], x);
    }
  }

  /** Undisturbed, the replacement of a member by a learner ends with the learner voting, the
      old member gone and as many votes as before. */
  lemma LearnerReplacementCompletes(t: Task, s0: State) returns (actions: seq<Action>)
    requires IsStart(t, s0) && Joined(s0.members, t.url).value.isLearner
    ensures IsRun(t, s0, actions)
    ensures var s := After(t, s0, actions);
      && s.phase.Idle? && s.inFlight == {}
      && IsVoter(s.members, NewId(t, s0.members)) && !Has(s.members, t.oldId)
      && Voters(s.members) == Voters(s0.members)
  {
    var n := NewId(t, s0.members);
    var promoted := Promoted(s0.members, n);
    var s1 := s0.(phase := Picked(n, true));
    var s2 := s0.(phase := Promoting(n), inFlight := {Promote(n)});
    var s3 := State(promoted, {}, Promoting(n));
    var s4 := s3.(phase := Confirming(n));
    var s5 := s3.(phase := Removing, inFlight := {Remove(t.oldId)});
    var s6 := State(Removed(promoted, t.oldId), {}, Removing);
    var s7 := s6.(phase := Idle);
    JoinedIsMember(s0.members, t.url);
    VoterIsThere(s0.members, t.oldId);
    PromotedVotes(s0.members, n, n);
    PromotedHas(s0.members, n, t.oldId);
    assert {} + {Promote(n)} == {Promote(n)} && {Promote(n)} - {Promote(n)} == {};
    assert {} + {Remove(t.oldId)} == {Remove(t.oldId)} && {Remove(t.oldId)} - {Remove(t.oldId)} == {};
    var a6 := [Told] + [];
    Then(t, s6, Told, s7, []);
    var a5 := [Deliver(Remove(t.oldId), false)] + a6;
    Then(t, s5, Deliver(Remove(t.oldId), false), s6, a6);
    var a4 := [Confirm] + a5;
    Then(t, s4, Confirm, s5, a5);
    var a3 := [Told] + a4;
    Then(t, s3, Told, s4, a4);
    var a2 := [Deliver(Promote(n), false)] + a3;
    Then(t, s2, Deliver(Promote(n), false), s3, a3);
    var a1 := [SendPromotion] + a2;
    Then(t, s1, SendPromotion, s2, a2);
    Then(t, s0, Begin, s1, a1);
    actions := [Begin] + a1;
    CompletedVotes(t, s0, actions, s7);
  }

  lemma CompletedVotes(t: Task, s0: State, actions: seq<Action>, s: State)
    requires IsStart(t, s0) && Joined(s0.members, t.url).value.isLearner && IsRun(t, s0, actions)
    requires s == After(t, s0, actions) && s.members == Removed(Promoted(s0.members, NewId(t, s0.members)), t.oldId)
    ensures IsVoter(s.members, NewId(t, s0.members)) && !Has(s.members, t.oldId)
    ensures Voters(s.members) == Voters(s0.members)
  {
    StartHasInv(t, s0);
    RunKeepsInv(t, s0, s0, actions);
    RemovedVotes(Promoted(s0.members, NewId(t, s0.members)), t.oldId, t.oldId);
    JoinedVotes(s0.members, t.url);
  }

  /** If the new member already votes, a plain replacement leaves one vote fewer. */
  lemma VoterReplacementLosesAVote(t: Task, s0: State) returns (actions: seq<Action>)
    requires IsStart(t, s0) && !Joined(s0.members, t.url).value.isLearner
    ensures IsRun(t, s0, actions) && Voters(After(t, s0, actions).members) == Voters(s0.members) - 1
  {
    var n := NewId(t, s0.members);
    var s1 := s0.(phase := Picked(n, false));
    var s2 := s0.(phase := Confirming(n));
    var s3 := s0.(phase := Removing, inFlight := {Remove(t.oldId)});
    var s4 := s0.(phase := Removing, members := Removed(s0.members, t.oldId), inFlight := {});
    VoterIsThere(s0.members, t.oldId);
    JoinedVotes(s0.members, t.url);
    assert s0.inFlight + {Remove(t.oldId)} == {Remove(t.oldId)} && {Remove(t.oldId)} - {Remove(t.oldId)} == {};
    Then(t, s3, Deliver(Remove(t.oldId), false), s4, []);
    Then(t, s2, Confirm, s3, [Deliver(Remove(t.oldId), false)] + []);
    Then(t, s1, SendPromotion, s2, [Confirm] + ([Deliver(Remove(t.oldId), false)] + []));
    Then(t, s0, Begin, s1, [SendPromotion] + ([Confirm] + ([Deliver(Remove(t.oldId), false)] + [])));
    actions := [Begin] + ([SendPromotion] + ([Confirm] + ([Deliver(Remove(t.oldId), false)] + [])));
    VotersRemoved(s0.members, t.oldId);
  }

  lemma JoinedVotes(m: seq<Member>, url: string)
    requires HaveDistinctIds(m) && Joined(m, url).Some?
    ensures IsVoter(m, Joined(m, url).value.id) <==> !Joined(m, url).value.isLearner
  {
    JoinedIn(m, url);
    var j := Joined(m, url).value;
    var i :| 0 <= i < |m| && m[i] == j;
    if IsVoter(m, j.id) {
      var k :| 0 <= k < |m| && m[k].id == j.id && !m[k].isLearner;
      assert k == i;
    } else {
      assert m[i].id == j.id;
    }
  }

  /** No run ever has fewer votes than at its start if and only if the new member joined as a
      learner that has not been promoted yet. */
  lemma VotesAreKeptExactlyWhen(t: Task, s0: State)
    requires IsStart(t, s0)
    ensures (forall actions :: IsRun(t, s0, actions) ==> Voters(After(t, s0, actions).members) >= Voters(s0.members))
       <==> Joined(s0.members, t.url).value.isLearner
  {
    JoinedVotes(s0.members, t.url);
    if Joined(s0.members, t.url).value.isLearner {
      forall actions | IsRun(t, s0, actions) ensures Voters(After(t, s0, actions).members) >= Voters(s0.members) {
        ReplacementIsSafe(t, s0, actions);
      }
    } else {
      var actions := VoterReplacementLosesAVote(t, s0);
      assert IsRun(t, s0, actions);
    }
  }
}
