/** The installation flags a node remembers: how the flags of an invocation merge into the
    saved ones, and what a restart under sudo saves. */
module InstallFlags {
  import opened Text
  import opened Wrappers

  // ------------------------------------------------------------------ reading an argument

  const REMOVE := "--remove-control-plane"
  const SOURCE := "--source"
  const TAG := "--tag"

  /** Kept from one invocation to the next: installation choices, not one-shot controls. */
  predicate IsPersisted(arg: string) {
    && StartsWith(arg, "--")
    && arg != "--help" && arg != "--e2e" && arg != "--e2e-list" && arg != "--e2e-needs-drivers"
    && arg != REMOVE && arg != "--uninstall" && arg != "--update"
    && !StartsWith(arg, "--only=") && !StartsWith(arg, "--shard=")
  }

  /** What a flag chooses: two flags with the same key choose the same thing. */
  function FlagKey(arg: string): Option<string> {
    if !IsPersisted(arg) then None
    else if arg == "--from-source" || arg == "--force-source-build" || arg == "--release" || StartsWith(arg, "--source=")
    then Some(SOURCE)
    else if StartsWith(arg, "--tag=") then Some(TAG)
    else if arg == "--without-flannel" || StartsWith(arg, "--cni=") then Some("--cni")
    else if arg == "--without-cri" then Some("--cri")
    else
      match SplitOnce(arg, '=')
      case None => Some(arg)
      case Some((name, _)) => Some(name)
  }

  predicate IsRole(arg: string) { arg == "--worker" || arg == "--control-plane" || arg == REMOVE }

  /** A control acts once. A role is one of two exclusive ones, and a removal ends both. Any
      other flag sets the choice its key names. */
  datatype Kind = Control | Removal | Role | Setting(key: string)

  datatype Flag = Flag(text: string, kind: Kind)

  function Classify(arg: string): Kind {
    if IsRole(arg) then if arg == REMOVE then Removal else Role
    else match FlagKey(arg)
      case None => Control
      case Some(key) => Setting(key)
  }

  function Flags(args: seq<string>): (flags: seq<Flag>)
    ensures |flags| == |args|
    ensures forall i :: 0 <= i < |args| ==> flags[i] == Flag(args[i], Classify(args[i]))
  {
    if args == [] then [] else Flags(args[..|args| - 1]) + [Flag(args[|args| - 1], Classify(args[|args| - 1]))]
  }

  predicate IsKept(f: Flag) { f.kind.Role? || f.kind.Setting? }

  predicate IsRoleFlag(f: Flag) { f.kind.Role? || f.kind.Removal? }

  function KeyOf(f: Flag): Option<string> {
    match f.kind
    case Setting(key) => Some(key)
    case Role => Some(f.text)
    case _ => None
  }

  // -------------------------------------------------------------------------- merging

  /** Whether a merged flag stays when `f` is merged in after it. */
  predicate Survives(g: Flag, f: Flag) {
    match f.kind
    case Control => true
    case Setting(key) => KeyOf(g) != Some(key) && !(key == SOURCE && KeyOf(g) == Some(TAG))
    case _ => !IsRoleFlag(g)
  }

  function Keep(m: seq<Flag>, f: Flag): seq<Flag> {
    if m == [] then []
    else Keep(m[..|m| - 1], f) + if Survives(m[|m| - 1], f) then [m[|m| - 1]] else []
  }

  function Own(f: Flag): seq<Flag> { if IsKept(f) then [f] else [] }

  function Step(m: seq<Flag>, f: Flag): seq<Flag> { Keep(m, f) + Own(f) }

  function MergeAll(m: seq<Flag>, current: seq<Flag>): seq<Flag> {
    if current == [] then m else Step(MergeAll(m, current[..|current| - 1]), current[|current| - 1])
  }

  function ReadStep(m: seq<Flag>, f: Flag): seq<Flag> {
    if !IsKept(f) then m else if IsRoleFlag(f) then Keep(m, f) + [f] else m + [f]
  }

  /** The saved flags as they are read back: later roles replace earlier ones. */
  function Saved(previous: seq<Flag>): seq<Flag> {
    if previous == [] then []
    else ReadStep(Saved(previous[..|previous| - 1]), previous[|previous| - 1])
  }

  function Merge(previous: seq<Flag>, current: seq<Flag>): seq<Flag> { MergeAll(Saved(previous), current) }

  function Controls(current: seq<Flag>): seq<Flag> {
    if current == [] then []
    else Controls(current[..|current| - 1]) + if IsKept(current[|current| - 1]) then [] else [current[|current| - 1]]
  }

  /** The arguments an invocation acts on, and restarts with under sudo. */
  function Effective(previous: seq<Flag>, current: seq<Flag>): seq<Flag> {
    Merge(previous, current) + Controls(current)
  }

  // ----------------------------------------------------------------- the texts of the flags

  /** The arguments that act once and are never saved. */
  predicate ActsOnce(arg: string) {
    || arg in {"--help", "--e2e", "--e2e-list", "--e2e-needs-drivers"}
    || arg in {"--remove-control-plane", "--uninstall", "--update"}
    || StartsWith(arg, "--only=") || StartsWith(arg, "--shard=")
  }

  lemma PersistsExactlyWhen(arg: string)
    ensures IsPersisted(arg) <==> StartsWith(arg, "--") && !ActsOnce(arg)
  {
  }

  /** What a flag sets, told from its text. */
  datatype Choice = Source | Tag | Network | Runtime | Named(name: string)

  function ChoiceOf(arg: string): Choice {
    if arg in {"--from-source", "--force-source-build", "--release"} || StartsWith(arg, "--source=") then Source
    else if StartsWith(arg, "--tag=") then Tag
    else if arg == "--without-flannel" || StartsWith(arg, "--cni=") then Network
    else if arg == "--without-cri" then Runtime
    else Named(Split(arg, '=')[0])
  }

  function KeyText(c: Choice): string {
    match c
    case Source => "--source"
    case Tag => "--tag"
    case Network => "--cni"
    case Runtime => "--cri"
    case Named(name) => name
  }

  /** Every flag that is saved has the key of what it sets, and nothing else has a key. */
  lemma KeyIsChoice(arg: string)
    ensures FlagKey(arg) == if StartsWith(arg, "--") && !ActsOnce(arg) then Some(KeyText(ChoiceOf(arg))) else None
  {
    PersistsExactlyWhen(arg);
    if SplitOnce(arg, '=').None? {
      assert Split(arg, '=') == [arg];
    }
  }

  /** The roles are these two texts, and their removal a third. */
  lemma RolesAre(arg: string)
    ensures Classify(arg).Role? <==> arg == "--worker" || arg == "--control-plane"
    ensures Classify(arg).Removal? <==> arg == "--remove-control-plane"
    ensures Classify(arg).Control? <==> arg != "--remove-control-plane" && (!StartsWith(arg, "--") || ActsOnce(arg))
  {
    PersistsExactlyWhen(arg);
    if arg == "--worker" || arg == "--control-plane" {
      NamesPersist(arg);
    }
  }

  // --------------------------------------------------------------- what is saved is clean

  /** Only kept flags, none of which a later one would have removed. */
  ghost predicate IsClean(m: seq<Flag>) {
    && (forall i :: 0 <= i < |m| ==> IsKept(m[i]))
    && (forall i, j :: 0 <= i < j < |m| ==> Survives(m[i], m[j]))
  }

  lemma {:induction false} KeepIsClean(m: seq<Flag>, f: Flag)
    requires IsClean(m)
    ensures IsClean(Keep(m, f))
    ensures forall i :: 0 <= i < |Keep(m, f)| ==> Keep(m, f)[i] in m && Survives(Keep(m, f)[i], f)
  {
    if m == [] {
    } else {
      var n := |m| - 1;
      KeepIsClean(m[..n], f);
      var kept := Keep(m[..n], f);
      forall i | 0 <= i < |kept| ensures Survives(kept[i], m[n]) && kept[i] in m {
        assert kept[i] in m[..n];
      }
    }
  }

  lemma StepIsClean(m: seq<Flag>, f: Flag)
    requires IsClean(m)
    ensures IsClean(Step(m, f))
  {
    KeepIsClean(m, f);
  }

  lemma {:induction false} MergeAllIsClean(m: seq<Flag>, current: seq<Flag>)
    requires IsClean(m)
    ensures IsClean(MergeAll(m, current))
  {
    if current == [] {
    } else {
      MergeAllIsClean(m, current[..|current| - 1]);
      StepIsClean(MergeAll(m, current[..|current| - 1]), current[|current| - 1]);
    }
  }

  /** What was saved is read back unchanged. */
  lemma {:induction false} SavedIsSame(m: seq<Flag>)
    requires IsClean(m)
    ensures Saved(m) == m
  {
    if m == [] {
    } else {
      CleanLast(m);
      SavedIsSame(m[..|m| - 1]);
    }
  }

  /** Merging the last of clean flags into those before it only adds it. */
  lemma CleanLast(m: seq<Flag>)
    requires IsClean(m) && m != []
    ensures var n := |m| - 1;
      IsClean(m[..n]) && IsKept(m[n]) && Keep(m[..n], m[n]) == m[..n] && m[..n] + [m[n]] == m
  {
    KeepsAll(m[..|m| - 1], m[|m| - 1]);
  }

  lemma {:induction false} KeepsAll(m: seq<Flag>, f: Flag)
    requires forall i :: 0 <= i < |m| ==> Survives(m[i], f)
    ensures Keep(m, f) == m
  {
    if m == [] {
    } else {
      KeepsAll(m[..|m| - 1], f);
      assert m[..|m| - 1] + [m[|m| - 1]] == m;
    }
  }

  /** The flags saved after a sequence of invocations, the first on a node without any. */
  function SavedAfter(invocations: seq<seq<Flag>>): seq<Flag> {
    if invocations == [] then []
    else Merge(SavedAfter(invocations[..|invocations| - 1]), invocations[|invocations| - 1])
  }

  lemma {:induction false} SavedAfterIsClean(invocations: seq<seq<Flag>>)
    ensures IsClean(SavedAfter(invocations))
  {
    if invocations == [] {
    } else {
      var before := SavedAfter(invocations[..|invocations| - 1]);
      SavedAfterIsClean(invocations[..|invocations| - 1]);
      SavedIsSame(before);
      MergeAllIsClean(before, invocations[|invocations| - 1]);
    }
  }

  /** What is read back of any saved list: the kept flags in order, but for the roles that a
      later kept role replaces. */
  function LastRoleOnly(p: seq<Flag>): seq<Flag>
    decreases |p|
  {
    if p == [] then []
    else (if IsKept(p[0]) && !(p[0].kind.Role? && RoleComes(p[1..])) then [p[0]] else []) + LastRoleOnly(p[1..])
  }

  predicate RoleComes(p: seq<Flag>) { exists i :: 0 <= i < |p| && p[i].kind.Role? }

  function RolesOut(p: seq<Flag>): seq<Flag>
    decreases |p|
  {
    if p == [] then []
    else (if IsKept(p[0]) && !p[0].kind.Role? then [p[0]] else []) + RolesOut(p[1..])
  }

  lemma RoleComesPush(p: seq<Flag>, f: Flag)
    ensures RoleComes(p + [f]) <==> RoleComes(p) || f.kind.Role?
  {
    assert (p + [f])[|p|] == f;
    if RoleComes(p) {
      var i :| 0 <= i < |p| && p[i].kind.Role?;
      assert (p + [f])[i] == p[i];
    }
  }

  lemma {:induction false} LastRolePush(p: seq<Flag>, f: Flag)
    ensures LastRoleOnly(p + [f])
         == if !IsKept(f) then LastRoleOnly(p) else (if f.kind.Role? then RolesOut(p) else LastRoleOnly(p)) + [f]
    decreases |p|
  {
    if p == [] {
      assert ([] + [f])[1..] == [];
    } else {
      assert (p + [f])[1..] == p[1..] + [f];
      LastRolePush(p[1..], f);
      RoleComesPush(p[1..], f);
    }
  }

  lemma KeepFew(g: Flag, f: Flag)
    ensures Keep([g], f) == (if Survives(g, f) then [g] else []) && Keep([], f) == []
  {
    assert [g][..0] == [];
  }

  lemma {:induction false} DroppingRoles(p: seq<Flag>, f: Flag)
    requires f.kind.Role?
    ensures Keep(LastRoleOnly(p), f) == RolesOut(p)
    decreases |p|
  {
    if p == [] {
    } else {
      DroppingRoles(p[1..], f);
      hide Keep, RoleComes;
      var head := if IsKept(p[0]) && !(p[0].kind.Role? && RoleComes(p[1..])) then [p[0]] else [];
      KeepOfSum(head, LastRoleOnly(p[1..]), f);
      KeepFew(p[0], f);
    }
  }

  lemma {:induction false} SavedIsLastRoleOnly(p: seq<Flag>)
    ensures Saved(p) == LastRoleOnly(p)
  {
    if p == [] {
    } else {
      var front, f := p[..|p| - 1], p[|p| - 1];
      SavedIsLastRoleOnly(front);
      LastRolePush(front, f);
      assert front + [f] == p;
      if f.kind.Role? {
        DroppingRoles(front, f);
      }
    }
  }

  /** No flag sets a choice named like a role; the argument parser rejects such flags. */
  predicate IsAccepted(f: Flag) {
    f.kind.Setting? ==> f.kind.key != "--worker" && f.kind.key != "--control-plane"
  }

  ghost predicate AreAccepted(c: seq<Flag>) { forall i :: 0 <= i < |c| ==> IsAccepted(c[i]) && IsNamed(c[i]) }

  /** A role flag is one of the two roles. */
  predicate IsNamed(f: Flag) { f.kind.Role? ==> f.text == "--worker" || f.text == "--control-plane" }

  /** Clean flags are those with distinct keys, at most one role, and no tag left before a
      source choice that would override it. */
  lemma CleanMeans(m: seq<Flag>)
    requires forall i :: 0 <= i < |m| ==> IsKept(m[i]) && IsAccepted(m[i]) && IsNamed(m[i])
    ensures IsClean(m) <==>
      && (forall i, j :: 0 <= i < j < |m| ==> KeyOf(m[i]) != KeyOf(m[j]))
      && (forall i, j :: 0 <= i < j < |m| ==> !(m[i].kind.Role? && m[j].kind.Role?))
      && (forall i, j :: 0 <= i < j < |m| ==> !(KeyOf(m[i]) == Some(TAG) && KeyOf(m[j]) == Some(SOURCE)))
  {
    forall i, j | 0 <= i < j < |m|
      ensures Survives(m[i], m[j]) <==>
        && KeyOf(m[i]) != KeyOf(m[j])
        && !(m[i].kind.Role? && m[j].kind.Role?)
        && !(KeyOf(m[i]) == Some(TAG) && KeyOf(m[j]) == Some(SOURCE))
    {
      KeysClash(m[i], m[j]);
    }
  }

  lemma KeysClash(g: Flag, f: Flag)
    requires IsKept(g) && IsAccepted(g) && IsNamed(g) && IsKept(f) && IsAccepted(f) && IsNamed(f)
    ensures Survives(g, f) <==>
      && KeyOf(g) != KeyOf(f)
      && !(g.kind.Role? && f.kind.Role?)
      && !(KeyOf(g) == Some(TAG) && KeyOf(f) == Some(SOURCE))
  {
    assert "--worker"[2] != "--source"[2] && "--control-plane"[2] != "--source"[2];
  }

  // ------------------------------------------------------------------ algebra of merging

  /** The members of `m` that stay through all of `current`. */
  function KeepAll(m: seq<Flag>, current: seq<Flag>): seq<Flag> {
    if current == [] then m else Keep(KeepAll(m, current[..|current| - 1]), current[|current| - 1])
  }

  lemma {:induction false} KeepOfSum(a: seq<Flag>, b: seq<Flag>, f: Flag)
    ensures Keep(a + b, f) == Keep(a, f) + Keep(b, f)
  {
    if b == [] {
      assert a + b == a;
    } else {
      var n := |b| - 1;
      assert (a + b)[..|a + b| - 1] == a + b[..n];
      KeepOfSum(a, b[..n], f);
    }
  }

  lemma Associates(a: seq<Flag>, b: seq<Flag>, c: seq<Flag>)
    ensures (a + b) + c == a + (b + c)
  {
  }

  /** Merging keeps what survives of the old flags and adds what the new ones make alone. */
  lemma {:induction false} MergeSplits(m: seq<Flag>, current: seq<Flag>)
    ensures MergeAll(m, current) == KeepAll(m, current) + MergeAll([], current)
  {
    if current == [] {
      assert m + [] == m;
    } else {
      var before, f := current[..|current| - 1], current[|current| - 1];
      MergeSplits(m, before);
      KeepOfSum(KeepAll(m, before), MergeAll([], before), f);
      Associates(KeepAll(m, current), Keep(MergeAll([], before), f), Own(f));
    }
  }

  lemma {:induction false} MergeInTwo(m: seq<Flag>, c: seq<Flag>, d: seq<Flag>)
    ensures MergeAll(m, c + d) == MergeAll(MergeAll(m, c), d)
  {
    if d == [] {
      assert c + d == c;
    } else {
      assert (c + d)[..|c + d| - 1] == c + d[..|d| - 1];
      MergeInTwo(m, c, d[..|d| - 1]);
    }
  }

  /** Some flag of `current` removes `g`. */
  predicate IsRemoved(g: Flag, current: seq<Flag>) { exists i :: 0 <= i < |current| && !Survives(g, current[i]) }

  lemma {:induction false} KeepsSurvivors(m: seq<Flag>, f: Flag, g: Flag)
    ensures g in Keep(m, f) <==> g in m && Survives(g, f)
  {
    if m == [] {
    } else {
      KeepsSurvivors(m[..|m| - 1], f, g);
      assert m == m[..|m| - 1] + [m[|m| - 1]];
    }
  }

  lemma {:induction false} KeepAllSurvivors(m: seq<Flag>, current: seq<Flag>, g: Flag)
    ensures g in KeepAll(m, current) <==> g in m && !IsRemoved(g, current)
  {
    if current == [] {
    } else {
      var n := |current| - 1;
      KeepAllSurvivors(m, current[..n], g);
      KeepsSurvivors(KeepAll(m, current[..n]), current[n], g);
      RemovedByLast(g, current);
    }
  }

  lemma RemovedByLast(g: Flag, current: seq<Flag>)
    requires current != []
    ensures IsRemoved(g, current) <==> IsRemoved(g, current[..|current| - 1]) || !Survives(g, current[|current| - 1])
  {
    var n := |current| - 1;
    if IsRemoved(g, current) {
      var i :| 0 <= i < |current| && !Survives(g, current[i]);
      if i < n { assert !Survives(g, current[..n][i]); }
    }
    if IsRemoved(g, current[..n]) {
      var i :| 0 <= i < n && !Survives(g, current[..n][i]);
      assert !Survives(g, current[i]);
    }
  }

  lemma {:induction false} KeepAllOfSurvivors(m: seq<Flag>, current: seq<Flag>)
    requires forall g :: g in m ==> !IsRemoved(g, current)
    ensures KeepAll(m, current) == m
  {
    if current == [] {
    } else {
      var n := |current| - 1;
      forall g | g in m ensures !IsRemoved(g, current[..n]) && Survives(g, current[n]) {
        RemovedByLast(g, current);
      }
      KeepAllOfSurvivors(m, current[..n]);
      KeepsAll(m, current[n]);
    }
  }

  /** What the new flags make alone is some of them. */
  lemma {:induction false} OwnAreCurrent(current: seq<Flag>, g: Flag)
    ensures g in MergeAll([], current) ==> g in current && IsKept(g)
  {
    if current == [] {
    } else {
      var n := |current| - 1;
      OwnAreCurrent(current[..n], g);
      KeepsSurvivors(MergeAll([], current[..n]), current[n], g);
    }
  }

  lemma {:induction false} NothingKept(m: seq<Flag>, current: seq<Flag>)
    requires forall g :: g in m ==> IsRemoved(g, current)
    ensures KeepAll(m, current) == []
  {
    if KeepAll(m, current) != [] {
      KeepAllSurvivors(m, current, KeepAll(m, current)[0]);
    }
  }

  /** A kept flag of `current` that no later one removes. */
  ghost predicate Stays(g: Flag, current: seq<Flag>) {
    exists i :: 0 <= i < |current| && IsLastOfIts(g, current, i)
  }

  ghost predicate IsLastOfIts(g: Flag, current: seq<Flag>, i: nat)
    requires i < |current|
  {
    current[i] == g && IsKept(g) && !IsRemoved(g, current[i + 1..])
  }

  lemma LastOfFront(g: Flag, current: seq<Flag>, i: nat)
    requires i < |current| - 1
    ensures IsLastOfIts(g, current, i)
       <==> IsLastOfIts(g, current[..|current| - 1], i) && Survives(g, current[|current| - 1])
  {
    var n := |current| - 1;
    var rest := current[i + 1..];
    RemovedByLast(g, rest);
    assert rest[..|rest| - 1] == current[..n][i + 1..] && rest[|rest| - 1] == current[n];
  }

  lemma StaysByLast(g: Flag, current: seq<Flag>)
    requires current != []
    ensures var n := |current| - 1;
      Stays(g, current) <==> (Stays(g, current[..n]) && Survives(g, current[n])) || (current[n] == g && IsKept(g))
  {
    var n := |current| - 1;
    assert IsLastOfIts(g, current, n) <==> current[n] == g && IsKept(g);
    forall i | 0 <= i < n
      ensures IsLastOfIts(g, current, i) <==> IsLastOfIts(g, current[..n], i) && Survives(g, current[n])
    {
      LastOfFront(g, current, i);
    }
  }

  /** What a merge saves: the flags from before that no current one removes, and the current
      ones that no later one removes. */
  lemma {:induction false} MergedAre(m: seq<Flag>, current: seq<Flag>, g: Flag)
    ensures g in MergeAll(m, current) <==> (g in m && !IsRemoved(g, current)) || Stays(g, current)
  {
    if current == [] {
    } else {
      var n := |current| - 1;
      MergedAre(m, current[..n], g);
      KeepsSurvivors(MergeAll(m, current[..n]), current[n], g);
      RemovedByLast(g, current);
      StaysByLast(g, current);
    }
  }

  /** Merging the same arguments again changes nothing. */
  lemma MergeIsIdempotent(p: seq<Flag>, c: seq<Flag>)
    requires IsClean(p)
    ensures Merge(Merge(p, c), c) == Merge(p, c)
  {
    var kept, own := KeepAll(p, c), MergeAll([], c);
    SavedIsSame(p);
    MergeAllIsClean(p, c);
    SavedIsSame(Merge(p, c));
    MergeSplits(p, c);
    MergeSplits(kept + own, c);
    KeepAllOfSum(kept, own, c);
    forall g | g in kept ensures !IsRemoved(g, c) {
      KeepAllSurvivors(p, c, g);
    }
    KeepAllOfSurvivors(kept, c);
    forall g | g in own ensures IsRemoved(g, c) {
      OwnAreCurrent(c, g);
      RemovesItself(g, c);
    }
    NothingKept(own, c);
    assert kept + [] == kept;
  }

  lemma RemovesItself(g: Flag, c: seq<Flag>)
    requires g in c && IsKept(g)
    ensures IsRemoved(g, c)
  {
    var i :| 0 <= i < |c| && c[i] == g;
    assert !Survives(g, c[i]);
  }

  lemma {:induction false} KeepAllOfSum(a: seq<Flag>, b: seq<Flag>, c: seq<Flag>)
    ensures KeepAll(a + b, c) == KeepAll(a, c) + KeepAll(b, c)
  {
    if c == [] {
    } else {
      KeepAllOfSum(a, b, c[..|c| - 1]);
      KeepOfSum(KeepAll(a, c[..|c| - 1]), KeepAll(b, c[..|c| - 1]), c[|c| - 1]);
    }
  }

  /** Two invocations save what one with both their arguments would. */
  lemma MergesCompose(p: seq<Flag>, c: seq<Flag>, d: seq<Flag>)
    requires IsClean(p)
    ensures Merge(Merge(p, c), d) == Merge(p, c + d)
  {
    SavedIsSame(p);
    MergeAllIsClean(p, c);
    SavedIsSame(Merge(p, c));
    MergeInTwo(p, c, d);
  }

  // ------------------------------------------------------------------ restarting as root

  predicate HasRemoval(c: seq<Flag>) { exists i :: 0 <= i < |c| && c[i].kind.Removal? }

  /** Clean flags merged from nothing are themselves. */
  lemma {:induction false} CleanMergesToItself(m: seq<Flag>)
    requires IsClean(m)
    ensures MergeAll([], m) == m
  {
    if m == [] {
    } else {
      CleanLast(m);
      CleanMergesToItself(m[..|m| - 1]);
    }
  }

  /** Every flag the arguments remove is also removed by what they leave and their controls. */
  lemma {:induction false} RemovedByWhatIsLeft(g: Flag, c: seq<Flag>)
    requires IsKept(g) && IsRemoved(g, c) && AreAccepted(c)
    ensures IsRemoved(g, MergeAll([], c)) || IsRemoved(g, Controls(c))
  {
    var n := |c| - 1;
    var before, f := c[..n], c[n];
    RemovedByLast(g, c);
    if !Survives(g, f) {
      if IsKept(f) {
        RemovedByMember(g, f, MergeAll([], c), |MergeAll([], c)| - 1);
      } else {
        RemovedByMember(g, f, Controls(c), |Controls(c)| - 1);
      }
    } else {
      RemovedByWhatIsLeft(g, before);
      if IsRemoved(g, Controls(before)) {
        var i :| 0 <= i < |Controls(before)| && !Survives(g, Controls(before)[i]);
        RemovedByMember(g, Controls(before)[i], Controls(c), i);
      } else {
        var own := MergeAll([], before);
        var i :| 0 <= i < |own| && !Survives(g, own[i]);
        OwnAreCurrent(before, own[i]);
        KeepsSurvivors(own, f, own[i]);
        SurvivorsRemover(g, own[i], f);
        var j :| 0 <= j < |Keep(own, f)| && Keep(own, f)[j] == own[i];
        RemovedByMember(g, own[i], MergeAll([], c), j);
      }
    }
  }

  lemma RemovedByMember(g: Flag, f: Flag, m: seq<Flag>, i: nat)
    requires i < |m| && m[i] == f && !Survives(g, f)
    ensures IsRemoved(g, m)
  {
  }

  /** A flag that leaves `g` alone leaves alone any merged flag that removes `g`. */
  lemma SurvivorsRemover(g: Flag, h: Flag, f: Flag)
    requires IsNamed(h) && IsAccepted(f)
    requires IsKept(g) && IsKept(h) && !Survives(g, h) && Survives(g, f)
    ensures Survives(h, f)
  {
  }

  lemma {:induction false} ControlsMergeTo(m: seq<Flag>, c: seq<Flag>)
    ensures MergeAll(m, Controls(c)) == if HasRemoval(c) then WithoutRoles(m) else m
  {
    if c == [] {
    } else {
      var n := |c| - 1;
      ControlsMergeTo(m, c[..n]);
      RemovalAtLast(c);
      if !IsKept(c[n]) {
        assert Controls(c)[..|Controls(c)| - 1] == Controls(c[..n]);
        ControlStep(m, c[n], HasRemoval(c[..n]));
      } else {
        assert Controls(c) == Controls(c[..n]);
      }
    }
  }

  lemma RemovalAtLast(c: seq<Flag>)
    requires c != []
    ensures HasRemoval(c) <==> HasRemoval(c[..|c| - 1]) || c[|c| - 1].kind.Removal?
  {
    var n := |c| - 1;
    if HasRemoval(c) {
      var i :| 0 <= i < |c| && c[i].kind.Removal?;
      if i < n { assert c[..n][i].kind.Removal?; }
    }
    if HasRemoval(c[..n]) {
      var i :| 0 <= i < n && c[..n][i].kind.Removal?;
      assert c[i].kind.Removal?;
    }
  }

  function WithoutRoles(m: seq<Flag>): seq<Flag> { Keep(m, Flag(REMOVE, Removal)) }

  lemma ControlStep(m: seq<Flag>, f: Flag, removed: bool)
    requires !IsKept(f)
    ensures var before := if removed then WithoutRoles(m) else m;
      Step(before, f) == if removed || f.kind.Removal? then WithoutRoles(m) else m
  {
    var before := if removed then WithoutRoles(m) else m;
    if f.kind.Removal? {
      SameFilter(before, f, Flag(REMOVE, Removal));
      if removed {
        KeepIsStable(m, Flag(REMOVE, Removal));
      }
    } else {
      KeepsAll(before, f);
    }
    assert Keep(before, f) + [] == Keep(before, f);
  }

  lemma {:induction false} SameFilter(m: seq<Flag>, f: Flag, g: Flag)
    requires f.kind.Removal? && g.kind.Removal?
    ensures Keep(m, f) == Keep(m, g)
  {
    if m == [] {
    } else {
      SameFilter(m[..|m| - 1], f, g);
    }
  }

  lemma KeepIsStable(m: seq<Flag>, f: Flag)
    ensures Keep(Keep(m, f), f) == Keep(m, f)
  {
    forall i | 0 <= i < |Keep(m, f)| ensures Survives(Keep(m, f)[i], f) {
      KeepsSurvivors(m, f, Keep(m, f)[i]);
    }
    KeepsAll(Keep(m, f), f);
  }

  /** What a restart under sudo saves: the merged flags, without their role if the arguments
      include a removal. */
  lemma RestartSaves(p: seq<Flag>, c: seq<Flag>)
    requires IsClean(p) && AreAccepted(p) && AreAccepted(c)
    ensures Merge(p, Effective(p, c)) == if HasRemoval(c) then WithoutRoles(Merge(p, c)) else Merge(p, c)
  {
    var m := Merge(p, c);
    SavedIsSame(p);
    MergeAllIsClean(p, c);
    MergeInTwo(p, m, Controls(c));
    MergeSplits(p, m);
    MergeSplits(p, c);
    MergeInTwo(p, m, Controls(c));
    CleanMergesToItself(m);
    var rest := KeepAll(p, m);
    ControlsMergeTo(rest + m, c);
    ControlsMergeTo(m, c);
    MergeSplits(p, m + Controls(c));
    MergeInTwo([], m, Controls(c));
    forall g | g in p ensures IsRemoved(g, m + Controls(c)) {
      RestartRemoves(p, c, g);
    }
    NothingKept(p, m + Controls(c));
  }

  lemma RestartRemoves(p: seq<Flag>, c: seq<Flag>, g: Flag)
    requires IsClean(p) && g in p && AreAccepted(c)
    ensures IsRemoved(g, Merge(p, c) + Controls(c))
  {
    SavedIsSame(p);
    MergeSplits(p, c);
    RemovedBySum(g, KeepAll(p, c), MergeAll([], c));
    RemovedBySum(g, Merge(p, c), Controls(c));
    CleanAreKept(p, g);
    if IsRemoved(g, c) {
      RemovedByWhatIsLeft(g, c);
    } else {
      KeepAllSurvivors(p, c, g);
      RemovesItself(g, KeepAll(p, c));
    }
  }

  lemma CleanAreKept(m: seq<Flag>, g: Flag)
    requires IsClean(m) && g in m
    ensures IsKept(g)
  {
  }

  lemma RemovedBySum(g: Flag, a: seq<Flag>, b: seq<Flag>)
    ensures IsRemoved(g, a) || IsRemoved(g, b) ==> IsRemoved(g, a + b)
  {
    if IsRemoved(g, a) {
      var i :| 0 <= i < |a| && !Survives(g, a[i]);
      RemovedByMember(g, a[i], a + b, i);
    } else if IsRemoved(g, b) {
      var i :| 0 <= i < |b| && !Survives(g, b[i]);
      RemovedByMember(g, b[i], a + b, |a| + i);
    }
  }

  /** The last role flag of the arguments keeps a role. */
  predicate EndsInRole(c: seq<Flag>) {
    c != [] && (if IsRoleFlag(c[|c| - 1]) then c[|c| - 1].kind.Role? else EndsInRole(c[..|c| - 1]))
  }

  predicate HasRole(m: seq<Flag>) { exists g :: g in m && g.kind.Role? }

  /** With a removal among the arguments, a role is merged exactly when one follows it. */
  lemma {:induction false} RoleAfterRemoval(p: seq<Flag>, c: seq<Flag>)
    requires HasRemoval(c) && AreAccepted(p) && AreAccepted(c)
    ensures HasRole(MergeAll(p, c)) <==> EndsInRole(c)
  {
    var n := |c| - 1;
    var before, m, f := c[..n], MergeAll(p, c[..n]), c[n];
    RemovalAtLast(c);
    if IsRoleFlag(f) {
      forall g | g in Keep(m, f) ensures !g.kind.Role? {
        KeepsSurvivors(m, f, g);
      }
      if f.kind.Role? { assert f in MergeAll(p, c); }
    } else {
      RoleAfterRemoval(p, before);
      forall g: Flag | g.kind.Role? ensures g in MergeAll(p, c) <==> g in m && Survives(g, f) {
        KeepsSurvivors(m, f, g);
      }
      MergedAreNamed(p, before);
      RoleSurvives(m, f);
    }
  }

  lemma {:induction false} MergedAreNamed(p: seq<Flag>, c: seq<Flag>)
    requires AreAccepted(p) && AreAccepted(c)
    ensures forall g :: g in MergeAll(p, c) ==> IsNamed(g)
  {
    if c == [] {
    } else {
      var n := |c| - 1;
      MergedAreNamed(p, c[..n]);
      forall g | g in MergeAll(p, c) ensures IsNamed(g) {
        KeepsSurvivors(MergeAll(p, c[..n]), c[n], g);
      }
    }
  }

  lemma RoleSurvives(m: seq<Flag>, f: Flag)
    requires !IsRoleFlag(f) && IsAccepted(f) && forall g :: g in m ==> IsNamed(g)
    ensures HasRole(m) <==> HasRole(Step(m, f))
  {
    forall g: Flag | g.kind.Role? ensures g in m <==> g in Step(m, f) {
      KeepsSurvivors(m, f, g);
      if g in m { RoleIsNoSetting(g, f); }
    }
  }

  lemma RoleIsNoSetting(g: Flag, f: Flag)
    requires g.kind.Role? && IsNamed(g) && !IsRoleFlag(f) && IsAccepted(f)
    ensures Survives(g, f)
  {
    assert "--worker"[2] != "--tag"[2] && "--control-plane"[2] != "--tag"[2];
  }

  /** A restart under sudo saves the same flags if and only if the arguments hold no removal,
      or no role flag follows their last one. */
  lemma RestartSavesTheSameExactlyWhen(p: seq<Flag>, c: seq<Flag>)
    requires IsClean(p) && AreAccepted(p) && AreAccepted(c)
    ensures Merge(p, Effective(p, c)) == Merge(p, c) <==> !(HasRemoval(c) && EndsInRole(c))
  {
    RestartSaves(p, c);
    SavedIsSame(p);
    if HasRemoval(c) {
      RoleAfterRemoval(p, c);
      MergeAllIsClean(p, c);
      RoleFree(Merge(p, c));
    }
  }

  lemma RoleFree(m: seq<Flag>)
    requires forall i :: 0 <= i < |m| ==> IsKept(m[i])
    ensures WithoutRoles(m) == m <==> !HasRole(m)
  {
    if HasRole(m) {
      var g :| g in m && g.kind.Role?;
      KeepsSurvivors(m, Flag(REMOVE, Removal), g);
    } else {
      KeepsAll(m, Flag(REMOVE, Removal));
    }
  }

  lemma {:induction false} ControlsOfSum(a: seq<Flag>, b: seq<Flag>)
    ensures Controls(a + b) == Controls(a) + Controls(b)
  {
    if b == [] {
      assert a + b == a;
    } else {
      assert (a + b)[..|a + b| - 1] == a + b[..|b| - 1];
      ControlsOfSum(a, b[..|b| - 1]);
    }
  }

  lemma {:induction false} ControlsOfKept(m: seq<Flag>)
    requires forall i :: 0 <= i < |m| ==> IsKept(m[i])
    ensures Controls(m) == []
  {
    if m == [] {
    } else {
      ControlsOfKept(m[..|m| - 1]);
    }
  }

  lemma {:induction false} ControlsAgain(c: seq<Flag>)
    ensures Controls(Controls(c)) == Controls(c)
  {
    if c == [] {
    } else {
      ControlsAgain(c[..|c| - 1]);
      ControlsOfSum(Controls(c[..|c| - 1]), if IsKept(c[|c| - 1]) then [] else [c[|c| - 1]]);
    }
  }

  /** Under the same condition the restarted process acts on the very arguments it was given. */
  lemma RestartActsTheSameExactlyWhen(p: seq<Flag>, c: seq<Flag>)
    requires IsClean(p) && AreAccepted(p) && AreAccepted(c)
    ensures Effective(p, Effective(p, c)) == Effective(p, c) <==> !(HasRemoval(c) && EndsInRole(c))
  {
    SavedIsSame(p);
    MergeAllIsClean(p, c);
    ControlsOfSum(Merge(p, c), Controls(c));
    ControlsOfKept(Merge(p, c));
    ControlsAgain(c);
    assert [] + Controls(c) == Controls(c);
    RestartSavesTheSameExactlyWhen(p, c);
    var again, once, n := Merge(p, Effective(p, c)), Merge(p, c), |Controls(c)|;
    assert again + Controls(c) == once + Controls(c) ==> |again| == |once|;
    assert (again + Controls(c))[..|again|] == again && (once + Controls(c))[..|once|] == once;
  }

  /** The one-shot arguments an invocation acts on are its own, in order: of two invocations'
      arguments in a row, those of the first and then those of the second. */
  lemma {:induction false} ControlsAre(c: seq<Flag>, d: seq<Flag>, f: Flag)
    ensures f in Controls(c) <==> f in c && !IsKept(f)
    ensures Controls(c + d) == Controls(c) + Controls(d)
  {
    ControlsOfSum(c, d);
    if c == [] {
    } else {
      ControlsAre(c[..|c| - 1], d, f);
      assert c == c[..|c| - 1] + [c[|c| - 1]];
    }
  }

  // --------------------------------------------------------------- on the arguments' text

  lemma NotAssigned(s: string, prefix: string)
    requires Lacks(s, '=') && prefix != "" && prefix[|prefix| - 1] == '='
    ensures !StartsWith(s, prefix)
  {
    assert |s| >= |prefix| ==> s[|prefix| - 1] != prefix[|prefix| - 1];
  }

  lemma NamesPersist(arg: string)
    requires arg == "--worker" || arg == "--control-plane"
    ensures IsPersisted(arg) && Lacks(arg, '=')
  {
    assert arg[..2] == "--";
    assert |arg| == 8 || |arg| == 15;
    NotAssigned(arg, "--only=");
    NotAssigned(arg, "--shard=");
  }

  lemma NameIsKey(arg: string)
    requires IsPersisted(arg) && Lacks(arg, '=')
    requires arg != "--from-source" && arg != "--force-source-build" && arg != "--release"
    requires arg != "--without-flannel" && arg != "--without-cri"
    ensures FlagKey(arg) == Some(arg)
  {
    SplitOnceNone(arg, '=');
    NotAssigned(arg, "--source=");
    NotAssigned(arg, "--tag=");
    NotAssigned(arg, "--cni=");
  }

  lemma RoleNameIsKey(arg: string)
    requires arg == "--worker" || arg == "--control-plane"
    ensures FlagKey(arg) == Some(arg) && IsPersisted(arg)
  {
    NamesPersist(arg);
    assert |arg| == 8 || |arg| == 15;
    assert |arg| == 15 ==> arg[3] != 'i';
    NameIsKey(arg);
  }

  /** The kind of an argument says what the tests on its text say. */
  lemma ClassifyFits(arg: string)
    ensures var f := Flag(arg, Classify(arg));
      && IsNamed(f)
      && (IsKept(f) <==> IsPersisted(arg))
      && (IsRoleFlag(f) <==> IsRole(arg))
      && (IsPersisted(arg) ==> KeyOf(f) == FlagKey(arg))
  {
    if arg == "--worker" || arg == "--control-plane" {
      RoleNameIsKey(arg);
    }
  }

  /** The two tests the program retains merged arguments by; a source choice also drops the tag. */
  datatype Drop = Roles | Keyed(key: string)

  predicate IsDropped(arg: string, d: Drop) {
    match d
    case Roles => IsRole(arg)
    case Keyed(key) => FlagKey(arg) == Some(key) || (key == SOURCE && FlagKey(arg) == Some(TAG))
  }

  function Retain(m: seq<string>, d: Drop): seq<string> {
    if m == [] then []
    else Retain(m[..|m| - 1], d) + if IsDropped(m[|m| - 1], d) then [] else [m[|m| - 1]]
  }

  lemma FlagsOfMore(m: seq<string>, arg: string)
    ensures Flags(m + [arg]) == Flags(m) + [Flag(arg, Classify(arg))]
  {
    assert (m + [arg])[..|m|] == m;
  }

  lemma FlagsOfSum(m: seq<string>, arg: string, more: bool)
    ensures Flags(m + if more then [arg] else []) == Flags(m) + if more then [Flag(arg, Classify(arg))] else []
  {
    FlagsOfMore(m, arg);
    assert m + [] == m && Flags(m) + [] == Flags(m);
  }

  lemma KeepOfLast(m: seq<Flag>, g: Flag, f: Flag)
    ensures Keep(m + [g], f) == Keep(m, f) + if Survives(g, f) then [g] else []
  {
    assert (m + [g])[..|m|] == m;
  }

  /** The test on the text drops what `f` removes. */
  ghost predicate Agrees(arg: string, d: Drop, f: Flag) { IsDropped(arg, d) <==> !Survives(Flag(arg, Classify(arg)), f) }

  lemma RoleAgrees(arg: string, f: Flag)
    requires IsRoleFlag(f)
    ensures Agrees(arg, Roles, f)
  {
    ClassifyFits(arg);
  }

  lemma KeyAgrees(arg: string, f: Flag)
    requires f.kind.Setting? && IsPersisted(arg)
    ensures Agrees(arg, Keyed(f.kind.key), f)
  {
    ClassifyFits(arg);
  }

  lemma RetainStep(m: seq<string>, front: seq<string>, d: Drop, f: Flag)
    requires m != [] && front == m[..|m| - 1] && Agrees(m[|m| - 1], d, f)
    requires Flags(Retain(front, d)) == Keep(Flags(front), f)
    ensures Flags(Retain(m, d)) == Keep(Flags(m), f)
  {
    var arg := m[|m| - 1];
    KeepOfLast(Flags(front), Flag(arg, Classify(arg)), f);
    FlagsOfSum(Retain(front, d), arg, !IsDropped(arg, d));
  }

  /** Retaining by a test that agrees is keeping what survives. */
  lemma {:induction false} RetainIsKeep(m: seq<string>, d: Drop, f: Flag)
    requires forall i :: 0 <= i < |m| ==> Agrees(m[i], d, f)
    ensures Flags(Retain(m, d)) == Keep(Flags(m), f)
  {
    if m == [] {
    } else {
      RetainIsKeep(m[..|m| - 1], d, f);
      RetainStep(m, m[..|m| - 1], d, f);
    }
  }

  ghost predicate ArePersisted(m: seq<string>) { forall i :: 0 <= i < |m| ==> IsPersisted(m[i]) }

  lemma {:induction false} RetainingPersists(m: seq<string>, d: Drop)
    requires ArePersisted(m)
    ensures ArePersisted(Retain(m, d))
  {
    if m == [] {
    } else {
      RetainingPersists(m[..|m| - 1], d);
    }
  }

  lemma RolesAgree(m: seq<string>, f: Flag)
    requires IsRoleFlag(f)
    ensures forall i :: 0 <= i < |m| ==> Agrees(m[i], Roles, f)
  {
    forall i | 0 <= i < |m| ensures Agrees(m[i], Roles, f) {
      RoleAgrees(m[i], f);
    }
  }

  lemma KeysAgree(m: seq<string>, f: Flag)
    requires f.kind.Setting? && ArePersisted(m)
    ensures forall i :: 0 <= i < |m| ==> Agrees(m[i], Keyed(f.kind.key), f)
  {
    forall i | 0 <= i < |m| ensures Agrees(m[i], Keyed(f.kind.key), f) {
      KeyAgrees(m[i], f);
    }
  }

  /** One saved flag read back. */
  method ReadBack(merged: seq<string>, arg: string) returns (r: seq<string>)
    requires ArePersisted(merged)
    ensures ArePersisted(r) && Flags(r) == ReadStep(Flags(merged), Flag(arg, Classify(arg)))
  {
    ghost var f := Flag(arg, Classify(arg));
    ClassifyFits(arg);
    r := merged;
    if IsPersisted(arg) {
      if IsRole(arg) {
        RolesAgree(merged, f);
        RetainIsKeep(merged, Roles, f);
        RetainingPersists(merged, Roles);
        r := Retain(merged, Roles);
      }
      FlagsOfMore(r, arg);
      r := r + [arg];
    }
  }

  lemma RoleIsOwn(arg: string)
    requires IsRole(arg)
    ensures var f := Flag(arg, Classify(arg)); IsRoleFlag(f) && Own(f) == if arg == REMOVE then [] else [f]
  {
  }

  lemma RoleStep(merged: seq<string>, arg: string)
    requires IsRole(arg)
    ensures Flags(Retain(merged, Roles) + if arg == REMOVE then [] else [arg]) == Step(Flags(merged), Flag(arg, Classify(arg)))
  {
    RoleIsOwn(arg);
    RolesAgree(merged, Flag(arg, Classify(arg)));
    RetainIsKeep(merged, Roles, Flag(arg, Classify(arg)));
    FlagsOfSum(Retain(merged, Roles), arg, arg != REMOVE);
  }

  lemma SettingStep(merged: seq<string>, arg: string)
    requires ArePersisted(merged) && IsPersisted(arg) && !IsRole(arg)
    ensures Flags(Retain(merged, Keyed(FlagKey(arg).value)) + [arg]) == Step(Flags(merged), Flag(arg, Classify(arg)))
  {
    KeysAgree(merged, Flag(arg, Classify(arg)));
    RetainIsKeep(merged, Keyed(FlagKey(arg).value), Flag(arg, Classify(arg)));
    FlagsOfMore(Retain(merged, Keyed(FlagKey(arg).value)), arg);
  }

  lemma ControlIsIgnored(merged: seq<Flag>, arg: string)
    requires !IsPersisted(arg) && !IsRole(arg)
    ensures Step(merged, Flag(arg, Classify(arg))) == merged
  {
    KeepsAll(merged, Flag(arg, Control));
    assert merged + [] == merged;
  }

  lemma RolePersists(merged: seq<string>, arg: string)
    requires ArePersisted(merged) && IsRole(arg)
    ensures ArePersisted(Retain(merged, Roles) + if arg == REMOVE then [] else [arg])
  {
    RetainingPersists(merged, Roles);
    if arg != REMOVE {
      RoleNameIsKey(arg);
    }
  }

  lemma SettingPersists(merged: seq<string>, arg: string)
    requires ArePersisted(merged) && IsPersisted(arg)
    ensures ArePersisted(Retain(merged, Keyed(FlagKey(arg).value)) + [arg])
  {
    RetainingPersists(merged, Keyed(FlagKey(arg).value));
  }

  /** One current flag merged in. */
  method MergeIn(merged: seq<string>, arg: string) returns (r: seq<string>)
    requires ArePersisted(merged)
    ensures ArePersisted(r) && Flags(r) == Step(Flags(merged), Flag(arg, Classify(arg)))
  {
    if IsRole(arg) {
      RoleStep(merged, arg);
      RolePersists(merged, arg);
      r := Retain(merged, Roles) + if arg == REMOVE then [] else [arg];
    } else if !IsPersisted(arg) {
      ControlIsIgnored(Flags(merged), arg);
      r := merged;
    } else {
      var key := FlagKey(arg).value;
      SettingStep(merged, arg);
      SettingPersists(merged, arg);
      r := Retain(merged, Keyed(key)) + [arg];
    }
  }

  lemma FlagsStep(args: seq<string>, i: nat)
    requires i < |args|
    ensures Flags(args[..i + 1]) == Flags(args[..i]) + [Flag(args[i], Classify(args[i]))]
  {
    FlagsOfMore(args[..i], args[i]);
    assert args[..i] + [args[i]] == args[..i + 1];
  }

  lemma SavedStep(m: seq<Flag>, f: Flag)
    ensures Saved(m + [f]) == ReadStep(Saved(m), f)
  {
    assert (m + [f])[..|m|] == m;
  }

  lemma MergeStep(m: seq<Flag>, c: seq<Flag>, f: Flag)
    ensures MergeAll(m, c + [f]) == Step(MergeAll(m, c), f)
  {
    assert (c + [f])[..|c|] == c;
  }

  /** The first loop of the merge, over the saved flags. */
  method ReadBackAll(previous: seq<string>) returns (merged: seq<string>)
    ensures ArePersisted(merged) && Flags(merged) == Saved(Flags(previous))
  {
    merged := [];
    for i := 0 to |previous|
      invariant ArePersisted(merged) && Flags(merged) == Saved(Flags(previous[..i]))
    {
      FlagsStep(previous, i);
      SavedStep(Flags(previous[..i]), Flag(previous[i], Classify(previous[i])));
      merged := ReadBack(merged, previous[i]);
    }
    assert previous[..|previous|] == previous;
  }

  /** The merge as the program runs it, on the arguments' text. */
  method MergeInstallationFlags(previous: seq<string>, current: seq<string>) returns (merged: seq<string>)
    ensures ArePersisted(merged) && Flags(merged) == Merge(Flags(previous), Flags(current))
    ensures forall i :: 0 <= i < |merged| ==> StartsWith(merged[i], "--") && !ActsOnce(merged[i])
  {
    forall arg ensures IsPersisted(arg) ==> StartsWith(arg, "--") && !ActsOnce(arg) {
      PersistsExactlyWhen(arg);
    }
    merged := ReadBackAll(previous);
    ghost var saved := Saved(Flags(previous));
    for i := 0 to |current|
      invariant ArePersisted(merged) && Flags(merged) == MergeAll(saved, Flags(current[..i]))
    {
      FlagsStep(current, i);
      MergeStep(saved, Flags(current[..i]), Flag(current[i], Classify(current[i])));
      merged := MergeIn(merged, current[i]);
    }
    assert current[..|current|] == current;
  }

  /** A role named after a removal is merged, and lost by the restart. */
  lemma RestartLosesTheRole()
    ensures var c := Flags(["--remove-control-plane", "--worker"]);
      && Merge([], c) == Flags(["--worker"])
      && Merge([], Effective([], c)) == []
  {
    var removal, worker := Flag(REMOVE, Removal), Flag("--worker", Role);
    var c := Flags([REMOVE, "--worker"]);
    assert c == [removal, worker];
    assert c[..1] == [removal] && [removal][..0] == [];
    assert MergeAll([], [removal]) == [];
    assert Merge([], c) == [worker];
    RestartSaves([], c);
    assert c[0].kind.Removal?;
    assert [worker][..0] == [];
  }
}
