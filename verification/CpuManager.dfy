/** The static CPU manager: exclusive CPU claims carved out of a shared pool. */
module CpuManager {
  import opened Ordering
  import opened Text
  import opened Wrappers

  type Claims = map<string, set<nat>>

  const WIDTH: nat := 0x1_0000_0000

  // ---------------------------------------------------------------- picking processors

  /** The `n` lowest members of a set, or all of them. */
  function Lowest(s: set<nat>, n: nat): (r: set<nat>)
    ensures r <= s
    decreases n
  {
    if n == 0 || s == {} then {} else {Least(s)} + Lowest(s - {Least(s)}, n - 1)
  }

  lemma {:induction false} LowestCount(s: set<nat>, n: nat)
    ensures |Lowest(s, n)| == if n <= |s| then n else |s|
    decreases n
  {
    if n == 0 || s == {} {
    } else {
      LowestCount(s - {Least(s)}, n - 1);
    }
  }

  /** Nothing left out is below anything picked. */
  lemma {:induction false} LowestIsLowest(s: set<nat>, n: nat, picked: nat, left: nat)
    requires picked in Lowest(s, n) && left in s && left !in Lowest(s, n)
    ensures picked < left
    decreases n
  {
    if picked == Least(s) {
    } else {
      LowestIsLowest(s - {Least(s)}, n - 1, picked, left);
    }
  }

  /** Adding members of `rest`, lowest first, until there are `n`. */
  function Fill(picked: set<nat>, rest: set<nat>, n: nat): set<nat>
    decreases |rest|
  {
    if rest == {} || |picked| >= n then picked else Fill(picked + {Least(rest)}, rest - {Least(rest)}, n)
  }

  lemma LowestStep(s: set<nat>, m: nat, n: nat)
    requires IsLeast(s, m) && n > 0
    ensures Lowest(s, n) == {m} + Lowest(s - {m}, n - 1)
  {
    LeastIs(s, m);
  }

  /** Some free processors, and the lowest others up to `count`. */
  function TopUp(first: set<nat>, free: set<nat>, count: nat): set<nat>
    requires |first| <= count
  {
    first + Lowest(free - first, count - |first|)
  }

  lemma AlreadyPicked(picked: set<nat>, rest: set<nat>, m: nat)
    requires m in picked
    ensures picked + {m} == picked && (rest - {m}) - picked == rest - picked
  {
  }

  lemma TakeAway(rest: set<nat>, picked: set<nat>, m: nat)
    ensures (rest - {m}) - (picked + {m}) == (rest - picked) - {m}
  {
  }

  lemma NewlyPicked(picked: set<nat>, rest: set<nat>, m: nat, k: nat)
    requires IsLeast(rest, m) && m !in picked && k > 0
    ensures (picked + {m}) + Lowest((rest - {m}) - (picked + {m}), k - 1) == picked + Lowest(rest - picked, k)
  {
    var others := (rest - picked) - {m};
    TakeAway(rest, picked, m);
    LowestStep(rest - picked, m, k);
    Gather(picked, m, Lowest(others, k - 1));
  }

  lemma KnownStep(picked: set<nat>, rest: set<nat>, m: nat, n: nat)
    requires m in picked && |picked| <= n
    ensures |picked + {m}| <= n && TopUp(picked + {m}, rest - {m}, n) == TopUp(picked, rest, n)
  {
    AlreadyPicked(picked, rest, m);
  }

  lemma NewStep(picked: set<nat>, rest: set<nat>, m: nat, n: nat)
    requires IsLeast(rest, m) && m !in picked && |picked| < n
    ensures |picked + {m}| <= n && TopUp(picked + {m}, rest - {m}, n) == TopUp(picked, rest, n)
  {
    OneMore(picked, m);
    var k := n - |picked|;
    NewlyPicked(picked, rest, m, k);
    assert n - |picked + {m}| == k - 1;
  }

  lemma OneMore(s: set<nat>, m: nat)
    requires m !in s
    ensures |s + {m}| == |s| + 1
  {
  }

  lemma TopUpDone(picked: set<nat>, rest: set<nat>, n: nat)
    requires |picked| <= n && (rest == {} || |picked| == n)
    ensures TopUp(picked, rest, n) == picked
  {
  }

  /** Filling up adds the lowest members that were not picked before. */
  lemma {:induction false} FillIsTopUp(picked: set<nat>, rest: set<nat>, n: nat)
    requires |picked| <= n
    ensures Fill(picked, rest, n) == TopUp(picked, rest, n)
    decreases |rest|
  {
    if rest == {} || |picked| >= n {
      TopUpDone(picked, rest, n);
    } else {
      var m := Least(rest);
      if m in picked {
        KnownStep(picked, rest, m, n);
      } else {
        NewStep(picked, rest, m, n);
      }
      FillIsTopUp(picked + {m}, rest - {m}, n);
    }
  }

  lemma Gather(a: set<nat>, m: nat, b: set<nat>)
    ensures (a + {m}) + b == a + ({m} + b)
  {
  }

  /** The preferred processors an allocation takes first. */
  function FirstPick(free: set<nat>, preferred: Option<set<nat>>, count: nat): set<nat> {
    if preferred.Some? then Lowest(free * preferred.value, count) else {}
  }

  lemma FirstFits(free: set<nat>, preferred: Option<set<nat>>, count: nat)
    ensures |FirstPick(free, preferred, count)| <= count && FirstPick(free, preferred, count) <= free
  {
    if preferred.Some? {
      LowestCount(free * preferred.value, count);
    }
  }

  /** The processors an allocation picks: the lowest preferred ones, then the lowest others. */
  function Pick(free: set<nat>, preferred: Option<set<nat>>, count: nat): set<nat> {
    FirstFits(free, preferred, count);
    TopUp(FirstPick(free, preferred, count), free, count)
  }

  /** The loop that fills up an allocation, lowest free processor first. */
  method FillUp(start: set<nat>, free: set<nat>, count: nat) returns (picked: set<nat>)
    ensures picked == Fill(start, free, count)
  {
    picked := start;
    var rest := free;
    while rest != {}
      invariant Fill(picked, rest, count) == Fill(start, free, count)
      decreases |rest|
    {
      if |picked| >= count {
        break;
      }
      var cpu := Least(rest);
      rest := rest - {cpu};
      picked := picked + {cpu};
    }
  }

  lemma PickIsWithin(free: set<nat>, preferred: Option<set<nat>>, count: nat)
    ensures Pick(free, preferred, count) <= free
    ensures |Pick(free, preferred, count)| == if count <= |free| then count else |free|
  {
    FirstFits(free, preferred, count);
    TopUpIsWithin(FirstPick(free, preferred, count), free, count);
  }

  lemma TopUpIsWithin(first: set<nat>, free: set<nat>, count: nat)
    requires first <= free && |first| <= count
    ensures TopUp(first, free, count) <= free
    ensures |TopUp(first, free, count)| == if count <= |free| then count else |free|
  {
    LowestCount(free - first, count - |first|);
    PartsWithin(free, first, Lowest(free - first, count - |first|), count);
  }

  lemma PartsWithin(free: set<nat>, a: set<nat>, b: set<nat>, count: nat)
    requires a <= free && b <= free - a && |a| <= count
    requires |b| == if count - |a| <= |free - a| then count - |a| else |free - a|
    ensures a + b <= free && |a + b| == if count <= |free| then count else |free|
  {
    DisjointSize(a, b);
    DisjointSize(a, free - a);
    assert a + (free - a) == free;
  }

  lemma DisjointSize(a: set<nat>, b: set<nat>)
    requires a !! b
    ensures |a + b| == |a| + |b|
  {
  }

  lemma SubsetSize(a: set<nat>, b: set<nat>)
    requires a <= b
    ensures |a| <= |b|
  {
    assert a + (b - a) == b;
  }

  /** No other choice of `count` free processors has more preferred ones. */
  lemma PickPrefersMost(free: set<nat>, preferred: set<nat>, count: nat, other: set<nat>)
    requires count <= |free| && other <= free && |other| == count
    ensures |other * preferred| <= |Pick(free, Some(preferred), count) * preferred|
  {
    var first := Lowest(free * preferred, count);
    LowestCount(free * preferred, count);
    SubsetSize(first, Pick(free, Some(preferred), count) * preferred);
    SubsetSize(other * preferred, other);
    SubsetSize(other * preferred, free * preferred);
  }

  lemma AllPicked(s: set<nat>, n: nat)
    requires |Lowest(s, n)| < n
    ensures Lowest(s, n) == s
  {
    LowestCount(s, n);
    SameSize(Lowest(s, n), s);
  }

  lemma SameSize(a: set<nat>, b: set<nat>)
    requires a <= b && |a| == |b|
    ensures a == b
  {
    DisjointSize(a, b - a);
    assert a + (b - a) == b;
  }

  /** Among the preferred, and among the others, the lowest are picked. */
  lemma PickIsLowestOfItsKind(free: set<nat>, preferred: set<nat>, count: nat, picked: nat, left: nat)
    requires picked in Pick(free, Some(preferred), count)
    requires left in free && left !in Pick(free, Some(preferred), count)
    requires picked in preferred <==> left in preferred
    ensures picked < left
  {
    var first := FirstPick(free, Some(preferred), count);
    FirstFits(free, Some(preferred), count);
    if |first| < count {
      AllPicked(free * preferred, count);
      LowestIsLowest(free - first, count - |first|, picked, left);
    } else {
      assert Lowest(free - first, 0) == {};
      LowestIsLowest(free * preferred, count, picked, left);
    }
  }

  lemma NothingTaken(free: set<nat>, s: set<nat>)
    ensures free - {} == free && {} + s == s
  {
  }

  /** Without a preference, the lowest free processors are picked. */
  lemma PickIsLowest(free: set<nat>, count: nat)
    ensures Pick(free, None, count) == Lowest(free, count)
  {
    NothingTaken(free, Lowest(free, count));
    assert TopUp({}, free, count) == Lowest(free, count);
  }

  // -------------------------------------------------------------------------- claims

  function Claimed(claims: Claims): set<nat> { set k, c | k in claims.Keys && c in claims[k] :: c }

  datatype Layout = Layout(total: set<nat>, reserved: set<nat>)

  function Free(node: Layout, claims: Claims): set<nat> { node.total - node.reserved - Claimed(claims) }

  /** Every claim is on unreserved processors, and no two claims share one. */
  ghost predicate AreClaims(node: Layout, claims: Claims) {
    && (forall k :: k in claims ==> claims[k] <= node.total - node.reserved)
    && (forall j, k :: j in claims && k in claims && j != k ==> claims[j] !! claims[k])
  }

  /** Reserved processors, the shared pool and the claims divide up the node: each processor
      is in exactly one of them. */
  lemma ClaimsPartition(node: Layout, claims: Claims, cpu: nat)
    requires AreClaims(node, claims) && node.reserved <= node.total
    ensures cpu in node.total <==>
      cpu in node.reserved || cpu in Free(node, claims) || exists k :: k in claims && cpu in claims[k]
    ensures !(cpu in node.reserved && cpu in Free(node, claims))
    ensures forall k :: k in claims && cpu in claims[k] ==> cpu !in node.reserved && cpu !in Free(node, claims)
    ensures forall j, k :: j in claims && k in claims && cpu in claims[j] && cpu in claims[k] ==> j == k
  {
    if cpu in Claimed(claims) {
      var k :| k in claims && cpu in claims[k];
    }
  }

  datatype Op =
    | Allocate(key: string, count: nat, preferred: Option<set<nat>>)
    | Release(key: string)
    | ReleaseSandbox(sandbox: string)

  function KeysUnder(claims: Claims, sandbox: string): set<string> {
    set k | k in claims && StartsWith(k, sandbox + "/")
  }

  function Apply(node: Layout, claims: Claims, op: Op): Claims {
    match op
    case Allocate(key, count, preferred) =>
      var free := Free(node, claims);
      if |free| < count then claims else claims[key := Pick(free, preferred, count)]
    case Release(key) => claims - {key}
    case ReleaseSandbox(sandbox) => claims - KeysUnder(claims, sandbox)
  }

  function ApplyAll(node: Layout, claims: Claims, ops: seq<Op>): Claims {
    if ops == [] then claims else Apply(node, ApplyAll(node, claims, ops[..|ops| - 1]), ops[|ops| - 1])
  }

  lemma FreeIsUnclaimed(node: Layout, claims: Claims, picked: set<nat>, k: string)
    requires picked <= Free(node, claims) && k in claims
    ensures claims[k] !! picked
  {
    forall c | c in claims[k] ensures c !in picked {
      assert c in Claimed(claims);
    }
  }

  lemma ClaimKeepsClaims(node: Layout, claims: Claims, key: string, picked: set<nat>)
    requires AreClaims(node, claims) && picked <= Free(node, claims)
    ensures AreClaims(node, claims[key := picked])
  {
    forall k | k in claims ensures claims[k] !! picked {
      FreeIsUnclaimed(node, claims, picked, k);
    }
  }

  lemma ApplyKeepsClaims(node: Layout, claims: Claims, op: Op)
    requires AreClaims(node, claims)
    ensures AreClaims(node, Apply(node, claims, op))
  {
    if op.Allocate? {
      var free := Free(node, claims);
      PickIsWithin(free, op.preferred, op.count);
      ClaimKeepsClaims(node, claims, op.key, Pick(free, op.preferred, op.count));
    }
  }

  /** Over any run of allocations and releases, the claims stay disjoint and unreserved. */
  lemma {:induction false} RunKeepsClaims(node: Layout, ops: seq<Op>)
    ensures AreClaims(node, ApplyAll(node, map[], ops))
  {
    if ops == [] {
    } else {
      RunKeepsClaims(node, ops[..|ops| - 1]);
      ApplyKeepsClaims(node, ApplyAll(node, map[], ops[..|ops| - 1]), ops[|ops| - 1]);
    }
  }

  /** A successful allocation takes its processors out of the shared pool and puts back those
      the key held before; nothing else moves. */
  lemma AllocateMovesProcessors(node: Layout, claims: Claims, op: Op)
    requires AreClaims(node, claims) && op.Allocate? && op.count <= |Free(node, claims)|
    ensures var picked, held := Pick(Free(node, claims), op.preferred, op.count), if op.key in claims then claims[op.key] else {};
      Free(node, Apply(node, claims, op)) == Free(node, claims) - picked + held
  {
    var free := Free(node, claims);
    var picked, held := Pick(free, op.preferred, op.count), if op.key in claims then claims[op.key] else {};
    PickIsWithin(free, op.preferred, op.count);
    forall c: nat ensures c in Claimed(claims[op.key := picked]) <==> c in picked || (c in Claimed(claims) && c !in held) {
      ClaimedAfter(node, claims, op.key, picked, c);
    }
    forall c | c in held ensures c in Claimed(claims) && c in node.total && c !in node.reserved {
      assert op.key in claims && c in claims[op.key];
    }
    Moves(node.total - node.reserved, Claimed(claims), Claimed(claims[op.key := picked]), picked, held);
  }

  lemma Moves(all: set<nat>, before: set<nat>, after: set<nat>, picked: set<nat>, held: set<nat>)
    requires picked <= all - before && held <= before * all
    requires forall c: nat :: c in after <==> c in picked || (c in before && c !in held)
    ensures all - after == (all - before) - picked + held
  {
  }

  lemma ClaimedAfter(node: Layout, claims: Claims, key: string, picked: set<nat>, c: nat)
    requires AreClaims(node, claims)
    ensures c in Claimed(claims[key := picked])
       <==> c in picked || (c in Claimed(claims) && (key in claims ==> c !in claims[key]))
  {
    var after := claims[key := picked];
    if c in Claimed(after) {
      var k :| k in after && c in after[k];
      if k != key {
        assert k in claims && c in claims[k];
      }
    }
    if c in picked {
      assert key in after && c in after[key];
    }
    if c in Claimed(claims) && (key in claims ==> c !in claims[key]) {
      var k :| k in claims && c in claims[k];
      assert k in after && c in after[k];
    }
  }

  /** Releasing after allocating gives back exactly the shared pool there was, for a key that
      held nothing. */
  lemma ReleaseUndoesAllocate(node: Layout, claims: Claims, op: Op)
    requires AreClaims(node, claims) && op.Allocate? && op.key !in claims
    ensures Apply(node, Apply(node, claims, op), Release(op.key)) == claims
  {
  }

  // ------------------------------------------------------------------------ sandboxes

  function ContainerKey(sandbox: string, container: string): string { sandbox + "/" + container }

  /** Whether a container's key starts with a sandbox's prefix, told from the identifiers:
      the sandbox is its own, or one identifier continues the other past a slash. */
  predicate IsUnder(sandbox: string, other: string, container: string) {
    || other == sandbox
    || StartsWith(other, sandbox + "/")
    || (StartsWith(sandbox, other + "/") && StartsWith(container, sandbox[|other| + 1..] + "/"))
  }

  lemma PrefixOfParts(prefix: string, a: string, b: string)
    ensures StartsWith(a + b, prefix)
       <==> if |prefix| <= |a| then StartsWith(a, prefix)
            else StartsWith(prefix, a) && StartsWith(b, prefix[|a|..])
  {
    if |prefix| <= |a| {
      assert (a + b)[..|prefix|] == a[..|prefix|];
    } else if |prefix| <= |a + b| {
      assert (a + b)[..|prefix|] == a + b[..|prefix| - |a|];
      assert prefix == prefix[..|a|] + prefix[|a|..];
    }
  }

  lemma KeyIsUnder(sandbox: string, other: string, container: string)
    ensures StartsWith(ContainerKey(other, container), sandbox + "/") <==> IsUnder(sandbox, other, container)
  {
    var prefix := sandbox + "/";
    PrefixOfParts(prefix, other + "/", container);
    if |prefix| <= |other + "/"| {
      PrefixOfParts(prefix, other, "/");
    } else {
      PrefixOfParts(other + "/", sandbox, "/");
      assert prefix[|other + "/"|..] == sandbox[|other| + 1..] + "/";
    }
  }

  /** Releasing a sandbox drops the claims of the containers under its prefix and no others,
      whatever the identifiers hold. */
  lemma SandboxReleaseIsExact(node: Layout, claims: Claims, sandbox: string, other: string, container: string)
    ensures var after, key := Apply(node, claims, ReleaseSandbox(sandbox)), ContainerKey(other, container);
      (key in after <==> key in claims && !IsUnder(sandbox, other, container)) && (key in after ==> after[key] == claims[key])
  {
    KeyIsUnder(sandbox, other, container);
  }

  predicate Overlap(sandbox: string, other: string) {
    StartsWith(other, sandbox + "/") || StartsWith(sandbox, other + "/")
  }

  /** Releasing one sandbox leaves every container of another alone exactly when neither
      identifier continues the other past a slash. */
  lemma SandboxesAreApartExactlyWhen(sandbox: string, other: string)
    requires sandbox != other
    ensures (forall container :: !StartsWith(ContainerKey(other, container), sandbox + "/")) <==> !Overlap(sandbox, other)
  {
    forall container
      ensures StartsWith(ContainerKey(other, container), sandbox + "/") <==> IsUnder(sandbox, other, container)
    {
      KeyIsUnder(sandbox, other, container);
    }
    if StartsWith(other, sandbox + "/") {
      assert IsUnder(sandbox, other, "");
    }
    if StartsWith(sandbox, other + "/") {
      assert IsUnder(sandbox, other, sandbox[|other| + 1..] + "/");
    }
  }

  lemma ContinuesPastASlash(longer: string, shorter: string)
    requires StartsWith(longer, shorter + "/")
    ensures !Lacks(longer, '/')
  {
    assert longer[|shorter|] == (shorter + "/")[|shorter|];
  }

  /** Identifiers without a slash, as the runtime gives them out, never overlap. */
  lemma SlashFreeSandboxesAreApart(sandbox: string, other: string)
    requires Lacks(sandbox, '/') && Lacks(other, '/')
    ensures !Overlap(sandbox, other)
  {
    if StartsWith(other, sandbox + "/") {
      ContinuesPastASlash(other, sandbox);
    } else if StartsWith(sandbox, other + "/") {
      ContinuesPastASlash(sandbox, other);
    }
  }

  // ---------------------------------------------------------------------- the manager

  /** Whole processors for a reservation, rounded up, in 32 bits. */
  function ReservedCpuCount(millicores: nat): (n: nat)
    ensures millicores <= 4294967295000 ==> 1000 * n >= millicores && (n > 0 ==> 1000 * (n - 1) < millicores)
  {
    (millicores + 999) / 1000 % WIDTH
  }

  function Below(n: nat): (r: set<nat>)
    ensures forall c: nat :: c in r <==> c < n
  {
    if n == 0 then {} else Below(n - 1) + {n - 1}
  }

  class Manager {
    const totalCpus: set<nat>
    const reserved: set<nat>
    var exclusive: Claims

    ghost function Node(): Layout { Layout(totalCpus, reserved) }

    ghost predicate Valid()
      reads this
    {
      reserved <= totalCpus && AreClaims(Node(), exclusive)
    }

    constructor (totalCores: nat, reservedMillicores: nat)
      ensures Valid() && exclusive == map[]
      ensures forall c: nat :: c in totalCpus <==> c < totalCores % 4294967296
      ensures reserved == totalCpus * Below(ReservedCpuCount(reservedMillicores))
    {
      var count := ReservedCpuCount(reservedMillicores);
      var cores := totalCores % WIDTH;
      totalCpus := Below(cores);
      reserved := Below(if count <= cores then count else cores);
      exclusive := map[];
    }

    method SharedPool() returns (pool: set<nat>)
      ensures pool == Free(Node(), exclusive)
      ensures forall c :: c in pool <==> c in totalCpus && c !in reserved && forall k :: k in exclusive ==> c !in exclusive[k]
    {
      var claimed := Claimed(exclusive);
      pool := set c | c in totalCpus - reserved && c !in claimed;
    }

    /** Fails exactly when too few processors are free, and then changes nothing. */
    method AllocatePreferring(key: string, count: nat, preferred: Option<set<nat>>) returns (r: Option<set<nat>>)
      requires Valid()
      modifies this
      ensures Valid() && exclusive == Apply(Node(), old(exclusive), Allocate(key, count, preferred))
      ensures r.Some? <==> count <= |Free(Node(), old(exclusive))|
      ensures r.Some? ==> key in exclusive && exclusive[key] == r.value && |r.value| == count
      ensures r.None? ==> exclusive == old(exclusive)
      ensures forall k :: k != key ==>
        (k in exclusive <==> k in old(exclusive)) && (k in exclusive ==> exclusive[k] == old(exclusive)[k])
    {
      ApplyKeepsClaims(Node(), exclusive, Allocate(key, count, preferred));
      var free := SharedPool();
      PickIsWithin(free, preferred, count);
      var first := FirstPick(free, preferred, count);
      FirstFits(free, preferred, count);
      FillIsTopUp(first, free, count);
      var picked := FillUp(first, free, count);
      if |picked| < count {
        return None;
      }
      exclusive := exclusive[key := picked];
      r := Some(picked);
    }

    method Release(key: string)
      requires Valid()
      modifies this
      ensures Valid() && exclusive == Apply(Node(), old(exclusive), Op.Release(key))
      ensures key !in exclusive && exclusive.Keys == old(exclusive.Keys) - {key}
      ensures forall k :: k in exclusive ==> exclusive[k] == old(exclusive)[k]
    {
      exclusive := exclusive - {key};
    }

    method ReleaseSandbox(sandbox: string)
      requires Valid()
      modifies this
      ensures Valid() && exclusive == Apply(Node(), old(exclusive), Op.ReleaseSandbox(sandbox))
      ensures forall k :: k in exclusive <==> k in old(exclusive) && !StartsWith(k, sandbox + "/")
      ensures forall k :: k in exclusive ==> exclusive[k] == old(exclusive)[k]
    {
      var prefix := sandbox + "/";
      exclusive := map k | k in exclusive && !StartsWith(k, prefix) :: exclusive[k];
    }
  }
}
