/** The hashed timing wheel of the controller manager.

    `Timers` is the meaning of a wheel: the live keys in insertion order, each with the
    tick it is due at. `Wheel` is the array-of-slots implementation, which keeps only
    residues of due ticks; its methods are proved to compute exactly what the functions
    on `Timers` compute, across any number of revolutions of the cursor. */
module TimingWheel {

  /** A wheel's fixed parameters. Instants and durations are nanosecond counts. */
  datatype Geometry = Geometry(start: int, tick: nat, slotCount: nat) {
    predicate Valid() { tick > 0 && slotCount > 0 }

    /** Time since `start`, zero for an instant before it. */
    function Elapsed(instant: int): nat {
      if instant > start then instant - start else 0
    }

    /** The last tick that has begun by `instant`. */
    function TickAt(instant: int): nat
      requires Valid()
    {
      Elapsed(instant) / tick
    }

    /** When a tick begins. */
    function TickStart(k: nat): int { start + k * tick }

    /** The tick a deadline is due at, when the cursor stands at `cursor`. */
    function TickIndexFor(cursor: nat, deadline: int): nat
      requires Valid()
    {
      var idx := (Elapsed(deadline) + tick - 1) / tick;
      if idx < cursor + 1 then cursor + 1 else idx
    }
  }

  /** One scheduled key. `insertedAt` is where the cursor stood when it was scheduled. */
  datatype Entry<K> = Entry(key: K, deadline: int, insertedAt: nat, due: nat)

  datatype Timers<K> = Timers(cursor: nat, entries: seq<Entry<K>>)

  function Keys<K>(entries: seq<Entry<K>>): (keys: seq<K>)
    ensures |keys| == |entries|
    ensures forall i :: 0 <= i < |entries| ==> keys[i] == entries[i].key
  {
    seq(|entries|, i requires 0 <= i < |entries| => entries[i].key)
  }

  /** The tests the wheel selects entries by. */
  datatype Test<K> =
    | KeyIsNot(key: K)
    | DueIs(tick: nat)
    | DueIsNot(tick: nat)
    | DueAfter(tick: nat)
    | SlotIs(slotCount: nat, slot: nat)
    | Both(p: Test<K>, q: Test<K>)

  predicate Passes<K(==)>(test: Test<K>, e: Entry<K>) {
    match test
    case KeyIsNot(key) => e.key != key
    case DueIs(tick) => e.due == tick
    case DueIsNot(tick) => e.due != tick
    case DueAfter(tick) => e.due > tick
    case SlotIs(n, slot) => n > 0 && e.due % n == slot
    case Both(p, q) => Passes(p, e) && Passes(q, e)
  }

  /** The entries that pass, in order. */
  function Filter<K(==)>(test: Test<K>, s: seq<Entry<K>>): seq<Entry<K>> {
    if s == [] then []
    else if Passes(test, s[0]) then [s[0]] + Filter(test, s[1..])
    else Filter(test, s[1..])
  }

  function Without<K(==)>(entries: seq<Entry<K>>, key: K): seq<Entry<K>> {
    Filter(KeyIsNot(key), entries)
  }

  function DueAt<K(==)>(entries: seq<Entry<K>>, tick: nat): seq<Entry<K>> {
    Filter(DueIs(tick), entries)
  }

  function NotDueAt<K(==)>(entries: seq<Entry<K>>, tick: nat): seq<Entry<K>> {
    Filter(DueIsNot(tick), entries)
  }

  function InSlot<K(==)>(entries: seq<Entry<K>>, slotCount: nat, slot: nat): seq<Entry<K>> {
    Filter(SlotIs(slotCount, slot), entries)
  }

  ghost predicate DistinctKeys<K(!new)>(entries: seq<Entry<K>>) {
    forall i, j :: 0 <= i < j < |entries| ==> entries[i].key != entries[j].key
  }

  ghost predicate Live<K(!new)>(entries: seq<Entry<K>>, key: K) {
    exists e :: e in entries && e.key == key
  }

  /** What a wheel of this size can represent: distinct keys, all due within one
      revolution ahead of the cursor. */
  ghost predicate Scheduled<K(!new)>(slotCount: nat, t: Timers<K>) {
    && DistinctKeys(t.entries)
    && forall e :: e in t.entries ==> t.cursor < e.due <= t.cursor + slotCount
  }

  /** Every live key is due at the tick its deadline asked for when it was scheduled. */
  ghost predicate Timed<K(!new)>(g: Geometry, t: Timers<K>)
    requires g.Valid()
  {
    forall e :: e in t.entries ==> e.due == g.TickIndexFor(e.insertedAt, e.deadline)
  }

  predicate FitsHorizon<K>(g: Geometry, t: Timers<K>, deadline: int)
    requires g.Valid()
  {
    g.TickIndexFor(t.cursor, deadline) - t.cursor <= g.slotCount
  }

  function NewEntry<K>(g: Geometry, t: Timers<K>, key: K, deadline: int): Entry<K>
    requires g.Valid()
  {
    Entry(key, deadline, t.cursor, g.TickIndexFor(t.cursor, deadline))
  }

  function Insert<K(==)>(g: Geometry, t: Timers<K>, key: K, deadline: int): Timers<K>
    requires g.Valid()
  {
    if !FitsHorizon(g, t, deadline) then t
    else t.(entries := Without(t.entries, key) + [NewEntry(g, t, key, deadline)])
  }

  function Cancel<K(==)>(t: Timers<K>, key: K): Timers<K> {
    t.(entries := Without(t.entries, key))
  }

  function Sweep<K(==)>(t: Timers<K>): Timers<K> {
    Timers(t.cursor + 1, NotDueAt(t.entries, t.cursor + 1))
  }

  /** Sweeps the ticks after the cursor up to `target`, one at a time. */
  function Advance<K(==)>(t: Timers<K>, target: nat): (r: (seq<Entry<K>>, Timers<K>))
    ensures r.1.cursor == if t.cursor < target then target else t.cursor
    decreases target - t.cursor
  {
    if target <= t.cursor then ([], t)
    else
      var (later, t') := Advance(Sweep(t), target);
      (DueAt(t.entries, t.cursor + 1) + later, t')
  }

  // ---------------------------------------------------------------- filtering

  lemma {:induction false} FilterMembers<K(!new)>(test: Test<K>, s: seq<Entry<K>>)
    ensures forall e :: e in Filter(test, s) <==> e in s && Passes(test, e)
  {
    if s == [] {
    } else {
      FilterMembers(test, s[1..]);
    }
  }

  lemma {:induction false} FilterConcat<K(!new)>(test: Test<K>, a: seq<Entry<K>>, b: seq<Entry<K>>)
    ensures Filter(test, a + b) == Filter(test, a) + Filter(test, b)
  {
    if a == [] {
      assert a + b == b;
    } else {
      assert (a + b)[0] == a[0] && (a + b)[1..] == a[1..] + b;
      FilterConcat(test, a[1..], b);
    }
  }

  lemma {:induction false} FilterAgree<K(!new)>(p: Test<K>, q: Test<K>, s: seq<Entry<K>>)
    requires forall e :: e in s ==> Passes(p, e) == Passes(q, e)
    ensures Filter(p, s) == Filter(q, s)
  {
    if s == [] {
    } else {
      FilterAgree(p, q, s[1..]);
    }
  }

  lemma {:induction false} FilterAll<K(!new)>(test: Test<K>, s: seq<Entry<K>>)
    requires forall e :: e in s ==> Passes(test, e)
    ensures Filter(test, s) == s
  {
    if s == [] {
    } else {
      FilterAll(test, s[1..]);
    }
  }

  lemma {:induction false} FilterNone<K(!new)>(test: Test<K>, s: seq<Entry<K>>)
    requires forall e :: e in s ==> !Passes(test, e)
    ensures Filter(test, s) == []
  {
    if s == [] {
    } else {
      FilterNone(test, s[1..]);
    }
  }

  lemma {:induction false} FilterFilter<K(!new)>(p: Test<K>, q: Test<K>, s: seq<Entry<K>>)
    ensures Filter(p, Filter(q, s)) == Filter(Both(p, q), s)
  {
    if s == [] {
    } else {
      FilterFilter(p, q, s[1..]);
      if Passes(q, s[0]) {
        assert Filter(q, s)[0] == s[0] && Filter(q, s)[1..] == Filter(q, s[1..]);
      }
    }
  }

  lemma {:induction false} FilterKeepsDistinct<K(!new)>(test: Test<K>, s: seq<Entry<K>>)
    requires DistinctKeys(s)
    ensures DistinctKeys(Filter(test, s))
  {
    if s == [] {
    } else {
      FilterKeepsDistinct(test, s[1..]);
      FilterMembers(test, s[1..]);
      forall e | e in Filter(test, s[1..]) ensures e.key != s[0].key {
        var i :| 0 <= i < |s[1..]| && s[1..][i] == e;
        assert s[i + 1] == e;
      }
    }
  }

  lemma SameKeySameEntry<K(!new)>(entries: seq<Entry<K>>, a: Entry<K>, b: Entry<K>)
    requires DistinctKeys(entries) && a in entries && b in entries
    ensures a.key == b.key ==> a == b
  {
    var i :| 0 <= i < |entries| && entries[i] == a;
    var j :| 0 <= j < |entries| && entries[j] == b;
  }

  // ------------------------------------------------------- one operation at a time

  lemma CancelKeepsScheduled<K(!new)>(slotCount: nat, t: Timers<K>, key: K)
    requires Scheduled(slotCount, t)
    ensures Scheduled(slotCount, Cancel(t, key))
    ensures !Live(Cancel(t, key).entries, key)
  {
    FilterMembers(KeyIsNot(key), t.entries);
    FilterKeepsDistinct(KeyIsNot(key), t.entries);
  }

  /** A successful insert schedules the key exactly once; a rejected one is no change. */
  lemma InsertKeepsScheduled<K(!new)>(g: Geometry, t: Timers<K>, key: K, deadline: int)
    requires g.Valid() && Scheduled(g.slotCount, t)
    ensures Scheduled(g.slotCount, Insert(g, t, key, deadline))
    ensures FitsHorizon(g, t, deadline) ==>
      forall e :: e in Insert(g, t, key, deadline).entries <==>
        e == NewEntry(g, t, key, deadline) || (e in t.entries && e.key != key)
    ensures !FitsHorizon(g, t, deadline) ==> Insert(g, t, key, deadline) == t
  {
    CancelKeepsScheduled(g.slotCount, t, key);
    FilterMembers(KeyIsNot(key), t.entries);
    if FitsHorizon(g, t, deadline) {
      var entries := Insert(g, t, key, deadline).entries;
      forall i, j | 0 <= i < j < |entries| ensures entries[i].key != entries[j].key {
        assert entries[i] in Without(t.entries, key);
      }
    }
  }

  lemma SweepKeepsScheduled<K(!new)>(slotCount: nat, t: Timers<K>)
    requires Scheduled(slotCount, t)
    ensures Scheduled(slotCount, Sweep(t))
  {
    FilterMembers(DueIsNot(t.cursor + 1), t.entries);
    FilterKeepsDistinct(DueIsNot(t.cursor + 1), t.entries);
  }

  ghost predicate InTickOrder<K(!new)>(entries: seq<Entry<K>>) {
    forall i, j :: 0 <= i < j < |entries| ==> entries[i].due <= entries[j].due
  }

  lemma {:induction false} AdvanceFires<K(!new)>(slotCount: nat, t: Timers<K>, target: nat)
    requires Scheduled(slotCount, t)
    ensures forall e :: e in Advance(t, target).0 <==> e in t.entries && e.due <= target
    decreases target - t.cursor
  {
    if t.cursor >= target {
    } else {
      SweepKeepsScheduled(slotCount, t);
      AdvanceFires(slotCount, Sweep(t), target);
      FilterMembers(DueIs(t.cursor + 1), t.entries);
      FilterMembers(DueIsNot(t.cursor + 1), t.entries);
      var now, later := DueAt(t.entries, t.cursor + 1), Advance(Sweep(t), target).0;
      assert forall e :: e in now + later <==> e in now || e in later;
    }
  }

  lemma {:induction false} AdvanceLeaves<K(!new)>(slotCount: nat, t: Timers<K>, target: nat)
    requires Scheduled(slotCount, t)
    ensures Advance(t, target).1.entries == Filter(DueAfter(target), t.entries)
    decreases target - t.cursor
  {
    if target <= t.cursor {
      FilterAll(DueAfter(target), t.entries);
    } else {
      var tick := t.cursor + 1;
      SweepKeepsScheduled(slotCount, t);
      AdvanceLeaves(slotCount, Sweep(t), target);
      FilterFilter(DueAfter(target), DueIsNot(tick), t.entries);
      FilterAgree(Both(DueAfter(target), DueIsNot(tick)), DueAfter(target), t.entries);
    }
  }

  lemma {:induction false} AdvanceOrder<K(!new)>(slotCount: nat, t: Timers<K>, target: nat)
    requires Scheduled(slotCount, t)
    ensures DistinctKeys(Advance(t, target).0) && InTickOrder(Advance(t, target).0)
    ensures Scheduled(slotCount, Advance(t, target).1)
    decreases target - t.cursor
  {
    if t.cursor >= target {
    } else {
      SweepKeepsScheduled(slotCount, t);
      AdvanceOrder(slotCount, Sweep(t), target);
      AdvanceFires(slotCount, Sweep(t), target);
      FilterMembers(DueIsNot(t.cursor + 1), t.entries);
      FiredInOrder(t, DueAt(t.entries, t.cursor + 1), Advance(Sweep(t), target).0, t.cursor + 1);
    }
  }

  /** An advance fires exactly the entries due by the target, once each, oldest tick
      first, and leaves exactly the others, in their order. */
  lemma AdvanceFiresExactlyTheDue<K(!new)>(slotCount: nat, t: Timers<K>, target: nat)
    requires Scheduled(slotCount, t)
    ensures var (fired, t') := Advance(t, target);
      && Scheduled(slotCount, t')
      && (forall e :: e in fired <==> e in t.entries && e.due <= target)
      && DistinctKeys(fired) && InTickOrder(fired)
      && t'.entries == Filter(DueAfter(target), t.entries)
  {
    AdvanceFires(slotCount, t, target);
    AdvanceLeaves(slotCount, t, target);
    AdvanceOrder(slotCount, t, target);
  }

  lemma FiredInOrder<K(!new)>(t: Timers<K>, now: seq<Entry<K>>, later: seq<Entry<K>>, tick: nat)
    requires DistinctKeys(t.entries)
    requires now == DueAt(t.entries, tick)
    requires DistinctKeys(later) && InTickOrder(later)
    requires forall e :: e in later ==> e in t.entries && e.due > tick
    ensures DistinctKeys(now + later) && InTickOrder(now + later)
  {
    FilterMembers(DueIs(tick), t.entries);
    FilterKeepsDistinct(DueIs(tick), t.entries);
    var fired := now + later;
    forall i, j | 0 <= i < j < |fired|
      ensures fired[i].due <= fired[j].due && fired[i].key != fired[j].key
    {
      if i < |now| <= j {
        assert fired[i] in now && fired[j] in later;
        SameKeySameEntry(t.entries, fired[i], fired[j]);
      } else if j < |now| {
        assert fired[i] in now && fired[j] in now;
      }
    }
  }

  /** Advancing in two calls fires what one call fires, in the same order, and ends in
      the same state: how often the owner polls the wheel is invisible in its output. */
  lemma {:induction false} AdvanceComposes<K(!new)>(t: Timers<K>, a: nat, b: nat)
    requires a <= b
    ensures var (first, mid) := Advance(t, a);
      var (second, end) := Advance(mid, b);
      Advance(t, b) == (first + second, end)
    decreases a - t.cursor
  {
    if a <= t.cursor {
      assert [] + Advance(t, b).0 == Advance(t, b).0;
    } else {
      AdvanceComposes(Sweep(t), a, b);
      var (first, mid) := Advance(Sweep(t), a);
      var second := Advance(mid, b).0;
      var now := DueAt(t.entries, t.cursor + 1);
      assert now + (first + second) == (now + first) + second;
    }
  }

  lemma AdvanceOneMore<K(!new)>(t: Timers<K>, fired: seq<Entry<K>>, mid: Timers<K>)
    requires t.cursor <= mid.cursor && Advance(t, mid.cursor) == (fired, mid)
    ensures var swept := DueAt(mid.entries, mid.cursor + 1);
      && Advance(t, mid.cursor + 1) == (fired + swept, Sweep(mid))
      && Keys(fired + swept) == Keys(fired) + Keys(swept)
  {
    AdvanceComposes(t, mid.cursor, mid.cursor + 1);
    AdvanceOne(mid);
  }

  lemma AdvanceOne<K(!new)>(t: Timers<K>)
    ensures Advance(t, t.cursor + 1) == (DueAt(t.entries, t.cursor + 1), Sweep(t))
  {
    assert Advance(Sweep(t), t.cursor + 1) == ([], Sweep(t));
    var swept := DueAt(t.entries, t.cursor + 1);
    assert swept + [] == swept;
  }

  // -------------------------------------------------------------------- arithmetic

  lemma MulLe(a: int, b: int, d: nat)
    requires a <= b
    ensures a * d <= b * d
  {
    assert b * d - a * d == (b - a) * d;
  }

  lemma DivMod(n: nat, d: nat)
    requires d > 0
    ensures n == (n / d) * d + n % d && n % d < d
  {
  }

  /** Within one revolution a slot holds a single due tick: residues are injective on
      the window (cursor, cursor + slotCount]. */
  lemma SlotHoldsOneTick(cursor: nat, slotCount: nat, due: nat, tick: nat)
    requires slotCount > 0
    requires cursor < due <= cursor + slotCount && cursor < tick <= cursor + slotCount
    requires due % slotCount == tick % slotCount
    ensures due == tick
  {
    var d, q := due / slotCount, tick / slotCount;
    DivMod(due, slotCount);
    DivMod(tick, slotCount);
    if d > q { MulLe(q + 1, d, slotCount); }
    if d < q { MulLe(d + 1, q, slotCount); }
  }

  lemma CeilDiv(n: nat, d: nat)
    requires d > 0
    ensures var q := (n + d - 1) / d; n <= q * d < n + d
  {
    DivMod(n + d - 1, d);
  }

  /** Timing of one scheduled key: its tick never begins before its deadline, and a
      deadline still ahead of the cursor is due strictly less than one tick after it. */
  lemma DueTickIsTight(g: Geometry, cursor: nat, deadline: int)
    requires g.Valid()
    ensures var due := g.TickIndexFor(cursor, deadline);
      && due > cursor
      && g.start + due * g.tick >= deadline
      && (g.start + cursor * g.tick < deadline ==> g.start + due * g.tick < deadline + g.tick)
  {
    var elapsed := g.Elapsed(deadline);
    var idx := (elapsed + g.tick - 1) / g.tick;
    CeilDiv(elapsed, g.tick);
    var due := g.TickIndexFor(cursor, deadline);
    MulLe(idx, due, g.tick);
    if idx <= cursor {
      MulLe(idx, cursor, g.tick);
    }
  }

  /** The first tick after the cursor that does not begin before the deadline. */
  ghost predicate IsDueTick(g: Geometry, cursor: nat, deadline: int, due: nat) {
    && due > cursor && g.TickStart(due) >= deadline
    && forall k: nat :: k > cursor && g.TickStart(k) >= deadline ==> due <= k
  }

  lemma DueTickIsLeast(g: Geometry, cursor: nat, deadline: int, k: nat)
    requires g.Valid() && k > cursor && g.TickStart(k) >= deadline
    ensures g.TickIndexFor(cursor, deadline) <= k
  {
    var elapsed := g.Elapsed(deadline);
    var idx := (elapsed + g.tick - 1) / g.tick;
    CeilDiv(elapsed, g.tick);
    if idx > k {
      MulLe(k, idx - 1, g.tick);
      MulLe(0, k, g.tick);
    }
  }

  /** A deadline is due at that tick; one that has passed, at the very next. */
  lemma DueTickIsFirst(g: Geometry, cursor: nat, deadline: int)
    requires g.Valid()
    ensures IsDueTick(g, cursor, deadline, g.TickIndexFor(cursor, deadline))
    ensures deadline <= g.TickStart(cursor) ==> g.TickIndexFor(cursor, deadline) == cursor + 1
  {
    DueTickIsTight(g, cursor, deadline);
    forall k: nat | k > cursor && g.TickStart(k) >= deadline ensures g.TickIndexFor(cursor, deadline) <= k {
      DueTickIsLeast(g, cursor, deadline, k);
    }
    if deadline <= g.TickStart(cursor) {
      MulLe(cursor, cursor + 1, g.tick);
      DueTickIsLeast(g, cursor, deadline, cursor + 1);
    }
  }

  lemma TickHasBegun(g: Geometry, due: nat, now: int)
    requires g.Valid() && due > 0
    ensures due <= g.TickAt(now) <==> g.start + due * g.tick <= now
  {
    var e := g.Elapsed(now);
    var q := e / g.tick;
    DivMod(e, g.tick);
    MulLe(1, due, g.tick);
    if due <= q {
      MulLe(due, q, g.tick);
    } else {
      MulLe(q + 1, due, g.tick);
    }
  }

  /** A deadline is accepted exactly when it is at most a full revolution past the
      start of the cursor's tick: the horizon moves with the cursor. */
  lemma HorizonIsExact<K>(g: Geometry, t: Timers<K>, deadline: int)
    requires g.Valid()
    ensures FitsHorizon(g, t, deadline) <==> deadline <= g.start + (t.cursor + g.slotCount) * g.tick
  {
    var elapsed := g.Elapsed(deadline);
    var idx := (elapsed + g.tick - 1) / g.tick;
    var last := t.cursor + g.slotCount;
    CeilDiv(elapsed, g.tick);
    MulLe(0, last, g.tick);
    if idx <= last {
      MulLe(idx, last, g.tick);
    } else {
      MulLe(last + 1, idx, g.tick);
    }
  }

  // ----------------------------------------------------------------- whole runs

  datatype Op<K> = OpInsert(key: K, deadline: int) | OpCancel(key: K) | OpAdvance(now: int)

  /** A key that fired, and the instant the owner passed to the advance that fired it. */
  datatype Firing<K> = Firing(entry: Entry<K>, at: int)

  function Stamp<K>(fired: seq<Entry<K>>, at: int): (r: seq<Firing<K>>)
    ensures |r| == |fired|
    ensures forall i :: 0 <= i < |r| ==> r[i] == Firing(fired[i], at)
  {
    seq(|fired|, i requires 0 <= i < |fired| => Firing(fired[i], at))
  }

  function Step<K(==)>(g: Geometry, t: Timers<K>, op: Op<K>): (seq<Firing<K>>, Timers<K>)
    requires g.Valid()
  {
    match op
    case OpInsert(key, deadline) => ([], Insert(g, t, key, deadline))
    case OpCancel(key) => ([], Cancel(t, key))
    case OpAdvance(now) =>
      var (fired, t') := Advance(t, g.TickAt(now));
      (Stamp(fired, now), t')
  }

  function Run<K(==)>(g: Geometry, t: Timers<K>, ops: seq<Op<K>>): (seq<Firing<K>>, Timers<K>)
    requires g.Valid()
    decreases |ops|
  {
    if ops == [] then ([], t)
    else
      var (first, mid) := Step(g, t, ops[0]);
      var (rest, end) := Run(g, mid, ops[1..]);
      (first + rest, end)
  }

  /** Over any sequence of inserts, cancels and advances the wheel stays representable
      and no key fires before its deadline. */
  lemma {:induction false} NothingFiresEarly<K(!new)>(g: Geometry, t: Timers<K>, ops: seq<Op<K>>)
    requires g.Valid() && Scheduled(g.slotCount, t) && Timed(g, t)
    ensures var (firings, end) := Run(g, t, ops);
      && Scheduled(g.slotCount, end) && Timed(g, end)
      && forall f :: f in firings ==> f.entry.deadline <= f.at
    decreases |ops|
  {
    if ops == [] {
    } else {
      StepFiresOnTime(g, t, ops[0]);
      NothingFiresEarly(g, Step(g, t, ops[0]).1, ops[1..]);
    }
  }

  lemma StepFiresOnTime<K(!new)>(g: Geometry, t: Timers<K>, op: Op<K>)
    requires g.Valid() && Scheduled(g.slotCount, t) && Timed(g, t)
    ensures var (firings, end) := Step(g, t, op);
      && Scheduled(g.slotCount, end) && Timed(g, end)
      && forall f :: f in firings ==> f.entry.deadline <= f.at
  {
    match op {
      case OpInsert(key, deadline) => InsertKeepsScheduled(g, t, key, deadline);
      case OpCancel(key) =>
        CancelKeepsScheduled(g.slotCount, t, key);
        FilterMembers(KeyIsNot(key), t.entries);
      case OpAdvance(now) =>
        AdvanceFiresExactlyTheDue(g.slotCount, t, g.TickAt(now));
        FilterMembers(DueAfter(g.TickAt(now)), t.entries);
        forall f | f in Step(g, t, op).0 ensures f.entry.deadline <= f.at {
          var e := f.entry;
          assert e in Advance(t, g.TickAt(now)).0;
          DueTickIsTight(g, e.insertedAt, e.deadline);
          TickHasBegun(g, e.due, now);
        }
    }
  }

  /** After any run that ends with an advance to `now`, no live key's tick has begun,
      and a live key that was scheduled ahead of the cursor is less than one tick
      overdue: nothing is ever left behind for another revolution. */
  lemma NothingOverdueIsLeft<K(!new)>(g: Geometry, t: Timers<K>, ops: seq<Op<K>>, now: int)
    requires g.Valid() && Scheduled(g.slotCount, t) && Timed(g, t)
    ensures var end := Step(g, Run(g, t, ops).1, OpAdvance(now)).1;
      forall e :: e in end.entries ==>
        && g.start + e.due * g.tick > now
        && (g.start + e.insertedAt * g.tick < e.deadline ==> e.deadline + g.tick > now)
  {
    NothingFiresEarly(g, t, ops);
    var mid := Run(g, t, ops).1;
    AdvanceFiresExactlyTheDue(g.slotCount, mid, g.TickAt(now));
    FilterMembers(DueAfter(g.TickAt(now)), mid.entries);
    forall e | e in Step(g, mid, OpAdvance(now)).1.entries
      ensures g.start + e.due * g.tick > now
      ensures g.start + e.insertedAt * g.tick < e.deadline ==> e.deadline + g.tick > now
    {
      TickHasBegun(g, e.due, now);
      DueTickIsTight(g, e.insertedAt, e.deadline);
    }
  }

  /** A key whose deadline has passed is accepted, and fires with the next advance that moves
      the cursor at all. */
  lemma OverdueFiresNext<K(!new)>(g: Geometry, t: Timers<K>, key: K, deadline: int, target: nat)
    requires g.Valid() && Scheduled(g.slotCount, t) && deadline <= g.TickStart(t.cursor) && target > t.cursor
    ensures FitsHorizon(g, t, deadline)
    ensures Live(Advance(Insert(g, t, key, deadline), target).0, key)
  {
    DueTickIsFirst(g, t.cursor, deadline);
    InsertKeepsScheduled(g, t, key, deadline);
    var t' := Insert(g, t, key, deadline);
    assert NewEntry(g, t, key, deadline) in t'.entries;
    AdvanceFires(g.slotCount, t', target);
    assert NewEntry(g, t, key, deadline) in Advance(t', target).0;
  }

  // ---------------------------------------------------- the slots and the reverse index

  function Retain<K(==)>(keys: seq<K>, key: K): seq<K> {
    if keys == [] then []
    else if keys[0] != key then [keys[0]] + Retain(keys[1..], key)
    else Retain(keys[1..], key)
  }

  function Drop<K(==)>(m: map<K, nat>, keys: seq<K>): map<K, nat> {
    map k | k in m && k !in keys :: m[k]
  }

  lemma DropOneMore<K>(m: map<K, nat>, keys: seq<K>, j: nat)
    requires j < |keys|
    ensures Drop(Drop(m, keys[..j]), [keys[j]]) == Drop(m, keys[..j + 1])
  {
    assert keys[..j + 1] == keys[..j] + [keys[j]];
  }

  /** The slots and the reverse index of a wheel that means `t`: every live key sits in
      exactly one slot, exactly once, at its due tick's residue. */
  ghost predicate Represents<K(!new)>(g: Geometry, slots: seq<seq<K>>, keySlot: map<K, nat>, t: Timers<K>)
    requires g.Valid()
  {
    && |slots| == g.slotCount
    && Scheduled(g.slotCount, t)
    && (forall i :: 0 <= i < |slots| ==> slots[i] == Keys(InSlot(t.entries, g.slotCount, i)))
    && Indexes(g, keySlot, t.entries)
  }

  ghost predicate Indexes<K(!new)>(g: Geometry, keySlot: map<K, nat>, entries: seq<Entry<K>>)
    requires g.Valid()
  {
    && (forall e :: e in entries ==> e.key in keySlot && keySlot[e.key] == e.due % g.slotCount)
    && (forall k :: k in keySlot ==> Live(entries, k))
  }

  lemma {:induction false} RetainKeys<K(!new)>(entries: seq<Entry<K>>, key: K)
    ensures Retain(Keys(entries), key) == Keys(Without(entries, key))
  {
    if entries == [] {
    } else {
      RetainKeys(entries[1..], key);
      assert Keys(entries)[1..] == Keys(entries[1..]);
      var rest := Without(entries[1..], key);
      assert Keys([entries[0]] + rest) == [entries[0].key] + Keys(rest);
    }
  }

  lemma FilterCommutes<K(!new)>(p: Test<K>, q: Test<K>, s: seq<Entry<K>>)
    ensures Filter(p, Filter(q, s)) == Filter(q, Filter(p, s))
  {
    FilterFilter(p, q, s);
    FilterFilter(q, p, s);
    FilterAgree(Both(p, q), Both(q, p), s);
  }

  /** Removing a key from its own slot is removing it from the whole wheel. */
  lemma CancelSlot<K(!new)>(slotCount: nat, entries: seq<Entry<K>>, key: K, i: nat)
    ensures Keys(InSlot(Without(entries, key), slotCount, i)) == Retain(Keys(InSlot(entries, slotCount, i)), key)
    ensures !Live(InSlot(entries, slotCount, i), key) ==>
      Keys(InSlot(Without(entries, key), slotCount, i)) == Keys(InSlot(entries, slotCount, i))
  {
    FilterCommutes(SlotIs(slotCount, i), KeyIsNot(key), entries);
    var inSlot := InSlot(entries, slotCount, i);
    RetainKeys(inSlot, key);
    if !Live(inSlot, key) {
      FilterAll(KeyIsNot(key), inSlot);
    }
  }

  lemma CancelIndexes<K(!new)>(g: Geometry, keySlot: map<K, nat>, entries: seq<Entry<K>>, key: K)
    requires g.Valid() && Indexes(g, keySlot, entries)
    ensures Indexes(g, Drop(keySlot, [key]), Without(entries, key))
    ensures key !in keySlot ==> Drop(keySlot, [key]) == keySlot
  {
    FilterMembers(KeyIsNot(key), entries);
    forall k | k in Drop(keySlot, [key]) ensures Live(Without(entries, key), k) {
      var e :| e in entries && e.key == k;
      assert e in Without(entries, key);
    }
  }

  lemma CancelRepresents<K(!new)>(g: Geometry, slots: seq<seq<K>>, keySlot: map<K, nat>, t: Timers<K>, key: K)
    requires g.Valid() && Represents(g, slots, keySlot, t)
    ensures key !in keySlot ==> Represents(g, slots, keySlot, Cancel(t, key))
    ensures key in keySlot ==>
      var slot := keySlot[key];
      && slot < |slots|
      && Represents(g, slots[slot := Retain(slots[slot], key)], Drop(keySlot, [key]), Cancel(t, key))
  {
    CancelKeepsScheduled(g.slotCount, t, key);
    CancelIndexes(g, keySlot, t.entries, key);
    if key in keySlot {
      var gone :| gone in t.entries && gone.key == key;
      assert keySlot[key] < |slots|;
    }
    forall i: nat | i < |slots|
      ensures var slot' := Keys(InSlot(Without(t.entries, key), g.slotCount, i));
        slot' == if key in keySlot && i == keySlot[key] then Retain(slots[i], key) else slots[i]
    {
      CancelSlot(g.slotCount, t.entries, key, i);
      FilterMembers(SlotIs(g.slotCount, i), t.entries);
    }
  }

  lemma InsertIndexes<K(!new)>(g: Geometry, keySlot: map<K, nat>, kept: seq<Entry<K>>, entry: Entry<K>)
    requires g.Valid() && Indexes(g, keySlot, kept) && !Live(kept, entry.key)
    ensures Indexes(g, keySlot[entry.key := entry.due % g.slotCount], kept + [entry])
  {
    forall k | k in keySlot ensures Live(kept + [entry], k) {
      var e :| e in kept && e.key == k;
      assert e in kept + [entry];
    }
    assert entry in kept + [entry];
  }

  lemma InsertSlot<K(!new)>(g: Geometry, kept: seq<Entry<K>>, entry: Entry<K>, i: nat)
    requires g.Valid()
    ensures Keys(InSlot(kept + [entry], g.slotCount, i))
         == Keys(InSlot(kept, g.slotCount, i)) + if i == entry.due % g.slotCount then [entry.key] else []
  {
    FilterConcat(SlotIs(g.slotCount, i), kept, [entry]);
  }

  lemma InsertRepresents<K(!new)>(g: Geometry, slots: seq<seq<K>>, keySlot: map<K, nat>, t: Timers<K>, key: K, deadline: int)
    requires g.Valid() && Represents(g, slots, keySlot, Cancel(t, key))
    requires Scheduled(g.slotCount, t) && FitsHorizon(g, t, deadline)
    ensures var slot := g.TickIndexFor(t.cursor, deadline) % g.slotCount;
      Represents(g, slots[slot := slots[slot] + [key]], keySlot[key := slot], Insert(g, t, key, deadline))
  {
    FilterMembers(KeyIsNot(key), t.entries);
    InsertKeepsScheduled(g, t, key, deadline);
    var kept := Without(t.entries, key);
    var entry := NewEntry(g, t, key, deadline);
    InsertIndexes(g, keySlot, kept, entry);
    forall i: nat | i < |slots|
      ensures Keys(InSlot(kept + [entry], g.slotCount, i))
           == slots[i] + if i == entry.due % g.slotCount then [key] else []
    {
      InsertSlot(g, kept, entry, i);
    }
  }

  /** Sweeping one tick empties one slot and leaves every other slot as it was. */
  lemma SweepSlot<K(!new)>(slotCount: nat, t: Timers<K>, i: nat)
    requires slotCount > 0 && Scheduled(slotCount, t) && i < slotCount
    ensures i == (t.cursor + 1) % slotCount ==> InSlot(t.entries, slotCount, i) == DueAt(t.entries, t.cursor + 1)
    ensures InSlot(Sweep(t).entries, slotCount, i)
         == if i == (t.cursor + 1) % slotCount then [] else InSlot(t.entries, slotCount, i)
  {
    var tick := t.cursor + 1;
    forall e | e in t.entries && e.due % slotCount == tick % slotCount ensures e.due == tick {
      SlotHoldsOneTick(t.cursor, slotCount, e.due, tick);
    }
    if i == tick % slotCount {
      FilterAgree(SlotIs(slotCount, i), DueIs(tick), t.entries);
      FilterMembers(DueIsNot(tick), t.entries);
      FilterNone(SlotIs(slotCount, i), NotDueAt(t.entries, tick));
    } else {
      FilterFilter(SlotIs(slotCount, i), DueIsNot(tick), t.entries);
      FilterAgree(Both(SlotIs(slotCount, i), DueIsNot(tick)), SlotIs(slotCount, i), t.entries);
    }
  }

  lemma SweepRepresents<K(!new)>(g: Geometry, slots: seq<seq<K>>, keySlot: map<K, nat>, t: Timers<K>, slot: nat)
    requires g.Valid() && Represents(g, slots, keySlot, t)
    requires slot == (t.cursor + 1) % g.slotCount
    ensures slot < |slots| && slots[slot] == Keys(DueAt(t.entries, t.cursor + 1))
    ensures Represents(g, slots[slot := []], Drop(keySlot, slots[slot]), Sweep(t))
  {
    SweepKeepsScheduled(g.slotCount, t);
    forall i: nat | i < |slots|
      ensures i == slot ==> InSlot(t.entries, g.slotCount, i) == DueAt(t.entries, t.cursor + 1)
      ensures InSlot(Sweep(t).entries, g.slotCount, i) == if i == slot then [] else InSlot(t.entries, g.slotCount, i)
    {
      SweepSlot(g.slotCount, t, i);
    }
    SweepIndexes(g, keySlot, t, slots[slot]);
  }

  /** An advance to an instant fires the keys whose tick has begun by then, and leaves the others. */
  lemma DueHasBegun<K(!new)>(g: Geometry, t: Timers<K>, now: int)
    requires g.Valid() && Scheduled(g.slotCount, t)
    ensures var (fired, t') := Advance(t, g.TickAt(now));
      && (forall k :: k in Keys(fired) <==> exists e :: e in t.entries && e.key == k && g.TickStart(e.due) <= now)
      && (forall e :: e in t'.entries <==> e in t.entries && g.TickStart(e.due) > now)
  {
    var target := g.TickAt(now);
    AdvanceFiresExactlyTheDue(g.slotCount, t, target);
    FilterMembers(DueAfter(target), t.entries);
    forall e | e in t.entries ensures e.due <= target <==> g.TickStart(e.due) <= now {
      TickHasBegun(g, e.due, now);
    }
    forall k ensures k in Keys(Advance(t, target).0) <==> Live(Advance(t, target).0, k) {
      KeysAreLive(Advance(t, target).0, k);
    }
  }

  lemma KeysAreLive<K(!new)>(entries: seq<Entry<K>>, key: K)
    ensures key in Keys(entries) <==> Live(entries, key)
  {
    if key in Keys(entries) {
      var j :| 0 <= j < |entries| && entries[j].key == key;
      assert entries[j] in entries;
    }
    if Live(entries, key) {
      var e :| e in entries && e.key == key;
      var j :| 0 <= j < |entries| && entries[j] == e;
      assert Keys(entries)[j] == key;
    }
  }

  lemma SweepIndexes<K(!new)>(g: Geometry, keySlot: map<K, nat>, t: Timers<K>, drained: seq<K>)
    requires g.Valid() && Scheduled(g.slotCount, t) && Indexes(g, keySlot, t.entries)
    requires drained == Keys(DueAt(t.entries, t.cursor + 1))
    ensures Indexes(g, Drop(keySlot, drained), Sweep(t).entries)
  {
    var swept := DueAt(t.entries, t.cursor + 1);
    FilterMembers(DueIs(t.cursor + 1), t.entries);
    FilterMembers(DueIsNot(t.cursor + 1), t.entries);
    forall e, e' | e in Sweep(t).entries && e' in swept ensures e.key != e'.key {
      SameKeySameEntry(t.entries, e, e');
    }
    forall e | e in Sweep(t).entries ensures e.key !in drained {
      KeysAreLive(swept, e.key);
    }
    forall k | k in Drop(keySlot, drained) ensures Live(Sweep(t).entries, k) {
      var e :| e in t.entries && e.key == k;
      KeysAreLive(swept, k);
      assert e !in swept;
      assert e in Sweep(t).entries;
    }
  }

  // ------------------------------------------------------------- the implementation

  /** Takes the drained keys out of the reverse index, one at a time. */
  method Forget<K(==,!new)>(index: map<K, nat>, keys: seq<K>) returns (r: map<K, nat>)
    ensures r == Drop(index, keys)
  {
    r := index;
    for j := 0 to |keys|
      invariant r == Drop(index, keys[..j])
    {
      DropOneMore(index, keys, j);
      r := Drop(r, [keys[j]]);
    }
    assert keys[..|keys|] == keys;
  }

  class Wheel<K(==,!new)> {
    const geometry: Geometry
    const slots: array<seq<K>>
    /** Which slot each live key sits in. */
    var keySlot: map<K, nat>
    var lastAdvancedTick: nat
    /** What the wheel means. */
    ghost var timers: Timers<K>

    ghost predicate Valid()
      reads this, slots
    {
      && geometry.Valid()
      && timers.cursor == lastAdvancedTick
      && Represents(geometry, slots[..], keySlot, timers)
    }

    constructor (slotCount: nat, tick: nat, start: int)
      requires slotCount > 0 && tick > 0
      ensures Valid() && fresh(slots)
      ensures geometry == Geometry(start, tick, slotCount)
      ensures timers == Timers(0, [])
    {
      geometry := Geometry(start, tick, slotCount);
      slots := new seq<K>[slotCount](_ => []);
      keySlot := map[];
      lastAdvancedTick := 0;
      timers := Timers(0, []);
    }

    method Contains(key: K) returns (found: bool)
      requires Valid()
      ensures found <==> Live(timers.entries, key)
    {
      found := key in keySlot;
    }

    method CancelKey(key: K) returns (wasLive: bool)
      requires Valid()
      modifies this, slots
      ensures Valid()
      ensures wasLive <==> old(Live(timers.entries, key))
      ensures timers == Cancel(old(timers), key)
      ensures timers.cursor == old(timers.cursor)
      ensures forall e :: e in timers.entries <==> e in old(timers.entries) && e.key != key
    {
      FilterMembers(KeyIsNot(key), timers.entries);
      CancelRepresents(geometry, slots[..], keySlot, timers, key);
      wasLive := key in keySlot;
      if wasLive {
        var slot := keySlot[key];
        keySlot := Drop(keySlot, [key]);
        slots[slot] := Retain(slots[slot], key);
      }
      timers := Cancel(timers, key);
    }

    /** False, and nothing changed at all, when the deadline is beyond the horizon. */
    method InsertKey(key: K, deadline: int) returns (ok: bool)
      requires Valid()
      modifies this, slots
      ensures Valid()
      ensures ok <==> FitsHorizon(geometry, old(timers), deadline)
      ensures timers == Insert(geometry, old(timers), key, deadline)
      ensures !ok ==> timers == old(timers) && slots[..] == old(slots[..]) && keySlot == old(keySlot)
      ensures ok <==> deadline <= geometry.TickStart(old(timers.cursor) + geometry.slotCount)
      ensures ok ==>
        exists e :: e in timers.entries && e.key == key && IsDueTick(geometry, old(timers.cursor), deadline, e.due)
      ensures forall e: Entry<K> :: e.key != key ==> (e in timers.entries <==> e in old(timers.entries))
    {
      HorizonIsExact(geometry, timers, deadline);
      InsertKeepsScheduled(geometry, timers, key, deadline);
      DueTickIsFirst(geometry, timers.cursor, deadline);
      ghost var entry := NewEntry(geometry, timers, key, deadline);
      var tickIndex := geometry.TickIndexFor(lastAdvancedTick, deadline);
      if tickIndex - lastAdvancedTick > geometry.slotCount {
        return false;
      }
      ghost var was := timers;
      var _ := CancelKey(key);
      InsertRepresents(geometry, slots[..], keySlot, was, key, deadline);
      var slot := tickIndex % geometry.slotCount;
      slots[slot] := slots[slot] + [key];
      keySlot := keySlot[key := slot];
      timers := Insert(geometry, was, key, deadline);
      assert entry in timers.entries;
      ok := true;
    }

    /** Fires exactly what `Advance` says, however many revolutions `now` is away. */
    method AdvanceTo(now: int) returns (due: seq<K>)
      requires Valid()
      modifies this, slots
      ensures Valid()
      ensures var (fired, t') := Advance(old(timers), geometry.TickAt(now));
        due == Keys(fired) && timers == t'
      ensures forall k :: k in due <==>
        exists e :: e in old(timers.entries) && e.key == k && geometry.TickStart(e.due) <= now
      ensures forall e :: e in timers.entries <==> e in old(timers.entries) && geometry.TickStart(e.due) > now
    {
      DueHasBegun(geometry, timers, now);
      var target := geometry.TickAt(now);
      ghost var was := timers;
      ghost var fired: seq<Entry<K>> := [];
      due := [];
      while lastAdvancedTick < target
        invariant Valid()
        invariant lastAdvancedTick <= target || timers == was
        invariant Advance(was, lastAdvancedTick) == (fired, timers)
        invariant due == Keys(fired)
        decreases target - lastAdvancedTick
      {
        AdvanceOneMore(was, fired, timers);
        fired := fired + DueAt(timers.entries, lastAdvancedTick + 1);
        var drained := SweepOneTick();
        due := due + drained;
      }
    }

    /** One turn of the advance loop. */
    method SweepOneTick() returns (drained: seq<K>)
      requires Valid()
      modifies this, slots
      ensures Valid()
      ensures lastAdvancedTick == old(lastAdvancedTick) + 1
      ensures drained == Keys(DueAt(old(timers.entries), lastAdvancedTick))
      ensures timers == Sweep(old(timers))
    {
      lastAdvancedTick := lastAdvancedTick + 1;
      var slot := lastAdvancedTick % geometry.slotCount;
      SweepRepresents(geometry, slots[..], keySlot, timers, slot);
      drained := slots[slot];
      slots[slot] := [];
      keySlot := Forget(keySlot, drained);
      timers := Sweep(timers);
    }
  }
}
