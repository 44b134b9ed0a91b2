/** The printer of CPU sets, in the kernel's "List format" for cpuset files. */
module Cpuset {
  import opened Ordering
  import opened Text
  import opened Wrappers

  datatype Range = Range(lo: nat, hi: nat)

  predicate IsRange(r: Range) { r.lo <= r.hi }

  predicate AreRanges(rs: seq<Range>) { forall i :: 0 <= i < |rs| ==> IsRange(rs[i]) }

  /** The numbers ranges stand for, in order. */
  function Expand(rs: seq<Range>): seq<nat>
    requires AreRanges(rs)
  {
    if rs == [] then [] else Interval(rs[0].lo, rs[0].hi) + Expand(rs[1..])
  }

  /** Ascending ranges with a gap between any two: none could be extended or joined. */
  predicate AreMaximal(rs: seq<Range>) {
    AreRanges(rs) && forall i :: 0 <= i < |rs| - 1 ==> rs[i].hi + 1 < rs[i + 1].lo
  }

  // ---------------------------------------------------------------------- printing

  /** How far the numbers run on by one from the first. */
  function RunLength(s: seq<nat>): (n: nat)
    requires s != []
    ensures 1 <= n <= |s| && forall i :: 0 <= i < n ==> s[i] == s[0] + i
    ensures n < |s| ==> s[n] != s[0] + n
  {
    if |s| == 1 || s[1] != s[0] + 1 then 1
    else
      var n := RunLength(s[1..]);
      assert forall i :: 0 < i < n + 1 ==> s[i] == s[1..][i - 1];
      assert n < |s| - 1 ==> s[n + 1] == s[1..][n];
      n + 1
  }

  function Runs(s: seq<nat>): (rs: seq<Range>)
    ensures AreRanges(rs)
    decreases |s|
  {
    if s == [] then []
    else var n := RunLength(s); [Range(s[0], s[n - 1])] + Runs(s[n..])
  }

  function PrintRange(r: Range): string {
    if r.lo == r.hi then Render(r.lo) else Render(r.lo) + "-" + Render(r.hi)
  }

  function PrintRanges(rs: seq<Range>): (parts: seq<string>)
    ensures |parts| == |rs|
  {
    if rs == [] then [] else [PrintRange(rs[0])] + PrintRanges(rs[1..])
  }

  function Print(rs: seq<Range>): string { Join(PrintRanges(rs), ',') }

  /** The inner loop of the printer: it follows a run to its end. */
  method FollowRun(order: seq<nat>, first: nat) returns (end: nat, next: nat)
    requires first < |order|
    ensures next == first + RunLength(order[first..]) && end == order[next - 1]
  {
    ghost var rest := order[first..];
    next := first + 1;
    end := order[first];
    while next < |order| && order[next] == end + 1
      invariant first < next <= first + RunLength(rest)
      invariant end == rest[0] + (next - first - 1) == order[next - 1]
    {
      assert order[next] == rest[next - first];
      end := order[next];
      next := next + 1;
    }
    assert next < |order| ==> order[next] == rest[next - first];
  }

  lemma RunsStep(order: seq<nat>, first: nat, next: nat)
    requires first < |order| && next == first + RunLength(order[first..])
    ensures PrintRanges(Runs(order[first..]))
         == [PrintRange(Range(order[first], order[next - 1]))] + PrintRanges(Runs(order[next..]))
  {
    var rest := order[first..];
    assert rest[next - first..] == order[next..];
    var runs := Runs(rest);
    assert runs[0] == Range(order[first], order[next - 1]);
    assert runs[1..] == Runs(order[next..]);
  }

  /** The text of a CPU set. */
  method FormatCpuset(cpus: set<nat>) returns (text: string)
    ensures text == Print(Runs(Ordered(cpus)))
  {
    var order := Ordered(cpus);
    var next := 0;
    var parts: seq<string> := [];
    assert order[0..] == order;
    while next < |order|
      invariant next <= |order|
      invariant parts + PrintRanges(Runs(order[next..])) == PrintRanges(Runs(order))
      decreases |order| - next
    {
      var first := next;
      var start := order[first];
      var end;
      end, next := FollowRun(order, first);
      var part := if start == end then Render(start) else Render(start) + "-" + Render(end);
      RunsStep(order, first, next);
      Regroup(parts, part, PrintRanges(Runs(order[next..])));
      parts := parts + [part];
    }
    assert order[next..] == [] && parts + [] == parts;
    text := Join(parts, ',');
  }

  lemma Regroup(a: seq<string>, part: string, b: seq<string>)
    ensures a + ([part] + b) == (a + [part]) + b
  {
  }

  // ----------------------------------------------------- runs and expansion are inverses

  lemma RunIsInterval(s: seq<nat>, n: nat)
    requires 1 <= n <= |s| && forall i :: 0 <= i < n ==> s[i] == s[0] + i
    ensures s[0] <= s[n - 1] && Interval(s[0], s[n - 1]) + s[n..] == s
  {
    assert s[n - 1] == s[0] + (n - 1);
    var a, b := Interval(s[0], s[n - 1]), s[..n];
    forall i | 0 <= i < n ensures a[i] == b[i] {
      assert b[i] == s[i] == s[0] + i;
    }
    assert a == b;
  }

  lemma {:induction false} ExpandOfRuns(s: seq<nat>)
    ensures Expand(Runs(s)) == s
    decreases |s|
  {
    if s == [] {
    } else {
      var n := RunLength(s);
      ExpandOfRuns(s[n..]);
      RunIsInterval(s, n);
      ExpandStep(Range(s[0], s[n - 1]), Runs(s[n..]));
    }
  }

  lemma ExpandStep(r: Range, rs: seq<Range>)
    requires IsRange(r) && AreRanges(rs)
    ensures AreRanges([r] + rs) && Expand([r] + rs) == Interval(r.lo, r.hi) + Expand(rs)
  {
    assert ([r] + rs)[1..] == rs;
  }

  /** The runs of an ascending sequence are as long as possible. */
  lemma {:induction false} RunsAreMaximal(s: seq<nat>)
    requires Ascending(s)
    ensures AreMaximal(Runs(s))
    decreases |s|
  {
    if s == [] {
    } else {
      var n := RunLength(s);
      RunsAreMaximal(s[n..]);
      if n < |s| {
        assert Runs(s)[1].lo == s[n];
        assert s[n - 1] < s[n] && s[n] != s[n - 1] + 1;
      }
      assert Runs(s)[1..] == Runs(s[n..]);
      RestMaximal(Runs(s));
    }
  }

  lemma RestMaximal(rs: seq<Range>)
    requires rs != [] && IsRange(rs[0]) && AreMaximal(rs[1..])
    requires |rs| > 1 ==> rs[0].hi + 1 < rs[1].lo
    ensures AreMaximal(rs)
  {
    forall i | 0 <= i < |rs| - 1 ensures rs[i].hi + 1 < rs[i + 1].lo {
      if i > 0 { assert rs[i] == rs[1..][i - 1] && rs[i + 1] == rs[1..][i]; }
    }
    forall i | 0 <= i < |rs| ensures IsRange(rs[i]) {
      if i > 0 { assert rs[i] == rs[1..][i - 1]; }
    }
  }

  lemma {:induction false} RunEndsAt(s: seq<nat>, k: nat)
    requires 1 <= k <= |s| && forall i :: 0 <= i < k ==> s[i] == s[0] + i
    requires k < |s| ==> s[k] != s[0] + k
    ensures RunLength(s) == k
  {
    if k <= 1 {
    } else {
      assert forall i :: 0 <= i < k - 1 ==> s[1..][i] == s[i + 1];
      RunEndsAt(s[1..], k - 1);
    }
  }

  /** The first run of an expansion is its first range, if no second one continues it. */
  lemma FirstRun(r: Range, rest: seq<nat>)
    requires IsRange(r) && (rest != [] ==> r.hi + 1 < rest[0])
    ensures var s := Interval(r.lo, r.hi) + rest;
      RunLength(s) == r.hi - r.lo + 1 && s[0] == r.lo && s[r.hi - r.lo] == r.hi && s[r.hi - r.lo + 1..] == rest
  {
    var first := Interval(r.lo, r.hi);
    var s := first + rest;
    assert forall i :: 0 <= i < |first| ==> s[i] == first[i];
    assert rest != [] ==> s[|first|] == rest[0];
    RunEndsAt(s, |first|);
  }

  lemma RestStartsAt(rs: seq<Range>)
    requires AreMaximal(rs) && rs != []
    ensures AreMaximal(rs[1..])
    ensures Expand(rs[1..]) != [] ==> rs[0].hi + 1 < Expand(rs[1..])[0]
  {
    forall i | 0 <= i < |rs| - 1 ensures rs[1..][i] == rs[i + 1] {}
    if |rs| > 1 {
      assert Expand(rs[1..])[0] == rs[1].lo;
    }
  }

  /** Maximal ranges are the only ones: two such lists for the same numbers are equal. */
  lemma {:induction false} MaximalIsUnique(rs: seq<Range>)
    requires AreMaximal(rs)
    ensures Runs(Expand(rs)) == rs
  {
    if rs == [] {
    } else {
      RestStartsAt(rs);
      MaximalIsUnique(rs[1..]);
      FirstRun(rs[0], Expand(rs[1..]));
      assert [rs[0]] + rs[1..] == rs;
    }
  }

  // ---------------------------------------------------------------------- reading back

  function ParseNumber(s: string): Option<nat> { if s == "" || !AllDigits(s) then None else Some(Value(s)) }

  /** A number, or two with a dash between them. */
  function ParseRange(s: string): Option<Range> {
    match SplitOnce(s, '-')
    case None =>
      (match ParseNumber(s)
       case None => None
       case Some(n) => Some(Range(n, n)))
    case Some((a, b)) =>
      match (ParseNumber(a), ParseNumber(b))
      case (Some(lo), Some(hi)) => if lo <= hi then Some(Range(lo, hi)) else None
      case _ => None
  }

  function ParseRanges(parts: seq<string>): (r: Option<seq<Range>>)
    ensures r.Some? ==> AreRanges(r.value)
  {
    if parts == [] then Some([])
    else
      match (ParseRange(parts[0]), ParseRanges(parts[1..]))
      case (Some(range), Some(rest)) => Some([range] + rest)
      case _ => None
  }

  /** The "List format" of cpuset(7): numbers and ranges of numbers, separated by commas; the
      empty text is the empty set. */
  function ParseCpuset(text: string): Option<seq<nat>> {
    var ranges := if text == "" then Some([]) else ParseRanges(Split(text, ','));
    if ranges.None? then None else Some(Expand(ranges.value))
  }

  lemma NumberRoundTrip(n: nat)
    ensures ParseNumber(Render(n)) == Some(n) && Lacks(Render(n), '-') && Lacks(Render(n), ',')
  {
    ValueOfRender(n);
  }

  lemma RangeRoundTrip(r: Range)
    requires IsRange(r)
    ensures ParseRange(PrintRange(r)) == Some(r) && Lacks(PrintRange(r), ',') && PrintRange(r) != ""
  {
    NumberRoundTrip(r.lo);
    NumberRoundTrip(r.hi);
    if r.lo == r.hi {
      SplitOnceNone(Render(r.lo), '-');
    } else {
      SplitOnceAt(Render(r.lo), '-', Render(r.hi));
    }
  }

  lemma {:induction false} RangesRoundTrip(rs: seq<Range>)
    requires AreRanges(rs)
    ensures ParseRanges(PrintRanges(rs)) == Some(rs)
  {
    if rs == [] {
    } else {
      RangeRoundTrip(rs[0]);
      RangesRoundTrip(rs[1..]);
      assert [rs[0]] + rs[1..] == rs;
    }
  }

  lemma {:induction false} PrintedLacksComma(rs: seq<Range>, i: nat)
    requires AreRanges(rs) && i < |rs|
    ensures Lacks(PrintRanges(rs)[i], ',') && PrintRanges(rs)[i] != ""
  {
    RangeRoundTrip(rs[0]);
    if i == 0 {
    } else {
      PrintedLacksComma(rs[1..], i - 1);
    }
  }

  lemma {:induction false} PrintRoundTrip(rs: seq<Range>)
    requires AreRanges(rs)
    ensures ParseCpuset(Print(rs)) == Some(Expand(rs))
  {
    if rs != [] {
      var parts := PrintRanges(rs);
      forall i | 0 <= i < |parts| ensures Lacks(parts[i], ',') {
        PrintedLacksComma(rs, i);
      }
      SplitOfJoin(parts, ',');
      RangesRoundTrip(rs);
      PrintedLacksComma(rs, 0);
      assert |Print(rs)| >= |parts[0]|;
    }
  }

  /** Reading a printed CPU set gives back its members in ascending order, and the ranges
      printed are its maximal runs. */
  lemma CpusetRoundTrip(cpus: set<nat>, cpu: nat)
    ensures var read := ParseCpuset(Print(Runs(Ordered(cpus))));
      read.Some? && Ascending(read.value) && (cpu in read.value <==> cpu in cpus)
    ensures AreMaximal(Runs(Ordered(cpus)))
  {
    OrderedAscends(cpus);
    OrderedHas(cpus, cpu);
    PrintRoundTrip(Runs(Ordered(cpus)));
    ExpandOfRuns(Ordered(cpus));
    RunsAreMaximal(Ordered(cpus));
  }
}
