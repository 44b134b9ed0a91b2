/** One field of a cron expression: its parser, on the text and with the 32-bit
    arithmetic the program uses, and what a field denotes. */
module CronField {
  import opened Ordering
  import opened Text
  import opened Wrappers

  const WIDTH: nat := 0x1_0000_0000

  datatype Error = BadStep | BadRangeStart | BadRangeEnd | BadValue | OutOfRange

  datatype Result<T> = Ok(value: T) | Err(error: Error)

  /** A 32-bit unsigned number: an optional plus sign, then digits. */
  function ParseU32(s: string): Option<nat> {
    var digits := if s != "" && s[0] == '+' then s[1..] else s;
    if digits == "" || !AllDigits(digits) || Value(digits) >= WIDTH then None else Some(Value(digits))
  }

  /** The numbers a field can hold are those of 32 bits. */
  lemma ParsesExactlyU32(s: string)
    requires s != "" && AllDigits(s)
    ensures ParseU32(s) == if Value(s) <= 4294967295 then Some(Value(s)) else None
    ensures ParseU32("+" + s) == ParseU32(s)
    ensures ParseU32("-" + s) == None && ParseU32("") == None && ParseU32("+") == None
  {
    assert ("+" + s)[1..] == s && ("-" + s)[0] == '-';
    assert ("+")[1..] == "";
  }

  // ------------------------------------------------------------------- one list item

  /** From `lo` to `hi` by `step`. */
  datatype Span = Span(lo: nat, hi: nat, step: nat)

  function ParseRange(text: string, explicitStep: bool, min: nat, max: nat): Result<(nat, nat)> {
    if text == "*" then Ok((min, max))
    else
      match SplitOnce(text, '-')
      case Some((a, b)) =>
        (match ParseU32(a)
         case None => Err(BadRangeStart)
         case Some(lo) =>
           match ParseU32(b)
           case None => Err(BadRangeEnd)
           case Some(hi) => Ok((lo, hi)))
      case None =>
        match ParseU32(text)
        case None => Err(BadValue)
        case Some(v) => Ok((v, if explicitStep then max else v))
  }

  function ParsePart(part: string, min: nat, max: nat): Result<Span> {
    var slash := SplitOnce(part, '/');
    var rangeText := if slash.Some? then slash.value.0 else part;
    var step := if slash.Some? then ParseU32(slash.value.1) else Some(1);
    if step.None? then Err(BadStep)
    else
      match ParseRange(rangeText, slash.Some?, min, max)
      case Err(e) => Err(e)
      case Ok((lo, hi)) =>
        if lo < min || hi > max || lo > hi then Err(OutOfRange) else Ok(Span(lo, hi, step.value))
  }

  /** What is wrong with an item: its step is looked at first, then the two ends of a range or
      the one value, and the bounds last. */
  lemma ErrorsAre(range: string, step: string, min: nat, max: nat)
    requires Lacks(range, '/')
    ensures ParsePart(range + "/" + step, min, max) == Err(BadStep) <==> ParseU32(step).None?
    ensures ParseU32(step).Some? && ParseRange(range, true, min, max).Err? ==>
      ParsePart(range + "/" + step, min, max) == Err(ParseRange(range, true, min, max).error)
    ensures ParseRange(range, false, min, max).Err? ==>
      ParsePart(range, min, max) == Err(ParseRange(range, false, min, max).error)
  {
    SplitOnceAt(range, '/', step);
    SplitOnceNone(range, '/');
  }

  lemma RangeErrorsAre(first: string, last: string, explicitStep: bool, min: nat, max: nat)
    requires Lacks(first, '-')
    ensures ParseRange(first + "-" + last, explicitStep, min, max)
         == if ParseU32(first).None? then Err(BadRangeStart)
            else if ParseU32(last).None? then Err(BadRangeEnd)
            else Ok((ParseU32(first).value, ParseU32(last).value))
    ensures first != "*" && ParseU32(first).None? ==> ParseRange(first, explicitStep, min, max) == Err(BadValue)
  {
    SplitOnceAt(first, '-', last);
    SplitOnceNone(first, '-');
    assert |first + "-" + last| >= 1 && (first + "-" + last)[|first|] == '-';
  }

  function Stride(step: nat): (r: nat)
    ensures r >= 1
  {
    if step < 1 then 1 else step
  }

  /** The sum of two 32-bit numbers, in 32 bits. */
  function WrappingAdd(a: nat, b: nat): (r: nat)
    requires a < WIDTH && b < WIDTH
    ensures r < WIDTH && (r == a + b || r == a + b - WIDTH) && r == (a + b) % 4294967296
  {
    if a + b < WIDTH then a + b else a + b - WIDTH
  }

  /** How many more values can still be collected from `v`: an ascending walk is bounded
      by `hi`, and a step above `hi` can only descend, by wrapping. */
  function Left(v: nat, hi: nat, step: nat): nat {
    if v > hi then 0 else if Stride(step) <= hi then hi + 1 - v else v + 1
  }

  /** The values the program collects from `v` up to `hi`: each next one is a wrapping
      32-bit sum. */
  function Collect(v: nat, hi: nat, step: nat): seq<nat>
    requires v < WIDTH && hi < WIDTH / 2 && step < WIDTH
    decreases Left(v, hi, step)
  {
    if v > hi then [] else [v] + Collect(WrappingAdd(v, Stride(step)), hi, step)
  }

  /** The values a span denotes. */
  predicate InSpan(span: Span, v: nat) {
    span.lo <= v <= span.hi && (v - span.lo) % Stride(span.step) == 0
  }

  /** The next value does not overflow 32 bits. */
  predicate NoWrap(span: Span) { span.lo + Stride(span.step) < WIDTH }

  ghost predicate SpanOk(span: Span) { span.lo <= span.hi < WIDTH / 2 && span.step < WIDTH }

  lemma ModStep(a: nat, s: nat)
    requires s > 0 && a >= s
    ensures a % s == (a - s) % s
  {
    var q := (a - s) / s;
    assert a - s == q * s + (a - s) % s;
    assert a == (q + 1) * s + (a - s) % s;
    ModUnique(a, s, q + 1, (a - s) % s);
  }

  lemma ModUnique(n: nat, s: nat, q: nat, r: nat)
    requires s > 0 && n == q * s + r && r < s
    ensures n % s == r
  {
    var d := n / s - q;
    assert n == (q + d) * s + n % s;
    assert d * s == r - n % s;
    SmallMultiple(d, s);
  }

  lemma SmallMultiple(d: int, s: int)
    requires s > 0 && -s < d * s < s
    ensures d == 0
  {
  }

  /** The values of a span are its first and those a step further. */
  lemma SpanStep(lo: nat, hi: nat, step: nat, x: nat)
    requires lo <= hi
    ensures InSpan(Span(lo, hi, step), x) <==> x == lo || InSpan(Span(lo + Stride(step), hi, step), x)
  {
    var s := Stride(step);
    if x >= lo + s {
      ModStep(x - lo, s);
    } else if lo < x {
      SmallMod(x - lo, s);
    }
  }

  lemma CollectStep(v: nat, hi: nat, step: nat, x: nat)
    requires v <= hi < WIDTH / 2 && step < WIDTH && v + Stride(step) < WIDTH
    ensures x in Collect(v, hi, step) <==> x == v || x in Collect(v + Stride(step), hi, step)
  {
    assert Collect(v, hi, step) == [v] + Collect(v + Stride(step), hi, step);
  }

  /** Without an overflow, `x` is collected exactly when a whole number of steps leads to it. */
  lemma {:induction false} CollectIsSpan(v: nat, hi: nat, step: nat, x: nat)
    requires hi < WIDTH / 2 && step < WIDTH && v + Stride(step) < WIDTH
    ensures x in Collect(v, hi, step) <==> InSpan(Span(v, hi, step), x)
    decreases hi + 1 - v
  {
    if v > hi {
    } else {
      var next := v + Stride(step);
      CollectStep(v, hi, step, x);
      SpanStep(v, hi, step, x);
      if next <= hi {
        CollectIsSpan(next, hi, step, x);
      }
    }
  }

  lemma SmallMod(a: nat, s: nat)
    requires 0 < a < s
    ensures a % s == a
  {
  }

  /** The values collected for a list item are exactly those it denotes if and only if
      its first value plus its step does not overflow; otherwise a value below the item's
      first one is collected too. */
  lemma CollectIsSpanExactlyWhen(span: Span)
    requires SpanOk(span)
    ensures (forall x: nat :: x in Collect(span.lo, span.hi, span.step) <==> InSpan(span, x)) <==> NoWrap(span)
  {
    if NoWrap(span) {
      forall x: nat ensures x in Collect(span.lo, span.hi, span.step) <==> InSpan(span, x) {
        CollectIsSpan(span.lo, span.hi, span.step, x);
      }
    } else {
      var wrapped := WrappingAdd(span.lo, Stride(span.step));
      assert wrapped == span.lo + Stride(span.step) - WIDTH;
      assert wrapped in Collect(wrapped, span.hi, span.step);
      assert Collect(span.lo, span.hi, span.step) == [span.lo] + Collect(wrapped, span.hi, span.step);
      assert wrapped in Collect(span.lo, span.hi, span.step) && !InSpan(span, wrapped);
    }
  }

  /** How far a step that overflows 32 bits goes down instead. */
  function Fall(step: nat): (r: nat)
    requires step < WIDTH
    ensures r >= 1
  {
    WIDTH - Stride(step)
  }

  /** The values the program collects for a span: those it denotes or, if the first step
      overflows, the first value and those below it by whole falls. */
  predicate Yields(span: Span, v: nat)
    requires span.step < WIDTH
  {
    if NoWrap(span) then InSpan(span, v) else v <= span.lo && (span.lo - v) % Fall(span.step) == 0
  }

  predicate IsBelow(v: nat, fall: nat, x: nat)
    requires fall > 0
  {
    x <= v && (v - x) % fall == 0
  }

  lemma FallStep(v: nat, fall: nat, x: nat)
    requires fall > 0
    ensures v >= fall ==> (IsBelow(v, fall, x) <==> x == v || IsBelow(v - fall, fall, x))
    ensures v < fall ==> (IsBelow(v, fall, x) <==> x == v)
  {
    if x <= v - fall {
      ModStep(v - x, fall);
    } else if v - fall < x < v {
      SmallMod(v - x, fall);
    }
  }

  lemma {:induction false} CollectFalls(v: nat, hi: nat, step: nat, x: nat)
    requires v <= hi < WIDTH / 2 && step < WIDTH && Stride(step) > hi
    ensures x in Collect(v, hi, step) <==> IsBelow(v, Fall(step), x)
    decreases v
  {
    var fall := Fall(step);
    FallStep(v, fall, x);
    assert Collect(v, hi, step) == [v] + Collect(WrappingAdd(v, Stride(step)), hi, step);
    if v >= fall {
      CollectFalls(v - fall, hi, step, x);
    } else {
      assert Collect(WrappingAdd(v, Stride(step)), hi, step) == [];
    }
  }

  /** What a span collects, whatever its step. */
  lemma CollectIsYield(span: Span, x: nat)
    requires SpanOk(span)
    ensures x in Collect(span.lo, span.hi, span.step) <==> Yields(span, x)
  {
    if NoWrap(span) {
      CollectIsSpan(span.lo, span.hi, span.step, x);
    } else {
      CollectFalls(span.lo, span.hi, span.step, x);
    }
  }

  // ----------------------------------------------------------------- sort and dedup

  function Place(s: seq<nat>, v: nat): seq<nat> {
    if s == [] then [v]
    else if v < s[0] then [v] + s
    else if v == s[0] then s
    else [s[0]] + Place(s[1..], v)
  }

  /** The values sorted, without duplicates. */
  function SortDedup(values: seq<nat>): seq<nat> {
    if values == [] then []
    else Place(SortDedup(values[..|values| - 1]), values[|values| - 1])
  }

  lemma {:induction false} PlaceAscends(s: seq<nat>, v: nat)
    requires Ascending(s)
    ensures Ascending(Place(s, v))
    ensures forall x :: x in Place(s, v) <==> x in s || x == v
  {
    if s == [] || v <= s[0] {
    } else {
      PlaceAscends(s[1..], v);
      var rest := Place(s[1..], v);
      forall i | 0 <= i < |rest| ensures s[0] < rest[i] {
        assert rest[i] in rest;
      }
    }
  }

  lemma {:induction false} SortDedupIsSet(values: seq<nat>)
    ensures Ascending(SortDedup(values))
    ensures forall x :: x in SortDedup(values) <==> x in values
  {
    if values == [] {
    } else {
      SortDedupIsSet(values[..|values| - 1]);
      PlaceAscends(SortDedup(values[..|values| - 1]), values[|values| - 1]);
    }
  }

  // --------------------------------------------------------------------- whole fields

  /** The raw values of a list, in the order they are collected, or its first error. */
  function CollectAll(parts: seq<string>, min: nat, max: nat): Result<seq<nat>>
    requires max < WIDTH / 2
  {
    if parts == [] then Ok([])
    else
      match CollectAll(parts[..|parts| - 1], min, max)
      case Err(e) => Err(e)
      case Ok(before) =>
        match ParsePart(parts[|parts| - 1], min, max)
        case Err(e) => Err(e)
        case Ok(span) => PartFits(parts[|parts| - 1], min, max); Ok(before + Collect(span.lo, span.hi, span.step))
  }

  lemma PartFits(part: string, min: nat, max: nat)
    ensures ParsePart(part, min, max).Ok? ==>
      var span := ParsePart(part, min, max).value;
      min <= span.lo <= span.hi <= max && span.step < WIDTH
  {
  }

  /** The values of a field, and whether it restricts anything. */
  function ParseField(field: string, min: nat, max: nat): Result<(seq<nat>, bool)>
    requires min <= max < WIDTH / 2
  {
    if field == "*" then Ok((Interval(min, max), false))
    else
      match CollectAll(Split(field, ','), min, max)
      case Err(e) => Err(e)
      case Ok(values) => Ok((SortDedup(values), true))
  }

  lemma Reassociate(a: seq<nat>, v: nat, b: seq<nat>)
    ensures a + ([v] + b) == (a + [v]) + b
  {
  }

  /** The innermost loop: one list item's values, pushed after those before it. */
  method RunCollect(before: seq<nat>, span: Span) returns (values: seq<nat>)
    requires span.lo <= span.hi < WIDTH / 2 && span.step < WIDTH
    ensures values == before + Collect(span.lo, span.hi, span.step)
  {
    values := before;
    var v: nat := span.lo;
    while v <= span.hi
      invariant v < WIDTH
      invariant before + Collect(span.lo, span.hi, span.step) == values + Collect(v, span.hi, span.step)
      decreases Left(v, span.hi, span.step)
    {
      var next := WrappingAdd(v, Stride(span.step));
      Reassociate(values, v, Collect(next, span.hi, span.step));
      values := values + [v];
      v := next;
    }
  }

  /** The parser as the program runs it. */
  method RunParseField(field: string, min: nat, max: nat) returns (r: Result<(seq<nat>, bool)>)
    requires min <= max < WIDTH / 2
    ensures r == ParseField(field, min, max)
  {
    if field == "*" {
      return Ok((Interval(min, max), false));
    }
    var values: seq<nat> := [];
    var parts := Split(field, ',');
    for i := 0 to |parts|
      invariant CollectAll(parts[..i], min, max) == Ok(values)
    {
      assert parts[..i + 1][..i] == parts[..i];
      var parsed := ParsePart(parts[i], min, max);
      PartFits(parts[i], min, max);
      if parsed.Err? {
        ErrorStops(parts, i + 1, min, max);
        return Err(parsed.error);
      }
      var span := parsed.value;
      values := RunCollect(values, span);
    }
    assert parts[..|parts|] == parts;
    r := Ok((SortDedup(values), true));
  }

  lemma {:induction false} ErrorStops(parts: seq<string>, n: nat, min: nat, max: nat)
    requires max < WIDTH / 2 && n <= |parts| && CollectAll(parts[..n], min, max).Err?
    ensures CollectAll(parts, min, max) == CollectAll(parts[..n], min, max)
  {
    if n < |parts| {
      assert parts[..|parts| - 1][..n] == parts[..n];
      ErrorStops(parts[..|parts| - 1], n, min, max);
    } else {
      assert parts[..n] == parts;
    }
  }

  // -------------------------------------------------------------- what a field denotes

  /** Some list item collects `v`. */
  predicate CollectedBy(parts: seq<string>, min: nat, max: nat, v: nat)
    requires max < WIDTH / 2
  {
    exists i :: 0 <= i < |parts| && PartCollects(parts[i], min, max, v)
  }

  predicate PartCollects(part: string, min: nat, max: nat, v: nat)
    requires max < WIDTH / 2
  {
    PartFits(part, min, max);
    var parsed := ParsePart(part, min, max);
    parsed.Ok? && v in Collect(parsed.value.lo, parsed.value.hi, parsed.value.step)
  }

  lemma CollectedByLast(parts: seq<string>, min: nat, max: nat, v: nat)
    requires max < WIDTH / 2 && parts != []
    ensures CollectedBy(parts, min, max, v)
       <==> CollectedBy(parts[..|parts| - 1], min, max, v) || PartCollects(parts[|parts| - 1], min, max, v)
  {
    var n := |parts| - 1;
    forall i | 0 <= i < n ensures parts[..n][i] == parts[i] {}
    if CollectedBy(parts[..n], min, max, v) {
      var i :| 0 <= i < n && PartCollects(parts[..n][i], min, max, v);
      assert PartCollects(parts[i], min, max, v);
    }
  }

  lemma {:induction false} CollectAllIsUnion(parts: seq<string>, min: nat, max: nat, v: nat)
    requires max < WIDTH / 2 && CollectAll(parts, min, max).Ok?
    ensures v in CollectAll(parts, min, max).value <==> CollectedBy(parts, min, max, v)
  {
    if parts == [] {
    } else {
      var n := |parts| - 1;
      CollectAllIsUnion(parts[..n], min, max, v);
      CollectedByLast(parts, min, max, v);
      var before, span := CollectAll(parts[..n], min, max).value, ParsePart(parts[n], min, max).value;
      PartFits(parts[n], min, max);
      InEither(before, Collect(span.lo, span.hi, span.step), v);
    }
  }

  lemma InEither(a: seq<nat>, b: seq<nat>, v: nat)
    ensures v in a + b <==> v in a || v in b
  {
  }

  /** A parsed field is the strictly ascending list of what its list items collect. */
  lemma FieldIsUnion(field: string, min: nat, max: nat, v: nat)
    requires min <= max < WIDTH / 2 && ParseField(field, min, max).Ok? && field != "*"
    ensures Ascending(ParseField(field, min, max).value.0)
    ensures v in ParseField(field, min, max).value.0 <==> CollectedBy(Split(field, ','), min, max, v)
  {
    var values := CollectAll(Split(field, ','), min, max).value;
    SortDedupIsSet(values);
    CollectAllIsUnion(Split(field, ','), min, max, v);
  }

  /** A field fails exactly when one of its list items does. */
  lemma {:induction false} FieldFailsExactlyWhen(parts: seq<string>, min: nat, max: nat)
    requires max < WIDTH / 2
    ensures CollectAll(parts, min, max).Err?
       <==> exists i :: 0 <= i < |parts| && ParsePart(parts[i], min, max).Err?
  {
    if parts == [] {
    } else {
      var n := |parts| - 1;
      FieldFailsExactlyWhen(parts[..n], min, max);
      if CollectAll(parts[..n], min, max).Err? {
        var i :| 0 <= i < n && ParsePart(parts[..n][i], min, max).Err?;
        assert ParsePart(parts[i], min, max).Err?;
      } else {
        forall i | 0 <= i < n ensures ParsePart(parts[i], min, max).Ok? {
          assert ParsePart(parts[..n][i], min, max).Ok?;
        }
      }
    }
  }

  // ------------------------------------------------------------ the notation, abstractly

  /** A number as it is spelled: digits, perhaps with leading zeros or a plus sign. */
  predicate IsNumeral(text: string) { ParseU32(text).Some? }

  function NumberOf(text: string): (n: nat)
    requires IsNumeral(text)
    ensures n < WIDTH
  {
    ParseU32(text).value
  }

  datatype Base = Star | One(text: string) | Between(first: string, last: string)

  /** A list item as a user means it. */
  datatype Item = Item(base: Base, step: Option<string>)

  predicate IsItem(item: Item) {
    && (item.base.One? ==> IsNumeral(item.base.text))
    && (item.base.Between? ==> IsNumeral(item.base.first) && IsNumeral(item.base.last))
    && (item.step.Some? ==> IsNumeral(item.step.value))
  }

  function SpanOf(item: Item, min: nat, max: nat): (span: Span)
    requires IsItem(item)
    ensures span.step < WIDTH
  {
    var step := if item.step.Some? then NumberOf(item.step.value) else 1;
    match item.base
    case Star => Span(min, max, step)
    case One(text) => Span(NumberOf(text), if item.step.Some? then max else NumberOf(text), step)
    case Between(first, last) => Span(NumberOf(first), NumberOf(last), step)
  }

  predicate InBounds(span: Span, min: nat, max: nat) { min <= span.lo <= span.hi <= max }

  function RenderBase(base: Base): string {
    match base
    case Star => "*"
    case One(text) => text
    case Between(first, last) => first + "-" + last
  }

  function RenderItem(item: Item): string {
    if item.step.None? then RenderBase(item.base) else RenderBase(item.base) + "/" + item.step.value
  }

  function RenderItems(items: seq<Item>): (r: seq<string>)
    ensures |r| == |items|
  {
    if items == [] then [] else [RenderItem(items[0])] + RenderItems(items[1..])
  }

  lemma {:induction false} RenderItemsAt(items: seq<Item>, i: nat)
    requires i < |items|
    ensures RenderItems(items)[i] == RenderItem(items[i])
  {
    if i == 0 {
    } else {
      RenderItemsAt(items[1..], i - 1);
    }
  }

  function RenderField(items: seq<Item>): string { Join(RenderItems(items), ',') }

  predicate IsNumeralChar(c: char) { IsDigit(c) || c == '+' }

  lemma NumeralChars(text: string)
    requires IsNumeral(text)
    ensures text != "" && forall i :: 0 <= i < |text| ==> IsNumeralChar(text[i])
    ensures Lacks(text, '-') && Lacks(text, '/') && Lacks(text, ',') && Lacks(text, '*')
  {
    if text[0] == '+' {
      assert forall i :: 0 < i < |text| ==> text[i] == text[1..][i - 1];
    }
  }

  lemma OneReads(text: string, stepped: bool, min: nat, max: nat)
    requires IsNumeral(text)
    ensures ParseRange(text, stepped, min, max) == Ok((NumberOf(text), if stepped then max else NumberOf(text)))
  {
    NumeralChars(text);
    SplitOnceNone(text, '-');
  }

  lemma BetweenReads(first: string, last: string, stepped: bool, min: nat, max: nat)
    requires IsNumeral(first) && IsNumeral(last)
    ensures ParseRange(first + "-" + last, stepped, min, max) == Ok((NumberOf(first), NumberOf(last)))
  {
    NumeralChars(first);
    assert (first + "-" + last)[0] == first[0];
    SplitOnceAt(first, '-', last);
  }

  lemma BaseLacks(base: Base)
    requires IsItem(Item(base, None))
    ensures Lacks(RenderBase(base), '/') && Lacks(RenderBase(base), ',')
  {
    match base
    case Star =>
    case One(text) => NumeralChars(text);
    case Between(first, last) =>
      NumeralChars(first);
      NumeralChars(last);
  }

  lemma BaseRoundTrip(base: Base, stepped: bool, min: nat, max: nat)
    requires IsItem(Item(base, None))
    ensures ParseRange(RenderBase(base), stepped, min, max)
         == Ok(match base
               case Star => (min, max)
               case One(text) => (NumberOf(text), if stepped then max else NumberOf(text))
               case Between(first, last) => (NumberOf(first), NumberOf(last)))
  {
    match base
    case Star =>
    case One(text) => OneReads(text, stepped, min, max);
    case Between(first, last) => BetweenReads(first, last, stepped, min, max);
  }

  /** Parsing gives back what a list item means, or the out-of-range error exactly when it
      leaves the field's bounds or runs backwards. */
  lemma ItemRoundTrip(item: Item, min: nat, max: nat)
    requires IsItem(item)
    ensures ParsePart(RenderItem(item), min, max)
         == if InBounds(SpanOf(item, min, max), min, max) then Ok(SpanOf(item, min, max)) else Err(OutOfRange)
    ensures Lacks(RenderItem(item), ',')
  {
    var base := RenderBase(item.base);
    BaseRoundTrip(item.base, item.step.Some?, min, max);
    BaseLacks(item.base);
    if item.step.None? {
      SplitOnceNone(base, '/');
    } else {
      NumeralChars(item.step.value);
      SplitOnceAt(base, '/', item.step.value);
    }
  }

  /** The item a text spells. */
  lemma ReadBase(text: string, stepped: bool, min: nat, max: nat) returns (base: Base)
    requires ParseRange(text, stepped, min, max).Ok?
    ensures IsItem(Item(base, None)) && RenderBase(base) == text
  {
    if text == "*" {
      base := Star;
    } else {
      match SplitOnce(text, '-')
      case None => base := One(text);
      case Some((first, last)) =>
        SplitOnceIs(text, '-');
        base := Between(first, last);
    }
  }

  /** Every text but those with a malformed number spells an item: what `ItemRoundTrip` says
      of items it says of all texts. */
  lemma ReadItem(part: string, min: nat, max: nat) returns (item: Item)
    requires ParsePart(part, min, max).Ok? || ParsePart(part, min, max) == Err(OutOfRange)
    ensures IsItem(item) && RenderItem(item) == part
  {
    match SplitOnce(part, '/')
    case None =>
      var base := ReadBase(part, false, min, max);
      item := Item(base, None);
    case Some((range, step)) =>
      SplitOnceIs(part, '/');
      var base := ReadBase(range, true, min, max);
      item := Item(base, Some(step));
  }

  predicate IsField(items: seq<Item>) { items != [] && forall i :: 0 <= i < |items| ==> IsItem(items[i]) }

  /** Some item of the list yields `v`. */
  predicate Denotes(items: seq<Item>, min: nat, max: nat, v: nat)
    requires IsField(items)
  {
    exists i :: 0 <= i < |items| && Yields(SpanOf(items[i], min, max), v)
  }

  predicate AllInBounds(items: seq<Item>, min: nat, max: nat)
    requires IsField(items)
  {
    forall i :: 0 <= i < |items| ==> InBounds(SpanOf(items[i], min, max), min, max)
  }

  /** A written list splits back into its items. */
  lemma FieldSplits(items: seq<Item>, min: nat, max: nat)
    requires IsField(items)
    ensures Split(RenderField(items), ',') == RenderItems(items)
  {
    forall i | 0 <= i < |items| ensures Lacks(RenderItems(items)[i], ',') {
      RenderItemsAt(items, i);
      ItemRoundTrip(items[i], min, max);
    }
    SplitOfJoin(RenderItems(items), ',');
  }

  /** A written field is accepted exactly when every item is within bounds. */
  lemma FieldAcceptedExactlyWhen(items: seq<Item>, min: nat, max: nat)
    requires min <= max < WIDTH / 2 && IsField(items)
    ensures ParseField(RenderField(items), min, max).Ok? <==> AllInBounds(items, min, max)
  {
    var parts := RenderItems(items);
    FieldSplits(items, min, max);
    FieldFailsExactlyWhen(parts, min, max);
    forall i | 0 <= i < |items| ensures ParsePart(parts[i], min, max).Ok? <==> InBounds(SpanOf(items[i], min, max), min, max) {
      RenderItemsAt(items, i);
      ItemRoundTrip(items[i], min, max);
    }
    if RenderField(items) == "*" { StarAlone(items, min, max); }
  }

  lemma {:induction false} ReadItems(parts: seq<string>, min: nat, max: nat) returns (items: seq<Item>)
    requires forall i :: 0 <= i < |parts| ==> ParsePart(parts[i], min, max).Ok?
    ensures RenderItems(items) == parts
    ensures forall i :: 0 <= i < |items| ==> IsItem(items[i])
  {
    items := [];
    if parts == [] {
    } else {
      var item := ReadItem(parts[0], min, max);
      var rest := ReadItems(parts[1..], min, max);
      items := [item] + rest;
      assert items[1..] == rest;
    }
  }

  /** Every accepted text is a written field. */
  lemma ReadField(field: string, min: nat, max: nat) returns (items: seq<Item>)
    requires min <= max < WIDTH / 2 && ParseField(field, min, max).Ok?
    ensures IsField(items) && RenderField(items) == field && AllInBounds(items, min, max)
  {
    if field == "*" {
      items := [Item(Star, None)];
      assert RenderItems(items[1..]) == [];
    } else {
      var parts := Split(field, ',');
      FieldFailsExactlyWhen(parts, min, max);
      items := ReadItems(parts, min, max);
      JoinOfSplit(field, ',');
      FieldAcceptedExactlyWhen(items, min, max);
    }
  }

  /** Only a single plain star is written as a star. */
  lemma StarAlone(items: seq<Item>, min: nat, max: nat)
    requires IsField(items)
    ensures RenderField(items) == "*" <==> items == [Item(Star, None)]
  {
    FieldSplits(items, min, max);
    if RenderField(items) == "*" {
      assert Split("*", ',') == ["*"] by { SplitOnceNone("*", ','); }
      RenderItemsAt(items, 0);
      ItemStar(items[0]);
    }
  }

  lemma ItemStar(item: Item)
    requires IsItem(item)
    ensures RenderItem(item) == "*" ==> item == Item(Star, None)
  {
    if item.step.Some? {
      NumeralChars(item.step.value);
      assert |RenderItem(item)| >= 2;
    } else if item.base.One? {
      NumeralChars(item.base.text);
    } else if item.base.Between? {
      NumeralChars(item.base.first);
      assert |RenderItem(item)| >= 2;
    }
  }

  /** Parsing a written field gives the strictly ascending list of exactly the values its
      items yield, and the field counts as unrestricted exactly when it is a lone star. */
  lemma FieldRoundTrip(items: seq<Item>, min: nat, max: nat, v: nat)
    requires min <= max < WIDTH / 2 && IsField(items) && AllInBounds(items, min, max)
    ensures ParseField(RenderField(items), min, max).Ok?
    ensures var parsed := ParseField(RenderField(items), min, max).value;
      Ascending(parsed.0) && (v in parsed.0 <==> Denotes(items, min, max, v))
      && (parsed.1 <==> items != [Item(Star, None)])
  {
    FieldAcceptedExactlyWhen(items, min, max);
    StarAlone(items, min, max);
    if RenderField(items) == "*" {
      IntervalIsRange(min, max);
      StarDenotes(items, min, max, v);
    } else {
      FieldIsUnion(RenderField(items), min, max, v);
      FieldSplits(items, min, max);
      UnionDenotes(items, min, max, v);
    }
  }

  lemma StarDenotes(items: seq<Item>, min: nat, max: nat, v: nat)
    requires items == [Item(Star, None)] && max < WIDTH / 2 && min <= max
    ensures Denotes(items, min, max, v) <==> min <= v <= max
  {
    assert Yields(SpanOf(items[0], min, max), v) <==> min <= v <= max;
  }

  lemma UnionDenotes(items: seq<Item>, min: nat, max: nat, v: nat)
    requires min <= max < WIDTH / 2 && IsField(items) && AllInBounds(items, min, max)
    ensures CollectedBy(RenderItems(items), min, max, v) <==> Denotes(items, min, max, v)
  {
    var parts := RenderItems(items);
    forall i | 0 <= i < |items|
      ensures PartCollects(parts[i], min, max, v) <==> Yields(SpanOf(items[i], min, max), v)
    {
      var span := SpanOf(items[i], min, max);
      RenderItemsAt(items, i);
      ItemRoundTrip(items[i], min, max);
      CollectIsYield(span, v);
    }
  }

  lemma RenderedIsNumeral(n: nat)
    requires n < WIDTH
    ensures ParseU32(Render(n)) == Some(n)
  {
    ValueOfRender(n);
    assert IsDigit(Render(n)[0]);
  }

  /** The day-of-month field `5/4294967295` is accepted and yields day 0 as well: it
      means the fifth only, and a month has no day 0. */
  lemma WrappingStepCollectsDownwards(five: string, largest: string)
    requires five == Render(5) && largest == Render(4294967295)
    ensures var field := five + "/" + largest;
      ParseField(field, 1, 31).Ok? && 0 in ParseField(field, 1, 31).value.0
  {
    var item := Item(One(five), Some(largest));
    RenderedIsNumeral(5);
    RenderedIsNumeral(WIDTH - 1);
    assert SpanOf(item, 1, 31) == Span(5, 31, WIDTH - 1);
    OneItem(item, 1, 31, 0);
  }

  /** A field of one item. */
  lemma OneItem(item: Item, min: nat, max: nat, v: nat)
    requires min <= max < WIDTH / 2 && IsItem(item) && InBounds(SpanOf(item, min, max), min, max)
    ensures ParseField(RenderItem(item), min, max).Ok?
    ensures Yields(SpanOf(item, min, max), v) ==> v in ParseField(RenderItem(item), min, max).value.0
  {
    var items := [item];
    assert RenderItems(items[1..]) == [];
    assert RenderItems(items) == [RenderItem(item)] && RenderField(items) == RenderItem(item);
    assert SpanOf(items[0], min, max) == SpanOf(item, min, max);
    FieldRoundTrip(items, min, max, v);
    if Yields(SpanOf(item, min, max), v) {
      assert Yields(SpanOf(items[0], min, max), v);
    }
  }
}
