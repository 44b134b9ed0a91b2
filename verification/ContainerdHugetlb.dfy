/** The hugetlb patch: it secures every CRI runtime table, and only once. */
module ContainerdHugetlb {
  import opened ContainerdLines

  const START := InHugetlb(false, false, false)

  function HugetlbEnd(s: Scan, fallback: Line): seq<Line>
    requires s.InHugetlb?
  {
    MissingSetting(s) + if s.saw then [] else [fallback] + [OFF]
  }

  /** The patched lines; `fallback` is the header added if there is no CRI table. */
  function LimitHugetlb(lines: seq<Line>, fallback: Line): seq<Line> {
    Body(START, lines) + HugetlbEnd(After(START, lines), fallback)
  }

  ghost predicate IsScan(s: Scan) { s.InHugetlb? && (s.inRoot ==> s.saw) }

  /** Added settings pass through, and leave nothing missing. */
  lemma MissingPasses(s: Scan)
    requires s.InHugetlb?
    ensures Passes(s, MissingSetting(s))
    ensures After(s, MissingSetting(s)) == if s.inRoot && !s.found then s.(found := true) else s
  {
    if s.inRoot && !s.found {
      PassOne(s, OFF);
    }
  }

  /** So does an added root table. */
  lemma RootPasses(s: Scan, root: Line)
    requires s.InHugetlb? && root.kind == Table(Root, false) && MissingSetting(s) == []
    ensures Passes(s, [root] + [OFF]) && After(s, [root] + [OFF]) == InHugetlb(true, true, true)
  {
    PassTwo(s, root, OFF);
  }

  lemma ParentPasses(s: Scan, l: Line)
    requires IsScan(s)
    ensures Passes(s, Parent(s, l))
    ensures After(s, Parent(s, l)) == if Parent(s, l) == [] then s else InHugetlb(true, true, true)
  {
    if Parent(s, l) != [] {
      RootPasses(s, RootLine(l.kind.cri.root));
    }
  }

  lemma TablePasses(s: Scan, l: Line)
    requires IsScan(s) && l.kind.Table?
    ensures Passes(s, Out(s, l)) && After(s, Out(s, l)) == Next(s, l)
  {
    var s1 := After(s, MissingSetting(s));
    MissingPasses(s);
    ParentPasses(s1, l);
    assert Parent(s1, l) == Parent(s, l);
    var s2 := After(s1, Parent(s, l));
    assert Out(s2, l) == [l];
    PassOne(s2, l);
    PassMore(s, MissingSetting(s), Parent(s, l));
    PassMore(s, MissingSetting(s) + Parent(s, l), [l]);
  }

  /** What a line becomes passes through the patch unchanged, to the same state. */
  lemma OutPasses(s: Scan, l: Line)
    requires IsScan(s)
    ensures Passes(s, Out(s, l)) && After(s, Out(s, l)) == Next(s, l)
  {
    if l.kind.Table? {
      TablePasses(s, l);
    } else if s.inRoot && l.kind == Key(Hugetlb, true) {
      PassOne(s, TURNED_OFF);
    } else {
      PassOne(s, l);
    }
  }

  /** The output of the loop passes through it again, to the same state. */
  ghost predicate IsSettled(lines: seq<Line>) {
    && IsScan(After(START, lines))
    && Passes(START, Body(START, lines))
    && After(START, Body(START, lines)) == After(START, lines)
  }

  lemma ScanStep(lines: seq<Line>)
    requires lines != [] && IsScan(After(START, lines[..|lines| - 1]))
    ensures IsScan(After(START, lines))
  {
  }

  lemma SettledStep(lines: seq<Line>, front: seq<Line>, s: Scan)
    requires lines != [] && front == lines[..|lines| - 1] && s == After(START, front) && IsScan(s)
    requires Passes(START, Body(START, front)) && After(START, Body(START, front)) == s
    ensures Passes(START, Body(START, lines))
    ensures After(START, Body(START, lines)) == After(START, lines)
  {
    var l := lines[|lines| - 1];
    OutPasses(s, l);
    PassBody(START, START, lines, Body(START, front), Out(s, l));
  }

  lemma {:induction false} BodyPasses(lines: seq<Line>)
    ensures IsSettled(lines)
  {
    if lines == [] {
    } else {
      BodyPasses(lines[..|lines| - 1]);
      ScanStep(lines);
      SettledStep(lines, lines[..|lines| - 1], After(START, lines[..|lines| - 1]));
    }
  }

  /** No CRI root table lacks the setting or has it active and true, and some CRI table has
      been met before any nested one: the patch has nothing to do. */
  ghost predicate IsLimited(lines: seq<Line>) {
    var s := After(START, lines);
    Passes(START, lines) && s.saw && (s.inRoot ==> s.found)
  }

  lemma EndPasses(s: Scan, fallback: Line)
    requires IsScan(s) && fallback.kind == Table(Root, false)
    ensures Passes(s, HugetlbEnd(s, fallback))
    ensures var t := After(s, HugetlbEnd(s, fallback)); t.saw && (t.inRoot ==> t.found)
  {
    if s.saw {
      MissingPasses(s);
      assert HugetlbEnd(s, fallback) == MissingSetting(s);
    } else {
      RootPasses(s, fallback);
      assert HugetlbEnd(s, fallback) == [fallback] + [OFF];
    }
  }

  lemma HugetlbLimits(lines: seq<Line>, fallback: Line)
    requires fallback.kind == Table(Root, false)
    ensures IsLimited(LimitHugetlb(lines, fallback))
  {
    BodyPasses(lines);
    EndPasses(After(START, lines), fallback);
    PassMore(START, Body(START, lines), HugetlbEnd(After(START, lines), fallback));
  }

  lemma LeavesAlone(lines: seq<Line>, fallback: Line)
    requires IsLimited(lines)
    ensures LimitHugetlb(lines, fallback) == lines
  {
    var s, body := After(START, lines), Body(START, lines);
    assert HugetlbEnd(s, fallback) == [];
    assert body + [] == body;
  }

  /** The patch leaves exactly such lines alone. */
  lemma NothingToDoExactlyWhen(lines: seq<Line>, fallback: Line)
    requires fallback.kind == Table(Root, false)
    ensures LimitHugetlb(lines, fallback) == lines <==> IsLimited(lines)
  {
    if IsLimited(lines) {
      LeavesAlone(lines, fallback);
    } else {
      HugetlbLimits(lines, fallback);
    }
  }

  /** A second run changes nothing. */
  lemma HugetlbIsIdempotent(lines: seq<Line>, fallback: Line, fallback2: Line)
    requires fallback.kind == Table(Root, false) && fallback2.kind == Table(Root, false)
    ensures LimitHugetlb(LimitHugetlb(lines, fallback), fallback2) == LimitHugetlb(lines, fallback)
  {
    HugetlbLimits(lines, fallback);
    NothingToDoExactlyWhen(LimitHugetlb(lines, fallback), fallback2);
  }

  // ------------------------------------------------- what it means to be left alone

  /** The last table header is that of a CRI root table. */
  predicate EndsInRoot(lines: seq<Line>) {
    lines != [] &&
    var last := lines[|lines| - 1];
    if last.kind.Table? then last.kind.cri.Root? else EndsInRoot(lines[..|lines| - 1])
  }

  /** The hugetlb setting is active after the last table header. */
  predicate EndsSet(lines: seq<Line>) {
    lines != [] &&
    var last := lines[|lines| - 1];
    !last.kind.Table? && ((last.kind.Key? && last.kind.name.Hugetlb?) || EndsSet(lines[..|lines| - 1]))
  }

  predicate HasCri(lines: seq<Line>) {
    exists i :: 0 <= i < |lines| && lines[i].kind.Table? && !lines[i].kind.cri.Outside?
  }

  lemma {:induction false} ScanMeans(lines: seq<Line>)
    ensures var s := After(START, lines);
      (s.inRoot <==> EndsInRoot(lines)) && (s.inRoot ==> (s.found <==> EndsSet(lines))) && (s.saw <==> HasCri(lines))
  {
    if lines == [] {
    } else {
      var n := |lines| - 1;
      ScanMeans(lines[..n]);
      HasCriLast(lines);
    }
  }

  lemma HasCriLast(lines: seq<Line>)
    requires lines != []
    ensures var n := |lines| - 1;
      HasCri(lines) <==> HasCri(lines[..n]) || (lines[n].kind.Table? && !lines[n].kind.cri.Outside?)
  {
    var n := |lines| - 1;
    forall i | 0 <= i < n ensures lines[..n][i] == lines[i] {}
    if HasCri(lines[..n]) {
      var i :| 0 <= i < n && lines[..n][i].kind.Table? && !lines[..n][i].kind.cri.Outside?;
      assert lines[i].kind.Table?;
    }
  }

  /** A line that needs no change where it stands. */
  ghost predicate IsInOrder(before: seq<Line>, l: Line) {
    && (l.kind == Key(Hugetlb, true) ==> !EndsInRoot(before))
    && (l.kind.Table? && EndsInRoot(before) ==> EndsSet(before))
    && (l.kind.Table? && l.kind.cri.Nested? ==> HasCri(before))
  }

  /** No active setting is true in a CRI root table, each CRI root table has the setting, and
      no CRI table is nested before a first one. */
  ghost predicate IsSecured(lines: seq<Line>) {
    && AreInOrder(lines)
    && (EndsInRoot(lines) ==> EndsSet(lines))
    && HasCri(lines)
  }

  lemma InOrderMeans(before: seq<Line>, l: Line)
    ensures HugetlbOut(After(START, before), l) == [l] <==> IsInOrder(before, l)
  {
    ScanMeans(before);
  }

  ghost predicate AreInOrder(lines: seq<Line>) {
    forall i :: 0 <= i < |lines| ==> IsInOrder(lines[..i], lines[i])
  }

  lemma InOrderLast(lines: seq<Line>)
    requires lines != []
    ensures AreInOrder(lines) <==> AreInOrder(lines[..|lines| - 1]) && IsInOrder(lines[..|lines| - 1], lines[|lines| - 1])
  {
    var n := |lines| - 1;
    forall i | 0 <= i < n ensures lines[..n][..i] == lines[..i] && lines[..n][i] == lines[i] {}
  }

  lemma PassesMeansStep(lines: seq<Line>)
    requires lines != [] && (Passes(START, lines[..|lines| - 1]) <==> AreInOrder(lines[..|lines| - 1]))
    ensures Passes(START, lines) <==> AreInOrder(lines)
  {
    PassesLast(START, lines);
    InOrderMeans(lines[..|lines| - 1], lines[|lines| - 1]);
    InOrderLast(lines);
  }

  lemma {:induction false} PassesMeans(lines: seq<Line>)
    ensures Passes(START, lines) <==> AreInOrder(lines)
  {
    if lines == [] {
    } else {
      PassesMeans(lines[..|lines| - 1]);
      PassesMeansStep(lines);
    }
  }

  /** The patch always leaves the configuration secured, and changes only what is not. */
  lemma HugetlbSecures(lines: seq<Line>, fallback: Line)
    requires fallback.kind == Table(Root, false)
    ensures IsSecured(LimitHugetlb(lines, fallback))
    ensures LimitHugetlb(lines, fallback) == lines <==> IsSecured(lines)
  {
    HugetlbLimits(lines, fallback);
    NothingToDoExactlyWhen(lines, fallback);
    LimitedMeans(lines);
    LimitedMeans(LimitHugetlb(lines, fallback));
  }

  lemma LimitedMeans(lines: seq<Line>)
    ensures IsLimited(lines) <==> IsSecured(lines)
  {
    PassesMeans(lines);
    ScanMeans(lines);
  }

  lemma EndConcerns(s: Scan, fallback: Line)
    requires s.InHugetlb? && fallback.kind == Table(Root, false)
    ensures AllConcern(HugetlbPatch, HugetlbEnd(s, fallback))
  {
  }

  /** No line is lost: the lines that are neither hugetlb settings of the patch's kind nor CRI
      root headers are those of the input, in order. */
  lemma HugetlbKeepsOthers(lines: seq<Line>, fallback: Line)
    requires fallback.kind == Table(Root, false)
    ensures Others(HugetlbPatch, LimitHugetlb(lines, fallback)) == Others(HugetlbPatch, lines)
  {
    var s, body := After(START, lines), Body(START, lines);
    EndConcerns(s, fallback);
    EndKeepsOthers(HugetlbPatch, body, HugetlbEnd(s, fallback));
    BodyKeepsOthers(HugetlbPatch, START, lines);
  }

  // ------------------------------------------------------------- the loop of the program

  /** One turn of the loop: the lines it outputs, whether that is a change, and its flags. */
  method PatchLine(s: Scan, line: Line) returns (out: seq<Line>, altered: bool, next: Scan)
    requires s.InHugetlb?
    ensures out == HugetlbOut(s, line) && next == HugetlbNext(s, line)
    ensures altered <==> out != [line]
  {
    out, altered, next := [], false, s;
    if line.kind.Table? {
      if s.inRoot && !s.found {
        out := out + [OFF];
        altered := true;
      }
      if line.kind.cri.Root? {
        next := InHugetlb(true, false, true);
      } else if line.kind.cri.Nested? {
        if !s.saw {
          out := out + [RootLine(line.kind.cri.root), OFF];
          altered := true;
        }
        next := InHugetlb(false, false, true);
      } else {
        next := InHugetlb(false, false, s.saw);
      }
      assert |out| > 0 <==> altered;
    } else if s.inRoot && line.kind.Key? && line.kind.name.Hugetlb? {
      next := s.(found := true);
      if line.kind.isTrue {
        return [TURNED_OFF], true, next;
      }
    }
    out := out + [line];
  }

  /** The patch as the program runs it, and whether it reports a change. */
  method EnableHugetlbController(lines: seq<Line>, fallback: Line) returns (output: seq<Line>, changed: bool)
    requires fallback.kind == Table(Root, false)
    ensures output == LimitHugetlb(lines, fallback)
    ensures changed <==> output != lines
  {
    output, changed := [], false;
    var scan := START;
    for i := 0 to |lines|
      invariant scan == After(START, lines[..i]) && output == Body(START, lines[..i])
      invariant changed <==> output != lines[..i]
    {
      ReportStep(START, scan, lines, i);
      var out, altered;
      out, altered, scan := PatchLine(scan, lines[i]);
      output := output + out;
      changed := changed || altered;
    }
    assert lines[..|lines|] == lines;
    BodyGrows(START, lines);
    ghost var body := output;
    LengthTells(body, HugetlbEnd(scan, fallback), lines);
    var out, altered := Finish(scan, fallback);
    output := output + out;
    changed := changed || altered;
  }

  method Finish(scan: Scan, fallback: Line) returns (out: seq<Line>, altered: bool)
    requires scan.InHugetlb?
    ensures out == HugetlbEnd(scan, fallback) && (altered <==> out != [])
  {
    out, altered := [], false;
    if scan.inRoot && !scan.found {
      out := [OFF];
      altered := true;
    }
    if !scan.saw {
      out := out + [fallback, OFF];
      altered := true;
    }
  }
}
