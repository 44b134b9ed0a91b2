/** The CNI patch: it sets the chosen directories in every CNI table, only once, and leaves
    the hugetlb limits alone. */
module ContainerdCni {
  import opened ContainerdLines
  import opened Text
  import Hugetlb = ContainerdHugetlb

  const BLANK := Line("", Plain)

  function Start(d: Dirs): Scan { InCni(d, false, false, false, false) }

  function NewTable(d: Dirs, header: Line): seq<Line> { [header] + ([ConfLine(d)] + [BinLine(d)]) }

  function CniEnd(s: Scan, body: seq<Line>, header: Line): seq<Line>
    requires s.InCni?
  {
    MissingDirs(s)
    + if s.met then []
      else (if body != [] && body[|body| - 1].text != "" then [BLANK] else [])
           + NewTable(s.dirs, header)
  }

  /** The patched lines; `header` is the table added if there is none. */
  function Configure(lines: seq<Line>, d: Dirs, header: Line): seq<Line> {
    Body(Start(d), lines) + CniEnd(After(Start(d), lines), Body(Start(d), lines), header)
  }

  ghost predicate IsScan(s: Scan) { s.InCni? && (s.inTable ==> s.met) }

  // ---------------------------------------------------------- a second run does nothing

  lemma {:induction false} TrimStartIs(indent: string, rest: string)
    requires (forall i :: 0 <= i < |indent| ==> IsSpace(indent[i])) && rest != "" && !IsSpace(rest[0])
    ensures TrimStart(indent + rest) == rest
  {
    if indent == "" {
      assert indent + rest == rest;
    } else {
      assert (indent + rest)[1..] == indent[1..] + rest;
      TrimStartIs(indent[1..], rest);
    }
  }

  lemma {:induction false} IndentIsSpace(text: string)
    ensures forall i :: 0 <= i < |Indent(text)| ==> IsSpace(Indent(text)[i])
  {
    if text == "" || !IsSpace(text[0]) {
    } else {
      IndentIsSpace(text[1..]);
      assert Indent(text) == [text[0]] + Indent(text[1..]);
    }
  }

  lemma IndentOf(indent: string, rest: string)
    requires (forall i :: 0 <= i < |indent| ==> IsSpace(indent[i])) && rest != "" && !IsSpace(rest[0])
    ensures Indent(indent + rest) == indent
  {
    TrimStartIs(indent, rest);
  }

  predicate IsDir(l: Line) { l.kind.Key? && !l.kind.name.Hugetlb? }

  lemma Assigns(indent: string, key: string, value: string)
    ensures indent + key + value == indent + (key + value)
  {
  }

  /** Rewriting a directory's line again changes nothing. */
  lemma RewriteIsStable(l: Line, d: Dirs)
    requires IsDir(l)
    ensures IsDir(Rewritten(l, d)) && Rewritten(Rewritten(l, d), d) == Rewritten(l, d)
  {
    IndentIsSpace(l.text);
    var key, value := if l.kind.name.ConfDir? then "conf_dir = " else "bin_dir = ",
                      if l.kind.name.ConfDir? then d.conf else d.bin;
    Assigns(Indent(l.text), key, value);
    IndentOf(Indent(l.text), key + value);
  }

  lemma AddedIsRewritten(d: Dirs)
    ensures Rewritten(ConfLine(d), d) == ConfLine(d) && Rewritten(BinLine(d), d) == BinLine(d)
  {
    assert "  conf_dir = " == "  " + "conf_dir = ";
    assert "  bin_dir = " == "  " + "bin_dir = ";
    Assigns("  ", "conf_dir = ", d.conf);
    Assigns("  ", "bin_dir = ", d.bin);
    IndentOf("  ", "conf_dir = " + d.conf);
    IndentOf("  ", "bin_dir = " + d.bin);
  }

  lemma ConfPasses(s: Scan)
    requires s.InCni? && s.inTable
    ensures Passes(s, [ConfLine(s.dirs)]) && After(s, [ConfLine(s.dirs)]) == s.(conf := true)
  {
    AddedIsRewritten(s.dirs);
    PassOne(s, ConfLine(s.dirs));
  }

  lemma BinPasses(s: Scan)
    requires s.InCni? && s.inTable
    ensures Passes(s, [BinLine(s.dirs)]) && After(s, [BinLine(s.dirs)]) == s.(bin := true)
  {
    AddedIsRewritten(s.dirs);
    PassOne(s, BinLine(s.dirs));
  }

  lemma MissingPasses(s: Scan)
    requires s.InCni?
    ensures Passes(s, MissingDirs(s))
    ensures After(s, MissingDirs(s)) == if s.inTable then s.(conf := true, bin := true) else s
  {
    if s.inTable {
      var a, b := if s.conf then [] else [ConfLine(s.dirs)], if s.bin then [] else [BinLine(s.dirs)];
      ConfPasses(s);
      BinPasses(s.(conf := true));
      PassMore(s, a, b);
    }
  }

  /** What a line becomes passes through the patch unchanged, to the same state. */
  lemma OutPasses(s: Scan, l: Line)
    requires IsScan(s)
    ensures Passes(s, Out(s, l)) && After(s, Out(s, l)) == Next(s, l)
  {
    if l.kind.Table? {
      MissingPasses(s);
      var t := After(s, MissingDirs(s));
      assert MissingDirs(t) == [];
      PassOne(t, l);
      PassMore(s, MissingDirs(s), [l]);
    } else if s.inTable && IsDir(l) {
      RewriteIsStable(l, s.dirs);
      PassOne(s, Rewritten(l, s.dirs));
    } else {
      PassOne(s, l);
    }
  }

  ghost predicate IsSettled(lines: seq<Line>, d: Dirs) {
    && IsScan(After(Start(d), lines))
    && Passes(Start(d), Body(Start(d), lines))
    && After(Start(d), Body(Start(d), lines)) == After(Start(d), lines)
  }

  lemma ScanStep(lines: seq<Line>, d: Dirs)
    requires lines != [] && IsScan(After(Start(d), lines[..|lines| - 1]))
    ensures IsScan(After(Start(d), lines))
  {
  }

  lemma SettledStep(lines: seq<Line>, d: Dirs, front: seq<Line>, s: Scan)
    requires lines != [] && front == lines[..|lines| - 1] && s == After(Start(d), front) && IsScan(s)
    requires Passes(Start(d), Body(Start(d), front)) && After(Start(d), Body(Start(d), front)) == s
    ensures Passes(Start(d), Body(Start(d), lines))
    ensures After(Start(d), Body(Start(d), lines)) == After(Start(d), lines)
  {
    var l := lines[|lines| - 1];
    OutPasses(s, l);
    PassBody(Start(d), Start(d), lines, Body(Start(d), front), Out(s, l));
  }

  lemma {:induction false} BodyPasses(lines: seq<Line>, d: Dirs)
    ensures IsSettled(lines, d)
  {
    if lines == [] {
    } else {
      BodyPasses(lines[..|lines| - 1], d);
      ScanStep(lines, d);
      SettledStep(lines, d, lines[..|lines| - 1], After(Start(d), lines[..|lines| - 1]));
    }
  }

  /** The header of an added table. */
  predicate IsCniHeader(header: Line) { header.kind.Table? && header.kind.cni && header.kind.cri.Nested? }

  lemma NewTablePasses(s: Scan, header: Line)
    requires s.InCni? && !s.inTable && IsCniHeader(header)
    ensures Passes(s, NewTable(s.dirs, header))
    ensures After(s, NewTable(s.dirs, header)) == InCni(s.dirs, true, true, true, true)
  {
    AddedIsRewritten(s.dirs);
    PassThree(s, header, ConfLine(s.dirs), BinLine(s.dirs));
  }

  lemma EndPasses(s: Scan, body: seq<Line>, header: Line)
    requires IsScan(s) && IsCniHeader(header)
    ensures Passes(s, CniEnd(s, body, header))
    ensures var t := After(s, CniEnd(s, body, header)); t.met && (t.inTable ==> t.conf && t.bin)
  {
    var table := NewTable(s.dirs, header);
    if s.met {
      MissingPasses(s);
      assert CniEnd(s, body, header) == MissingDirs(s);
    } else if body != [] && body[|body| - 1].text != "" {
      PassOne(s, BLANK);
      NewTablePasses(s, header);
      PassMore(s, [BLANK], table);
      assert CniEnd(s, body, header) == [BLANK] + table;
    } else {
      NewTablePasses(s, header);
      assert CniEnd(s, body, header) == table;
    }
  }

  /** The patch has nothing to do. */
  ghost predicate IsConfigured(lines: seq<Line>, d: Dirs) {
    var s := After(Start(d), lines);
    Passes(Start(d), lines) && s.met && (s.inTable ==> s.conf && s.bin)
  }

  lemma ConfigureConfigures(lines: seq<Line>, d: Dirs, header: Line)
    requires IsCniHeader(header)
    ensures IsConfigured(Configure(lines, d, header), d)
  {
    var s, body := After(Start(d), lines), Body(Start(d), lines);
    BodyPasses(lines, d);
    EndPasses(s, body, header);
    PassMore(Start(d), body, CniEnd(s, body, header));
  }

  lemma LeavesAlone(lines: seq<Line>, d: Dirs, header: Line)
    requires IsConfigured(lines, d)
    ensures Configure(lines, d, header) == lines
  {
    var s, body := After(Start(d), lines), Body(Start(d), lines);
    assert CniEnd(s, body, header) == [];
    assert body + [] == body;
  }

  lemma NothingToDoExactlyWhen(lines: seq<Line>, d: Dirs, header: Line)
    requires IsCniHeader(header)
    ensures Configure(lines, d, header) == lines <==> IsConfigured(lines, d)
  {
    if IsConfigured(lines, d) {
      LeavesAlone(lines, d, header);
    } else {
      ConfigureConfigures(lines, d, header);
    }
  }

  /** A second run with the same directories changes nothing. */
  lemma ConfigureIsIdempotent(lines: seq<Line>, d: Dirs, header: Line, header2: Line)
    requires IsCniHeader(header) && IsCniHeader(header2)
    ensures Configure(Configure(lines, d, header), d, header2) == Configure(lines, d, header)
  {
    ConfigureConfigures(lines, d, header);
    NothingToDoExactlyWhen(Configure(lines, d, header), d, header2);
  }

  // ------------------------------------------------- what it means to be left alone

  /** The last table header is that of a CNI table. */
  predicate EndsInCni(lines: seq<Line>) {
    lines != [] &&
    var last := lines[|lines| - 1];
    if last.kind.Table? then last.kind.cni else EndsInCni(lines[..|lines| - 1])
  }

  /** The key is active after the last table header. */
  predicate EndsWithKey(lines: seq<Line>, name: Name) {
    lines != [] &&
    var last := lines[|lines| - 1];
    !last.kind.Table? && ((last.kind.Key? && last.kind.name == name) || EndsWithKey(lines[..|lines| - 1], name))
  }

  predicate HasCni(lines: seq<Line>) { exists i :: 0 <= i < |lines| && lines[i].kind.Table? && lines[i].kind.cni }

  lemma HasCniLast(lines: seq<Line>)
    requires lines != []
    ensures var n := |lines| - 1; HasCni(lines) <==> HasCni(lines[..n]) || (lines[n].kind.Table? && lines[n].kind.cni)
  {
    var n := |lines| - 1;
    forall i | 0 <= i < n ensures lines[..n][i] == lines[i] {}
    if HasCni(lines[..n]) {
      var i :| 0 <= i < n && lines[..n][i].kind.Table? && lines[..n][i].kind.cni;
      assert lines[i].kind.Table?;
    }
  }

  ghost predicate ScanFits(lines: seq<Line>, d: Dirs) {
    var s := After(Start(d), lines);
    && (s.inTable <==> EndsInCni(lines)) && (s.met <==> HasCni(lines))
    && (s.inTable ==> (s.conf <==> EndsWithKey(lines, ConfDir)) && (s.bin <==> EndsWithKey(lines, BinDir)))
  }

  lemma {:induction false} ScanMeans(lines: seq<Line>, d: Dirs)
    ensures ScanFits(lines, d)
  {
    if lines == [] {
    } else {
      ScanMeans(lines[..|lines| - 1], d);
      HasCniLast(lines);
    }
  }

  ghost predicate HasBoth(lines: seq<Line>) { EndsWithKey(lines, ConfDir) && EndsWithKey(lines, BinDir) }

  /** A line that needs no change where it stands: a directory in a CNI table is the chosen
      one, and a CNI table that ends has both. */
  ghost predicate IsInOrder(before: seq<Line>, l: Line, d: Dirs) {
    && (EndsInCni(before) && IsDir(l) ==> Rewritten(l, d) == l)
    && (EndsInCni(before) && l.kind.Table? ==> HasBoth(before))
  }

  ghost predicate AreInOrder(lines: seq<Line>, d: Dirs) {
    forall i :: 0 <= i < |lines| ==> IsInOrder(lines[..i], lines[i], d)
  }

  lemma InOrderLast(lines: seq<Line>, d: Dirs)
    requires lines != []
    ensures AreInOrder(lines, d)
       <==> AreInOrder(lines[..|lines| - 1], d) && IsInOrder(lines[..|lines| - 1], lines[|lines| - 1], d)
  {
    var n := |lines| - 1;
    forall i | 0 <= i < n ensures lines[..n][..i] == lines[..i] && lines[..n][i] == lines[i] {}
  }

  lemma InOrderMeans(before: seq<Line>, l: Line, d: Dirs)
    ensures Out(After(Start(d), before), l) == [l] <==> IsInOrder(before, l, d)
  {
    ScanMeans(before, d);
    var s := After(Start(d), before);
    if l.kind.Table? && MissingDirs(s) + [l] == [l] {
      assert |MissingDirs(s)| == 0;
    }
  }

  lemma PassesMeansStep(lines: seq<Line>, d: Dirs)
    requires lines != [] && (Passes(Start(d), lines[..|lines| - 1]) <==> AreInOrder(lines[..|lines| - 1], d))
    ensures Passes(Start(d), lines) <==> AreInOrder(lines, d)
  {
    PassesLast(Start(d), lines);
    InOrderMeans(lines[..|lines| - 1], lines[|lines| - 1], d);
    InOrderLast(lines, d);
  }

  lemma {:induction false} PassesMeans(lines: seq<Line>, d: Dirs)
    ensures Passes(Start(d), lines) <==> AreInOrder(lines, d)
  {
    if lines == [] {
    } else {
      PassesMeans(lines[..|lines| - 1], d);
      PassesMeansStep(lines, d);
    }
  }

  /** There is a CNI table, each has both directories, and none has others. */
  ghost predicate IsSetUp(lines: seq<Line>, d: Dirs) {
    AreInOrder(lines, d) && (EndsInCni(lines) ==> HasBoth(lines)) && HasCni(lines)
  }

  lemma ConfiguredMeans(lines: seq<Line>, d: Dirs)
    ensures IsConfigured(lines, d) <==> IsSetUp(lines, d)
  {
    PassesMeans(lines, d);
    ScanMeans(lines, d);
  }

  /** The patch always leaves the directories set up, and changes only what is not. */
  lemma ConfigureSetsUp(lines: seq<Line>, d: Dirs, header: Line)
    requires IsCniHeader(header)
    ensures IsSetUp(Configure(lines, d, header), d)
    ensures Configure(lines, d, header) == lines <==> IsSetUp(lines, d)
  {
    ConfigureConfigures(lines, d, header);
    NothingToDoExactlyWhen(lines, d, header);
    ConfiguredMeans(lines, d);
    ConfiguredMeans(Configure(lines, d, header), d);
  }

  lemma EndConcerns(s: Scan, body: seq<Line>, header: Line)
    requires s.InCni? && IsCniHeader(header)
    ensures AllConcern(CniPatch, CniEnd(s, body, header))
  {
  }

  /** No line is lost: the lines that are neither directories, CNI headers nor blank are those
      of the input, in order. */
  lemma ConfigureKeepsOthers(lines: seq<Line>, d: Dirs, header: Line)
    requires IsCniHeader(header)
    ensures Others(CniPatch, Configure(lines, d, header)) == Others(CniPatch, lines)
  {
    var s, body := After(Start(d), lines), Body(Start(d), lines);
    EndConcerns(s, body, header);
    EndKeepsOthers(CniPatch, body, CniEnd(s, body, header));
    BodyKeepsOthers(CniPatch, Start(d), lines);
  }

  // --------------------------------------------------------------- hugetlb stays limited

  /** CNI tables are nested in CRI root tables. */
  ghost predicate AreNested(lines: seq<Line>) {
    forall i :: 0 <= i < |lines| && lines[i].kind.Table? && lines[i].kind.cni ==> lines[i].kind.cri.Nested?
  }

  const LIMITS := Hugetlb.START

  /** The hugetlb patch sees the same after the CNI patch's output as after its input. */
  ghost predicate SeesTheSame(lines: seq<Line>, d: Dirs) {
    && (After(Start(d), lines).inTable ==> !After(LIMITS, lines).inRoot)
    && Passes(LIMITS, Body(Start(d), lines))
    && After(LIMITS, Body(Start(d), lines)) == After(LIMITS, lines)
  }

  /** Directories outside root tables mean nothing to the hugetlb patch. */
  lemma DirsPass(h: Scan, s: Scan)
    requires h.InHugetlb? && s.InCni? && (s.inTable ==> !h.inRoot)
    ensures Passes(h, MissingDirs(s)) && After(h, MissingDirs(s)) == h
  {
    if s.inTable {
      var a, b := if s.conf then [] else [ConfLine(s.dirs)], if s.bin then [] else [BinLine(s.dirs)];
      PassOne(h, ConfLine(s.dirs));
      PassOne(h, BinLine(s.dirs));
      PassMore(h, a, b);
    }
  }

  lemma LinePasses(h: Scan, s: Scan, l: Line)
    requires h.InHugetlb? && s.InCni? && (s.inTable ==> !h.inRoot) && Out(h, l) == [l]
    ensures Passes(h, Out(s, l)) && After(h, Out(s, l)) == Next(h, l)
  {
    if l.kind.Table? {
      DirsPass(h, s);
      PassOne(h, l);
      PassMore(h, MissingDirs(s), [l]);
    } else if s.inTable && IsDir(l) {
      PassOne(h, Rewritten(l, s.dirs));
    } else {
      PassOne(h, l);
    }
  }

  lemma NotInBoth(lines: seq<Line>, d: Dirs)
    requires lines != [] && AreNested(lines)
    requires After(Start(d), lines[..|lines| - 1]).inTable ==> !After(LIMITS, lines[..|lines| - 1]).inRoot
    ensures After(Start(d), lines).inTable ==> !After(LIMITS, lines).inRoot
  {
  }

  lemma SameStep(lines: seq<Line>, d: Dirs, front: seq<Line>, h: Scan, s: Scan)
    requires lines != [] && front == lines[..|lines| - 1] && s == After(Start(d), front) && h == After(LIMITS, front)
    requires (s.inTable ==> !h.inRoot) && Out(h, lines[|lines| - 1]) == [lines[|lines| - 1]]
    requires Passes(LIMITS, Body(Start(d), front)) && After(LIMITS, Body(Start(d), front)) == h
    ensures Passes(LIMITS, Body(Start(d), lines))
    ensures After(LIMITS, Body(Start(d), lines)) == After(LIMITS, lines)
  {
    var l := lines[|lines| - 1];
    LinePasses(h, s, l);
    PassBody(LIMITS, Start(d), lines, Body(Start(d), front), Out(s, l));
  }

  lemma {:induction false} SeeTheSame(lines: seq<Line>, d: Dirs)
    requires AreNested(lines) && Passes(LIMITS, lines)
    ensures SeesTheSame(lines, d)
  {
    if lines == [] {
    } else {
      var front := lines[..|lines| - 1];
      PassesLast(LIMITS, lines);
      SeeTheSame(front, d);
      NotInBoth(lines, d);
      SameStep(lines, d, front, After(LIMITS, front), After(Start(d), front));
    }
  }

  lemma NewTableKeepsLimits(h: Scan, d: Dirs, header: Line)
    requires h.InHugetlb? && h.saw && (h.inRoot ==> h.found) && IsCniHeader(header)
    ensures Passes(h, NewTable(d, header))
    ensures After(h, NewTable(d, header)) == InHugetlb(false, false, true)
  {
    PassThree(h, header, ConfLine(d), BinLine(d));
  }

  lemma EndKeepsLimits(h: Scan, s: Scan, body: seq<Line>, header: Line)
    requires h.InHugetlb? && h.saw && (h.inRoot ==> h.found) && s.InCni? && (s.inTable ==> !h.inRoot)
    requires IsScan(s) && IsCniHeader(header)
    ensures Passes(h, CniEnd(s, body, header))
    ensures var t := After(h, CniEnd(s, body, header)); t.saw && (t.inRoot ==> t.found)
  {
    var table := NewTable(s.dirs, header);
    if s.met {
      DirsPass(h, s);
      assert CniEnd(s, body, header) == MissingDirs(s);
    } else if body != [] && body[|body| - 1].text != "" {
      PassOne(h, BLANK);
      NewTableKeepsLimits(h, s.dirs, header);
      PassMore(h, [BLANK], table);
      assert CniEnd(s, body, header) == [BLANK] + table;
    } else {
      NewTableKeepsLimits(h, s.dirs, header);
      assert CniEnd(s, body, header) == table;
    }
  }

  /** The CNI patch keeps limited what is limited. */
  lemma ConfigureKeepsLimits(lines: seq<Line>, d: Dirs, header: Line)
    requires Hugetlb.IsLimited(lines) && AreNested(lines) && IsCniHeader(header)
    ensures Hugetlb.IsLimited(Configure(lines, d, header))
  {
    var s, body := After(Start(d), lines), Body(Start(d), lines);
    SeeTheSame(lines, d);
    BodyPasses(lines, d);
    EndKeepsLimits(After(LIMITS, lines), s, body, header);
    PassMore(LIMITS, body, CniEnd(s, body, header));
  }

  lemma NestedSum(a: seq<Line>, b: seq<Line>)
    requires AreNested(a) && AreNested(b)
    ensures AreNested(a + b)
  {
  }

  lemma OutIsNested(s: Scan, l: Line)
    requires s.InHugetlb? && AreNested([l])
    ensures AreNested(Out(s, l))
  {
    assert [l][0] == l;
    assert AreNested(MissingSetting(s)) && AreNested(Parent(s, l));
    NestedSum(MissingSetting(s), Parent(s, l));
    NestedSum(MissingSetting(s) + Parent(s, l), [l]);
  }

  lemma {:induction false} BodyKeepsNested(lines: seq<Line>)
    requires AreNested(lines)
    ensures AreNested(Body(LIMITS, lines))
  {
    if lines == [] {
    } else {
      var front, l := lines[..|lines| - 1], lines[|lines| - 1];
      BodyKeepsNested(front);
      OutIsNested(After(LIMITS, front), l);
      NestedSum(Body(LIMITS, front), Out(After(LIMITS, front), l));
    }
  }

  lemma LimitingKeepsNested(lines: seq<Line>, fallback: Line)
    requires AreNested(lines) && fallback.kind == Table(Root, false)
    ensures AreNested(Hugetlb.LimitHugetlb(lines, fallback))
  {
    BodyKeepsNested(lines);
    NestedSum(Body(LIMITS, lines), Hugetlb.HugetlbEnd(After(LIMITS, lines), fallback));
  }

  /** Both patches in turn, as an update applies them. */
  function Patch(lines: seq<Line>, d: Dirs, fallback: Line, header: Line): seq<Line> {
    Configure(Hugetlb.LimitHugetlb(lines, fallback), d, header)
  }

  /** One update leaves both in order, and the next finds nothing to change in either. */
  lemma PatchIsIdempotent(lines: seq<Line>, d: Dirs, fallback: Line, header: Line, fallback2: Line, header2: Line)
    requires AreNested(lines) && IsCniHeader(header) && IsCniHeader(header2)
    requires fallback.kind == Table(Root, false) && fallback2.kind == fallback.kind
    ensures var patched := Patch(lines, d, fallback, header);
      && Hugetlb.LimitHugetlb(patched, fallback2) == patched
      && Patch(patched, d, fallback2, header2) == patched
      && Hugetlb.IsSecured(patched) && IsSetUp(patched, d)
  {
    var limited := Hugetlb.LimitHugetlb(lines, fallback);
    var patched := Configure(limited, d, header);
    Hugetlb.HugetlbLimits(lines, fallback);
    LimitingKeepsNested(lines, fallback);
    ConfigureKeepsLimits(limited, d, header);
    Hugetlb.NothingToDoExactlyWhen(patched, fallback2);
    Hugetlb.LimitedMeans(patched);
    ConfigureIsIdempotent(limited, d, header, header2);
    ConfigureSetsUp(limited, d, header);
  }

  // ------------------------------------------------------------- the loop of the program

  /** One turn of the loop: the lines it outputs and what it remembers. */
  method PatchLine(s: Scan, line: Line) returns (out: seq<Line>, next: Scan)
    requires s.InCni?
    ensures out == CniOut(s, line) && next == CniNext(s, line)
  {
    out, next := [], s;
    if line.kind.Table? {
      if s.inTable {
        if !s.conf {
          out := out + [ConfLine(s.dirs)];
        }
        if !s.bin {
          out := out + [BinLine(s.dirs)];
        }
      }
      next := InCni(s.dirs, line.kind.cni, false, false, s.met || line.kind.cni);
    } else if s.inTable && line.kind.Key? {
      if line.kind.name.ConfDir? {
        next := s.(conf := true);
        return [Rewritten(line, s.dirs)], next;
      }
      if line.kind.name.BinDir? {
        next := s.(bin := true);
        return [Rewritten(line, s.dirs)], next;
      }
    }
    out := out + [line];
  }

  /** The loop over the lines. */
  method ConfigureLines(lines: seq<Line>, d: Dirs, header: Line) returns (patched: seq<Line>)
    ensures patched == Configure(lines, d, header)
  {
    patched := [];
    var scan := Start(d);
    for i := 0 to |lines|
      invariant scan == After(Start(d), lines[..i]) && patched == Body(Start(d), lines[..i])
    {
      ReportStep(Start(d), scan, lines, i);
      var out;
      out, scan := PatchLine(scan, lines[i]);
      patched := patched + out;
    }
    assert lines[..|lines|] == lines;
    var end := Finish(scan, patched, header);
    patched := patched + end;
  }

  method Finish(scan: Scan, body: seq<Line>, header: Line) returns (out: seq<Line>)
    requires scan.InCni?
    ensures out == CniEnd(scan, body, header)
  {
    out := MissingDirs(scan);
    if !scan.met {
      if body != [] && body[|body| - 1].text != "" {
        out := out + [BLANK];
      }
      out := out + [header, ConfLine(scan.dirs), BinLine(scan.dirs)];
    }
  }
}
