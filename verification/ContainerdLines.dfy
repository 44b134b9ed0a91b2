/** Configuration files of containerd as lines, and the two line-by-line patches of them:
    hugetlb limits in the CRI runtime tables, and the directories of the CNI tables. */
module ContainerdLines {
  import opened Text
  import opened Wrappers

  // ------------------------------------------------------------------ reading a line

  /** What a table header is to the CRI plugin: one of its root tables, a table nested in
      one (with the header of that root), or neither. */
  datatype Cri = Outside | Root | Nested(root: string)

  datatype Name = Hugetlb | ConfDir | BinDir

  /** An active key counts only if it is one of three; `isTrue` says its value starts so. */
  datatype Kind = Table(cri: Cri, cni: bool) | Key(name: Name, isTrue: bool) | Plain

  datatype Line = Line(text: string, kind: Kind)

  function TrimStart(s: string): (r: string)
    ensures |r| <= |s| && (r != "" ==> !IsSpace(r[0]))
  {
    if s != "" && IsSpace(s[0]) then TrimStart(s[1..]) else s
  }

  function TrimEnd(s: string): string {
    if s != "" && IsSpace(s[|s| - 1]) then TrimEnd(s[..|s| - 1]) else s
  }

  function Trim(s: string): string { TrimEnd(TrimStart(s)) }

  const GRPC := "[plugins.\"io.containerd.grpc.v1.cri\""
  const GRPC_QUOTED := "[plugins.'io.containerd.grpc.v1.cri'"
  const RUNTIME := "[plugins.\"io.containerd.cri.v1.runtime\""
  const RUNTIME_QUOTED := "[plugins.'io.containerd.cri.v1.runtime'"

  predicate IsCniTable(header: string) {
    || header == GRPC + ".cni]" || header == GRPC_QUOTED + ".cni]"
    || header == RUNTIME + ".cni]" || header == RUNTIME_QUOTED + ".cni]"
  }

  predicate IsUnder(header: string, prefix: string) {
    header == prefix + "]" || StartsWith(header, prefix + ".")
  }

  /** The header of the CRI root table a table is, or is nested in. */
  function CriRuntimeRoot(header: string): Option<string> {
    if IsUnder(header, GRPC) then Some(GRPC + "]")
    else if IsUnder(header, GRPC_QUOTED) then Some(GRPC_QUOTED + "]")
    else if IsUnder(header, RUNTIME) then Some(RUNTIME + "]")
    else if IsUnder(header, RUNTIME_QUOTED) then Some(RUNTIME_QUOTED + "]")
    else None
  }

  function Classify(text: string): Kind {
    var trimmed := Trim(text);
    if StartsWith(trimmed, "[") then
      var root := CriRuntimeRoot(trimmed);
      Table(
        if root.None? then Outside else if trimmed == root.value then Root else Nested(root.value),
        IsCniTable(trimmed))
    else if StartsWith(trimmed, "#") then Plain
    else
      match SplitOnce(trimmed, '=')
      case None => Plain
      case Some((key, value)) =>
        var isTrue := StartsWith(TrimStart(value), "true");
        if Trim(key) == "disable_hugetlb_controller" then Key(Hugetlb, isTrue)
        else if Trim(key) == "conf_dir" then Key(ConfDir, isTrue)
        else if Trim(key) == "bin_dir" then Key(BinDir, isTrue)
        else Plain
  }

  function Indent(text: string): string { text[..|text| - |TrimStart(text)|] }

  // -------------------------------------------------------------------- hugetlb limits

  const OFF := Line("  disable_hugetlb_controller = false", Key(Hugetlb, false))
  const TURNED_OFF := Line("disable_hugetlb_controller = false", Key(Hugetlb, false))

  function RootLine(root: string): Line { Line(root, Table(Root, false)) }

  /** The directories to configure, as they are written. */
  datatype Dirs = Dirs(conf: string, bin: string)

  /** What a patch remembers from line to line. The hugetlb patch: whether it is in a CRI root
      table, met the setting there, and saw any CRI table. The CNI patch: whether it is in a
      CNI table, met each directory there, and met any CNI table. */
  datatype Scan =
    | InHugetlb(inRoot: bool, found: bool, saw: bool)
    | InCni(dirs: Dirs, inTable: bool, conf: bool, bin: bool, met: bool)

  function HugetlbNext(s: Scan, l: Line): Scan
    requires s.InHugetlb?
  {
    match l.kind
    case Table(Outside, _) => InHugetlb(false, false, s.saw)
    case Table(Root, _) => InHugetlb(true, false, true)
    case Table(Nested(_), _) => InHugetlb(false, false, true)
    case Key(Hugetlb, _) => if s.inRoot then s.(found := true) else s
    case _ => s
  }

  /** The setting a root table lacks when it ends. */
  function MissingSetting(s: Scan): seq<Line>
    requires s.InHugetlb?
  {
    if s.inRoot && !s.found then [OFF] else []
  }

  /** The root table made explicit before the first nested one. */
  function Parent(s: Scan, l: Line): seq<Line>
    requires s.InHugetlb?
  {
    if l.kind.Table? && l.kind.cri.Nested? && !s.saw then [RootLine(l.kind.cri.root)] + [OFF] else []
  }

  function HugetlbOut(s: Scan, l: Line): seq<Line>
    requires s.InHugetlb?
  {
    if l.kind.Table? then MissingSetting(s) + Parent(s, l) + [l]
    else if s.inRoot && l.kind == Key(Hugetlb, true) then [TURNED_OFF]
    else [l]
  }

  // ------------------------------------------------------------------- CNI directories

  function ConfLine(d: Dirs): Line { Line("  conf_dir = " + d.conf, Key(ConfDir, false)) }

  function BinLine(d: Dirs): Line { Line("  bin_dir = " + d.bin, Key(BinDir, false)) }

  /** A directory's line with the chosen value and its own indentation. */
  function Rewritten(l: Line, d: Dirs): Line
    requires l.kind.Key? && !l.kind.name.Hugetlb?
  {
    if l.kind.name.ConfDir? then Line(Indent(l.text) + "conf_dir = " + d.conf, Key(ConfDir, false))
    else Line(Indent(l.text) + "bin_dir = " + d.bin, Key(BinDir, false))
  }

  /** The directories a CNI table lacks when it ends. */
  function MissingDirs(s: Scan): seq<Line>
    requires s.InCni?
  {
    if s.inTable then (if s.conf then [] else [ConfLine(s.dirs)]) + (if s.bin then [] else [BinLine(s.dirs)]) else []
  }

  function CniNext(s: Scan, l: Line): Scan
    requires s.InCni?
  {
    match l.kind
    case Table(_, cni) => InCni(s.dirs, cni, false, false, s.met || cni)
    case Key(ConfDir, _) => if s.inTable then s.(conf := true) else s
    case Key(BinDir, _) => if s.inTable then s.(bin := true) else s
    case _ => s
  }

  function CniOut(s: Scan, l: Line): seq<Line>
    requires s.InCni?
  {
    if l.kind.Table? then MissingDirs(s) + [l]
    else if s.inTable && l.kind.Key? && !l.kind.name.Hugetlb? then [Rewritten(l, s.dirs)]
    else [l]
  }

  // ------------------------------------------------------------------- running a patch

  function Next(s: Scan, l: Line): (t: Scan)
    ensures t.InHugetlb? <==> s.InHugetlb?
    ensures t.InCni? ==> t.dirs == s.dirs
  {
    if s.InHugetlb? then HugetlbNext(s, l) else CniNext(s, l)
  }

  function Out(s: Scan, l: Line): (out: seq<Line>)
    ensures |out| >= 1
  {
    if s.InHugetlb? then HugetlbOut(s, l) else CniOut(s, l)
  }

  function After(s: Scan, lines: seq<Line>): (t: Scan)
    ensures t.InHugetlb? <==> s.InHugetlb?
    ensures t.InCni? ==> t.dirs == s.dirs
  {
    if lines == [] then s else Next(After(s, lines[..|lines| - 1]), lines[|lines| - 1])
  }

  function Body(s: Scan, lines: seq<Line>): seq<Line> {
    if lines == [] then []
    else
      var front := lines[..|lines| - 1];
      Body(s, front) + Out(After(s, front), lines[|lines| - 1])
  }

  /** The lines pass through unchanged. */
  ghost predicate Passes(s: Scan, lines: seq<Line>) { Body(s, lines) == lines }

  // ---------------------------------------------------------- what a patch may touch

  datatype Patch = HugetlbPatch | CniPatch

  /** The lines a patch adds or rewrites look like these; all others are none of its business. */
  predicate Concerns(p: Patch, l: Line) {
    match p
    case HugetlbPatch => l == OFF || l == TURNED_OFF || l.kind == Key(Hugetlb, true) || (l.kind.Table? && l.kind.cri.Root?)
    case CniPatch => l.text == "" || (l.kind.Key? && !l.kind.name.Hugetlb?) || (l.kind.Table? && l.kind.cni)
  }

  function Others(p: Patch, lines: seq<Line>): seq<Line> {
    if lines == [] then []
    else Others(p, lines[..|lines| - 1]) + if Concerns(p, lines[|lines| - 1]) then [] else [lines[|lines| - 1]]
  }

  lemma {:induction false} OthersOfSum(p: Patch, a: seq<Line>, b: seq<Line>)
    ensures Others(p, a + b) == Others(p, a) + Others(p, b)
  {
    if b == [] {
      assert a + b == a;
    } else {
      assert (a + b)[..|a + b| - 1] == a + b[..|b| - 1];
      OthersOfSum(p, a, b[..|b| - 1]);
    }
  }

  lemma {:induction false} OthersOfConcerned(p: Patch, lines: seq<Line>)
    requires forall i :: 0 <= i < |lines| ==> Concerns(p, lines[i])
    ensures Others(p, lines) == []
  {
    if lines == [] {
    } else {
      OthersOfConcerned(p, lines[..|lines| - 1]);
    }
  }

  ghost predicate AllConcern(p: Patch, lines: seq<Line>) { forall i :: 0 <= i < |lines| ==> Concerns(p, lines[i]) }

  lemma EndKeepsOthers(p: Patch, body: seq<Line>, end: seq<Line>)
    requires AllConcern(p, end)
    ensures Others(p, body + end) == Others(p, body)
  {
    OthersOfSum(p, body, end);
    OthersOfConcerned(p, end);
  }

  /** Lines added before another that stays. */
  lemma AddedBefore(p: Patch, added: seq<Line>, l: Line)
    requires AllConcern(p, added)
    ensures Others(p, added + [l]) == Others(p, [l])
  {
    OthersOfSum(p, added, [l]);
    OthersOfConcerned(p, added);
  }

  lemma ReplacedLine(p: Patch, l: Line, m: Line)
    requires Concerns(p, l) && Concerns(p, m)
    ensures Others(p, [m]) == Others(p, [l])
  {
    OthersOfConcerned(p, [l]);
    OthersOfConcerned(p, [m]);
  }

  lemma HugetlbOutKeepsOthers(s: Scan, l: Line)
    requires s.InHugetlb?
    ensures Others(HugetlbPatch, Out(s, l)) == Others(HugetlbPatch, [l])
  {
    if l.kind.Table? {
      AddedBefore(HugetlbPatch, MissingSetting(s) + Parent(s, l), l);
    } else if s.inRoot && l.kind == Key(Hugetlb, true) {
      ReplacedLine(HugetlbPatch, l, TURNED_OFF);
    }
  }

  lemma CniOutKeepsOthers(s: Scan, l: Line)
    requires s.InCni?
    ensures Others(CniPatch, Out(s, l)) == Others(CniPatch, [l])
  {
    if l.kind.Table? {
      AddedBefore(CniPatch, MissingDirs(s), l);
    } else if s.inTable && l.kind.Key? && !l.kind.name.Hugetlb? {
      ReplacedLine(CniPatch, l, Rewritten(l, s.dirs));
    }
  }

  predicate Fits(p: Patch, s: Scan) { p.HugetlbPatch? <==> s.InHugetlb? }

  lemma OutKeepsOthers(p: Patch, s: Scan, l: Line)
    requires Fits(p, s)
    ensures Others(p, Out(s, l)) == Others(p, [l])
  {
    if p.HugetlbPatch? {
      HugetlbOutKeepsOthers(s, l);
    } else {
      CniOutKeepsOthers(s, l);
    }
  }

  lemma OthersOfOne(p: Patch, l: Line)
    ensures Others(p, [l]) == if Concerns(p, l) then [] else [l]
  {
    assert [l][..0] == [];
  }

  lemma OthersUnfolds(p: Patch, lines: seq<Line>, front: seq<Line>, l: Line)
    requires lines != [] && front == lines[..|lines| - 1] && l == lines[|lines| - 1]
    ensures Others(p, lines) == Others(p, front) + Others(p, [l])
  {
    OthersOfOne(p, l);
  }

  lemma OthersStep(p: Patch, s: Scan, lines: seq<Line>, front: seq<Line>)
    requires Fits(p, s) && lines != [] && front == lines[..|lines| - 1]
    requires Others(p, Body(s, front)) == Others(p, front)
    ensures Others(p, Body(s, lines)) == Others(p, lines)
  {
    var l := lines[|lines| - 1];
    var out := Out(After(s, front), l);
    calc {
      Others(p, Body(s, lines));
      { BodyUnfolds(s, lines, front, l); }
      Others(p, Body(s, front) + out);
      { OthersOfSum(p, Body(s, front), out); }
      Others(p, Body(s, front)) + Others(p, out);
      { OutKeepsOthers(p, After(s, front), l); }
      Others(p, front) + Others(p, [l]);
      { OthersUnfolds(p, lines, front, l); }
      Others(p, lines);
    }
  }

  /** Every line that does not concern a patch stays, in its place among the others. */
  lemma {:induction false} BodyKeepsOthers(p: Patch, s: Scan, lines: seq<Line>)
    requires Fits(p, s)
    ensures Others(p, Body(s, lines)) == Others(p, lines)
  {
    if lines == [] {
    } else {
      BodyKeepsOthers(p, s, lines[..|lines| - 1]);
      OthersStep(p, s, lines, lines[..|lines| - 1]);
    }
  }

  lemma Associates(a: seq<Line>, b: seq<Line>, c: seq<Line>)
    ensures (a + b) + c == a + (b + c)
  {
  }

  lemma {:induction false} AfterOfSum(s: Scan, a: seq<Line>, b: seq<Line>)
    ensures After(s, a + b) == After(After(s, a), b)
  {
    if b == [] {
      assert a + b == a;
    } else {
      assert (a + b)[..|a + b| - 1] == a + b[..|b| - 1];
      AfterOfSum(s, a, b[..|b| - 1]);
    }
  }

  lemma BodyUnfolds(s: Scan, lines: seq<Line>, front: seq<Line>, l: Line)
    requires lines != [] && front == lines[..|lines| - 1] && l == lines[|lines| - 1]
    ensures Body(s, lines) == Body(s, front) + Out(After(s, front), l)
  {
  }

  lemma {:induction false} BodyOfSum(s: Scan, a: seq<Line>, b: seq<Line>)
    ensures Body(s, a + b) == Body(s, a) + Body(After(s, a), b)
  {
    if b == [] {
      assert a + b == a;
    } else {
      var front, l, t := b[..|b| - 1], b[|b| - 1], After(s, a);
      var out := Out(After(t, front), l);
      calc {
        Body(s, a + b);
        { assert (a + b)[..|a + b| - 1] == a + front; BodyUnfolds(s, a + b, a + front, l); }
        Body(s, a + front) + Out(After(s, a + front), l);
        { AfterOfSum(s, a, front); }
        Body(s, a + front) + out;
        { BodyOfSum(s, a, front); }
        (Body(s, a) + Body(t, front)) + out;
        { Associates(Body(s, a), Body(t, front), out); }
        Body(s, a) + (Body(t, front) + out);
        { BodyUnfolds(t, b, front, l); }
        Body(s, a) + Body(t, b);
      }
    }
  }

  lemma PassOne(s: Scan, l: Line)
    requires Out(s, l) == [l]
    ensures Passes(s, [l]) && After(s, [l]) == Next(s, l)
  {
    assert [l][..0] == [];
  }

  lemma PassMore(s: Scan, a: seq<Line>, b: seq<Line>)
    requires Passes(s, a) && Passes(After(s, a), b)
    ensures Passes(s, a + b) && After(s, a + b) == After(After(s, a), b)
  {
    AfterOfSum(s, a, b);
    BodyOfSum(s, a, b);
  }

  lemma PassTwo(s: Scan, a: Line, b: Line)
    requires Out(s, a) == [a] && Out(Next(s, a), b) == [b]
    ensures Passes(s, [a] + [b]) && After(s, [a] + [b]) == Next(Next(s, a), b)
  {
    PassOne(s, a);
    PassOne(Next(s, a), b);
    PassMore(s, [a], [b]);
  }

  lemma PassThree(s: Scan, a: Line, b: Line, c: Line)
    requires Out(s, a) == [a] && Out(Next(s, a), b) == [b] && Out(Next(Next(s, a), b), c) == [c]
    ensures Passes(s, [a] + ([b] + [c])) && After(s, [a] + ([b] + [c])) == Next(Next(Next(s, a), b), c)
  {
    PassOne(s, a);
    PassTwo(Next(s, a), b, c);
    PassMore(s, [a], [b] + [c]);
  }

  /** What one patch makes of lines passes through another if it does so line by line. */
  lemma PassBody(h: Scan, s: Scan, lines: seq<Line>, body: seq<Line>, out: seq<Line>)
    requires lines != [] && body == Body(s, lines[..|lines| - 1])
    requires out == Out(After(s, lines[..|lines| - 1]), lines[|lines| - 1])
    requires Passes(h, body) && Passes(After(h, body), out)
    ensures Passes(h, Body(s, lines)) && After(h, Body(s, lines)) == After(After(h, body), out)
  {
    PassMore(h, body, out);
  }

  lemma {:induction false} BodyGrows(s: Scan, lines: seq<Line>)
    ensures |Body(s, lines)| >= |lines|
  {
    if lines == [] {
    } else {
      BodyGrows(s, lines[..|lines| - 1]);
    }
  }

  lemma SumsAgree(a: seq<Line>, b: seq<Line>, c: seq<Line>, d: seq<Line>)
    requires |a| >= |c| && |b| >= |d|
    ensures a + b == c + d <==> a == c && b == d
  {
    if a + b == c + d {
      assert |a + b| == |c + d|;
      assert a == (a + b)[..|a|] && c == (c + d)[..|a|];
      assert b == (a + b)[|a|..] && d == (c + d)[|a|..];
    }
  }

  /** Lines pass exactly when all but the last and then the last do. */
  lemma PassesLast(s: Scan, lines: seq<Line>)
    requires lines != []
    ensures var front, l := lines[..|lines| - 1], lines[|lines| - 1];
      Passes(s, lines) <==> Passes(s, front) && Out(After(s, front), l) == [l]
  {
    var front, l := lines[..|lines| - 1], lines[|lines| - 1];
    BodyGrows(s, front);
    BodyUnfolds(s, lines, front, l);
    SumIs(Body(s, front), Out(After(s, front), l), lines);
  }

  lemma SumIs(a: seq<Line>, b: seq<Line>, lines: seq<Line>)
    requires lines != [] && |a| >= |lines| - 1 && |b| >= 1
    ensures a + b == lines <==> a == lines[..|lines| - 1] && b == [lines[|lines| - 1]]
  {
    var front, l := lines[..|lines| - 1], lines[|lines| - 1];
    SumsAgree(a, b, front, [l]);
    assert front + [l] == lines;
  }

  lemma ReportStep(start: Scan, s: Scan, lines: seq<Line>, i: nat)
    requires i < |lines| && s == After(start, lines[..i])
    ensures After(start, lines[..i + 1]) == Next(s, lines[i])
    ensures Body(start, lines[..i + 1]) == Body(start, lines[..i]) + Out(s, lines[i])
    ensures Body(start, lines[..i + 1]) == lines[..i + 1]
       <==> Body(start, lines[..i]) == lines[..i] && Out(s, lines[i]) == [lines[i]]
  {
    assert lines[..i + 1][..i] == lines[..i];
    PassesLast(start, lines[..i + 1]);
  }

  lemma LengthTells(a: seq<Line>, b: seq<Line>, c: seq<Line>)
    requires |a| >= |c|
    ensures a + b == c <==> a == c && b == []
  {
    if a + b == c {
      assert |b| == 0;
      assert a + [] == a;
    }
  }
}
