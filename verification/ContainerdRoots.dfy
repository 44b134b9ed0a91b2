/** How often the hugetlb patch writes the header of a table: a table defined twice is not valid
    TOML, however its header is spelled. */
module ContainerdRoots {
  import opened ContainerdHugetlb
  import opened ContainerdLines
  import opened ContainerdReading
  import opened Text
  import opened Wrappers

  /** The spellings of one table's header. Whatever they are, they open with a bracket. */
  ghost predicate AreHeaders(spellings: iset<string>) {
    forall text :: text in spellings ==> Classify(text).Table?
  }

  ghost function CountOne(l: Line, spellings: iset<string>): nat { if l.text in spellings then 1 else 0 }

  /** How many of the lines are headers of the table. */
  ghost function Count(lines: seq<Line>, spellings: iset<string>): nat {
    if lines == [] then 0 else Count(lines[..|lines| - 1], spellings) + CountOne(lines[|lines| - 1], spellings)
  }

  /** The first CRI table, root or nested. */
  function FirstCri(lines: seq<Line>): Option<Cri> {
    if lines == [] then None
    else
      var l := lines[|lines| - 1];
      match FirstCri(lines[..|lines| - 1])
      case Some(cri) => Some(cri)
      case None => if l.kind.Table? && !l.kind.cri.Outside? then Some(l.kind.cri) else None
  }

  /** The first CRI table is nested in a root whose header, as the patch writes it, spells the
      table. */
  ghost predicate NestsFirst(lines: seq<Line>, spellings: iset<string>) {
    match FirstCri(lines)
    case Some(Nested(root)) => root in spellings
    case _ => false
  }

  /** There is no CRI table the patch knows, and the header it then adds spells the table. */
  ghost predicate FallsBack(lines: seq<Line>, fallback: Line, spellings: iset<string>) {
    FirstCri(lines).None? && fallback.text in spellings
  }

  function One(b: bool): nat { if b then 1 else 0 }

  lemma {:induction false} CountSum(a: seq<Line>, b: seq<Line>, spellings: iset<string>)
    ensures Count(a + b, spellings) == Count(a, spellings) + Count(b, spellings)
  {
    if b == [] {
      assert a + b == a;
    } else {
      assert (a + b)[..|a + b| - 1] == a + b[..|b| - 1];
      CountSum(a, b[..|b| - 1], spellings);
    }
  }

  lemma CountSingle(l: Line, spellings: iset<string>)
    ensures Count([l], spellings) == CountOne(l, spellings)
  {
    assert [l][..0] == [];
  }

  lemma CountTwo(a: Line, b: Line, spellings: iset<string>)
    ensures Count([a] + [b], spellings) == CountOne(a, spellings) + CountOne(b, spellings)
  {
    CountSum([a], [b], spellings);
    CountSingle(a, spellings);
    CountSingle(b, spellings);
  }

  /** Only a header spells a table. */
  lemma OthersCountNone(l: Line, spellings: iset<string>)
    requires AreHeaders(spellings) && IsRead(l) && !l.kind.Table?
    ensures CountOne(l, spellings) == 0
  {
    hide Classify;
  }

  lemma SettingsCountNone(spellings: iset<string>)
    requires AreHeaders(spellings)
    ensures CountOne(OFF, spellings) == 0 && CountOne(TURNED_OFF, spellings) == 0
  {
    hide Classify, AreHeaders;
    SettingsRead();
    OthersCountNone(OFF, spellings);
    OthersCountNone(TURNED_OFF, spellings);
  }

  lemma MissingAddsNone(s: Scan, spellings: iset<string>)
    requires s.InHugetlb? && AreHeaders(spellings)
    ensures Count(MissingSetting(s), spellings) == 0
  {
    hide Classify, AreHeaders;
    SettingsCountNone(spellings);
    CountSingle(OFF, spellings);
  }

  /** A parent is added for a table nested in it, if no CRI table came before. */
  ghost predicate AddsRoot(s: Scan, l: Line, spellings: iset<string>)
    requires s.InHugetlb?
  {
    !s.saw && l.kind.Table? && l.kind.cri.Nested? && l.kind.cri.root in spellings
  }

  lemma ParentAdds(s: Scan, l: Line, spellings: iset<string>)
    requires s.InHugetlb? && AreHeaders(spellings)
    ensures Count(Parent(s, l), spellings) == One(AddsRoot(s, l, spellings))
  {
    hide Classify, AreHeaders;
    if Parent(s, l) != [] {
      SettingsCountNone(spellings);
      CountTwo(RootLine(l.kind.cri.root), OFF, spellings);
    }
  }

  lemma OutCount(s: Scan, l: Line, spellings: iset<string>)
    requires s.InHugetlb? && AreHeaders(spellings) && IsRead(l)
    ensures Count(HugetlbOut(s, l), spellings) == CountOne(l, spellings) + One(AddsRoot(s, l, spellings))
  {
    hide Classify, AreHeaders;
    CountSingle(l, spellings);
    if l.kind.Table? {
      MissingAddsNone(s, spellings);
      ParentAdds(s, l, spellings);
      CountSum(MissingSetting(s), Parent(s, l), spellings);
      CountSum(MissingSetting(s) + Parent(s, l), [l], spellings);
    } else {
      OthersCountNone(l, spellings);
      SettingsCountNone(spellings);
      CountSingle(TURNED_OFF, spellings);
    }
  }

  lemma {:induction false} SawMeans(lines: seq<Line>)
    ensures After(START, lines).InHugetlb? && (After(START, lines).saw <==> FirstCri(lines).Some?)
  {
    if lines == [] {
    } else {
      SawMeans(lines[..|lines| - 1]);
    }
  }

  lemma NestsStep(lines: seq<Line>, front: seq<Line>, spellings: iset<string>)
    requires lines != [] && front == lines[..|lines| - 1]
    ensures After(START, front).InHugetlb?
    ensures One(NestsFirst(lines, spellings))
         == One(NestsFirst(front, spellings)) + One(AddsRoot(After(START, front), lines[|lines| - 1], spellings))
  {
    SawMeans(front);
  }

  lemma BodyCountStep(lines: seq<Line>, front: seq<Line>, spellings: iset<string>)
    requires AreHeaders(spellings)
    requires lines != [] && front == lines[..|lines| - 1] && IsRead(lines[|lines| - 1])
    requires Count(Body(START, front), spellings) == Count(front, spellings) + One(NestsFirst(front, spellings))
    ensures Count(Body(START, lines), spellings) == Count(lines, spellings) + One(NestsFirst(lines, spellings))
  {
    hide Classify, AreHeaders, NestsFirst, AddsRoot, HugetlbOut;
    var l, s := lines[|lines| - 1], After(START, front);
    NestsStep(lines, front, spellings);
    OutCount(s, l, spellings);
    BodyUnfolds(START, lines, front, l);
    CountSum(Body(START, front), Out(s, l), spellings);
  }

  lemma {:induction false} BodyCount(lines: seq<Line>, spellings: iset<string>)
    requires AreHeaders(spellings) && AreRead(lines)
    ensures Count(Body(START, lines), spellings) == Count(lines, spellings) + One(NestsFirst(lines, spellings))
  {
    hide Classify, AreHeaders, NestsFirst;
    if lines == [] {
      NothingNests(spellings);
    } else {
      BodyCount(lines[..|lines| - 1], spellings);
      BodyCountStep(lines, lines[..|lines| - 1], spellings);
    }
  }

  lemma NothingNests(spellings: iset<string>)
    ensures !NestsFirst([], spellings)
  {
  }

  lemma EndCount(s: Scan, fallback: Line, spellings: iset<string>)
    requires IsScan(s) && AreHeaders(spellings)
    ensures Count(HugetlbEnd(s, fallback), spellings) == One(!s.saw && fallback.text in spellings)
  {
    hide Classify, AreHeaders;
    MissingAddsNone(s, spellings);
    SettingsCountNone(spellings);
    CountTwo(fallback, OFF, spellings);
    if s.saw {
      assert HugetlbEnd(s, fallback) == MissingSetting(s);
    } else {
      assert HugetlbEnd(s, fallback) == [fallback] + [OFF];
    }
  }

  /** The patch keeps every header of a table, and adds one more if the first CRI table is
      nested in a root that spells it, or if there is no CRI table and the fallback does. */
  lemma HeadersAreCounted(lines: seq<Line>, fallback: Line, spellings: iset<string>)
    requires AreHeaders(spellings) && AreRead(lines)
    ensures Count(LimitHugetlb(lines, fallback), spellings)
         == Count(lines, spellings) + One(NestsFirst(lines, spellings)) + One(FallsBack(lines, fallback, spellings))
  {
    hide Classify, AreHeaders, NestsFirst;
    var s, body := After(START, lines), Body(START, lines);
    BodyCount(lines, spellings);
    SawMeans(lines);
    BodyPasses(lines);
    EndCount(s, fallback, spellings);
    CountSum(body, HugetlbEnd(s, fallback), spellings);
  }

  /** The patch repeats a table that the input did not repeat if and only if the input has one
      header of it, and either its first CRI table is nested in a root that spells the table or
      it has no CRI table the patch knows and the fallback spells it. */
  lemma RepeatsTableExactlyWhen(lines: seq<Line>, fallback: Line, spellings: iset<string>)
    requires AreHeaders(spellings) && AreRead(lines)
    ensures Count(lines, spellings) <= 1 && Count(LimitHugetlb(lines, fallback), spellings) > 1
       <==> Count(lines, spellings) == 1 && (NestsFirst(lines, spellings) || FallsBack(lines, fallback, spellings))
  {
    hide Classify, AreHeaders;
    HeadersAreCounted(lines, fallback, spellings);
  }

  // ------------------------------------------------------------------- three such inputs

  /** The header with white space around it, and a comment after it. */
  ghost predicate IsHeaderOf(text: string, root: string) {
    StartsWith(Trim(text), root) && (Trim(text) == root || StartsWith(TrimStart(Trim(text)[|root|..]), "#"))
  }

  /** The spellings of the CRI table of schema version 2, with either quotes. */
  ghost function GrpcTable(): iset<string> {
    iset text | IsHeaderOf(text, GRPC + "]") || IsHeaderOf(text, GRPC_QUOTED + "]")
  }

  lemma HeaderOpens(text: string, root: string)
    requires root != "" && root[0] == '[' && StartsWith(Trim(text), root)
    ensures Classify(text).Table?
  {
    assert Trim(text)[0] == '[' && Trim(text)[..1] == "[";
  }

  lemma GrpcTableIsHeaders()
    ensures AreHeaders(GrpcTable())
  {
    hide Classify;
    forall text | text in GrpcTable() ensures Classify(text).Table? {
      HeaderOpens(text, if IsHeaderOf(text, GRPC + "]") then GRPC + "]" else GRPC_QUOTED + "]");
    }
  }

  predicate IsGrpc(prefix: string) { prefix == GRPC || prefix == GRPC_QUOTED }

  lemma RootSpells(prefix: string)
    requires IsGrpc(prefix)
    ensures prefix + "]" in GrpcTable()
  {
    var root := prefix + "]";
    assert root[0] == '[' && root[|root| - 1] == ']';
    HeaderTrims(root);
    assert IsHeaderOf(root, root);
  }

  lemma NestedDoesNotSpell(prefix: string)
    requires IsGrpc(prefix)
    ensures prefix + ".cni]" !in GrpcTable()
  {
    var cni := prefix + ".cni]";
    assert cni[0] == '[' && cni[|cni| - 1] == ']';
    HeaderTrims(cni);
    assert |GRPC| == |GRPC_QUOTED| && cni[|prefix|] == '.';
    forall p | IsGrpc(p) ensures !StartsWith(cni, p + "]") {
      assert (p + "]")[|prefix|] == ']';
    }
  }

  /** A CRI table nested before its root's own header, whatever quotes the two are in. */
  lemma NestedFirstRepeatsItsRoot(prefix: string, fallback: Line)
    requires IsGrpc(prefix)
    ensures var lines := [Line(prefix + ".cni]", Table(Nested(prefix + "]"), true)), RootLine(GRPC + "]")];
      AreRead(lines) && Count(lines, GrpcTable()) == 1 && Count(LimitHugetlb(lines, fallback), GrpcTable()) == 2
  {
    hide Classify, GrpcTable, AreHeaders, IsHeaderOf;
    var nested, root := Line(prefix + ".cni]", Table(Nested(prefix + "]"), true)), RootLine(GRPC + "]");
    var lines := [nested] + [root];
    CniHeaderRead(prefix);
    RootHeaderRead(GRPC);
    GrpcTableIsHeaders();
    RootSpells(prefix);
    RootSpells(GRPC);
    NestedDoesNotSpell(prefix);
    CountTwo(nested, root, GrpcTable());
    assert lines == [nested, root];
    FirstOfTwo(nested, root);
    HeadersAreCounted(lines, fallback, GrpcTable());
  }

  lemma FirstOfTwo(a: Line, b: Line)
    ensures FirstCri([a, b]) == if FirstCri([a]).Some? then FirstCri([a]) else FirstCri([b])
    ensures FirstCri([a]) == if a.kind.Table? && !a.kind.cri.Outside? then Some(a.kind.cri) else None
  {
    assert [a, b][..1] == [a] && [a][..0] == [] && [b][..0] == [];
  }

  const COMMENTED := Line(GRPC + "] # CRI", Table(Outside, false))
  const TURNED_ON := Line("  disable_hugetlb_controller = true", Key(Hugetlb, true))

  lemma BracketTrims(text: string)
    requires text != "" && text[0] == '[' && !IsSpace(text[|text| - 1])
    ensures Trim(text) == text && StartsWith(text, "[")
  {
    assert "" + text == text;
    TrimIs("", text);
    assert text[..1] == "[";
  }

  lemma CommentedTrims()
    ensures Trim(COMMENTED.text) == COMMENTED.text && StartsWith(COMMENTED.text, "[")
  {
    assert COMMENTED.text == (GRPC + "] # CR") + "I" && (GRPC + "] # CR")[0] == '[';
    BracketTrims(COMMENTED.text);
  }

  lemma CommentedIsUnderNone()
    ensures CriRuntimeRoot(COMMENTED.text).None? && !IsCniTable(COMMENTED.text)
  {
    var text := COMMENTED.text;
    assert text[|text| - 1] == 'I' && text[9] == '"' && text[24] == 'g';
    assert text[|GRPC|] == ']' && (GRPC + ".")[|GRPC|] == '.';
    assert |text| > |GRPC + "]"|;
    forall q | IsRootPrefix(q) && q != GRPC ensures !IsUnder(text, q) {
      Apart(text, GRPC, q, if q[9] != '"' then 9 else 24);
    }
    forall q | IsRootPrefix(q) ensures text != q + ".cni]" {
      assert (q + ".cni]")[|q| + 4] == ']' && |q + ".cni]"| == |q| + 5;
    }
  }

  lemma CommentedIsRead()
    ensures IsRead(COMMENTED) && COMMENTED.text in GrpcTable()
  {
    hide IsCniTable, CriRuntimeRoot;
    CommentedTrims();
    CommentedIsUnderNone();
    assert COMMENTED.text[..|GRPC + "]"|] == GRPC + "]";
    assert COMMENTED.text[|GRPC + "]"|..] == " # CRI";
    assert IsHeaderOf(COMMENTED.text, GRPC + "]") by {
      assert " # CRI"[1..] == "# CRI" && "# CRI"[..1] == "#";
      assert TrimStart(" # CRI") == TrimStart("# CRI") == "# CRI";
    }
  }

  lemma TurnedOnIsRead()
    ensures IsRead(TURNED_ON)
  {
    hide Classify;
    SettingIsKey();
    AssignmentRead("  ", SETTING, "true");
    assert TURNED_ON.text == "  " + Assignment(SETTING, "true");
  }

  /** A root whose header carries a comment is not known for one: its limit stays off, and the
      fallback defines the table again. */
  lemma CommentedRootIsRepeated()
    ensures var lines, fallback := [COMMENTED, TURNED_ON], RootLine(GRPC + "]");
      && AreRead(lines) && LimitHugetlb(lines, fallback) == lines + [fallback, OFF]
      && Count(lines, GrpcTable()) == 1 && Count(LimitHugetlb(lines, fallback), GrpcTable()) == 2
  {
    hide Classify, GrpcTable, AreHeaders, IsHeaderOf;
    var lines, fallback := [COMMENTED] + [TURNED_ON], RootLine(GRPC + "]");
    assert lines == [COMMENTED, TURNED_ON];
    CommentedIsRead();
    TurnedOnIsRead();
    GrpcTableIsHeaders();
    RootSpells(GRPC);
    OthersCountNone(TURNED_ON, GrpcTable());
    CountTwo(COMMENTED, TURNED_ON, GrpcTable());
    FirstOfTwo(COMMENTED, TURNED_ON);
    PassTwo(START, COMMENTED, TURNED_ON);
    assert HugetlbEnd(START, fallback) == [fallback, OFF];
    HeadersAreCounted(lines, fallback, GrpcTable());
  }
}
