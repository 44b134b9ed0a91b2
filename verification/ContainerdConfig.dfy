/** The configuration file as one text: how it is cut into lines and joined again, and what a
    second run of either patch reports. */
module ContainerdConfig {
  import opened ContainerdCni
  import opened ContainerdLines
  import opened ContainerdReading
  import opened ContainerdText
  import opened Text
  import opened Wrappers
  import Hugetlb = ContainerdHugetlb

  // --------------------------------------------------------------------- cutting and joining

  /** A line without the carriage return that ends it. */
  function StripCr(s: string): string { if s != "" && s[|s| - 1] == '\r' then s[..|s| - 1] else s }

  /** The lines between line feeds: each but the last ends with a line feed and perhaps a
      carriage return before it, and an empty last one is none. */
  function LinesOf(pieces: seq<string>): seq<string>
    requires pieces != []
  {
    if |pieces| > 1 then [StripCr(pieces[0])] + LinesOf(pieces[1..])
    else if pieces[0] == "" then [] else pieces
  }

  function Lines(text: string): seq<string> { LinesOf(Split(text, '\n')) }

  function Unlines(lines: seq<string>): string { Join(lines, '\n') }

  /** Cutting loses nothing: the text does not end with a line feed, and no line feed follows a
      carriage return. */
  predicate LosesNothing(pieces: seq<string>)
    requires pieces != []
  {
    if |pieces| == 1 then true
    else StripCr(pieces[0]) == pieces[0] && pieces[1..] != [""] && LosesNothing(pieces[1..])
  }

  lemma JoinStep(head: string, rest: seq<string>)
    ensures Unlines([head] + rest) == if rest == [] then head else head + "\n" + Unlines(rest)
  {
    assert ([head] + rest)[1..] == rest;
  }

  lemma {:induction false} RejoinedLength(pieces: seq<string>)
    requires pieces != []
    ensures |Unlines(LinesOf(pieces))| <= |Unlines(pieces)|
    ensures Unlines(LinesOf(pieces)) == Unlines(pieces) <==> LosesNothing(pieces)
    ensures LosesNothing(pieces) <==> |Unlines(LinesOf(pieces))| == |Unlines(pieces)|
  {
    if |pieces| <= 1 {
    } else {
      var head, rest := pieces[0], pieces[1..];
      RejoinedLength(rest);
      JoinStep(StripCr(head), LinesOf(rest));
      if LosesNothing(pieces) {
        KeptIsSome(rest);
      }
    }
  }

  lemma KeptIsSome(pieces: seq<string>)
    requires pieces != [] && pieces != [""]
    ensures LinesOf(pieces) != []
  {
  }

  /** Joining the lines of a text gives it back exactly when cutting loses nothing. */
  lemma RejoinsExactlyWhen(text: string)
    ensures Unlines(Lines(text)) == text <==> LosesNothing(Split(text, '\n'))
  {
    JoinOfSplit(text, '\n');
    RejoinedLength(Split(text, '\n'));
  }

  predicate EndsInLineFeed(text: string) { text != "" && text[|text| - 1] == '\n' }

  predicate HasCrLf(text: string) { exists i :: 0 < i < |text| && text[i] == '\n' && text[i - 1] == '\r' }

  /** A carriage return before a line feed is in the first line or in the rest. */
  lemma CrLfInParts(text: string, a: string, b: string)
    requires text == a + "\n" + b && Lacks(a, '\n')
    ensures HasCrLf(text) <==> StripCr(a) != a || HasCrLf(b)
  {
    if HasCrLf(text) {
      var i :| 0 < i < |text| && text[i] == '\n' && text[i - 1] == '\r';
      if i > |a| {
        assert b[i - |a| - 1] == text[i];
      }
    }
    if StripCr(a) != a {
      assert text[|a|] == '\n' && text[|a| - 1] == '\r';
    }
    if HasCrLf(b) {
      var j :| 0 < j < |b| && b[j] == '\n' && b[j - 1] == '\r';
      assert text[|a| + 1 + j] == b[j] && text[|a| + j] == b[j - 1];
    }
  }

  /** What cutting loses, told from the text. */
  lemma {:induction false} LosesNothingMeans(text: string)
    ensures LosesNothing(Split(text, '\n')) <==> !EndsInLineFeed(text) && !HasCrLf(text)
    decreases |text|
  {
    match SplitOnce(text, '\n')
    case None =>
      SplitOnceNone(text, '\n');
    case Some((a, b)) =>
      SplitOnceIs(text, '\n');
      SplitOnceShrinks(text, '\n');
      LosesNothingMeans(b);
      CrLfInParts(text, a, b);
      assert Split(text, '\n')[1..] == Split(b, '\n');
      assert text[|text| - 1] == if b == "" then '\n' else b[|b| - 1];
  }

  predicate AreLines(texts: seq<string>) { forall i :: 0 <= i < |texts| ==> Lacks(texts[i], '\n') }

  lemma {:induction false} PiecesAreLines(text: string)
    ensures AreLines(Split(text, '\n'))
    decreases |text|
  {
    match SplitOnce(text, '\n')
    case None => SplitOnceNone(text, '\n');
    case Some((a, b)) =>
      SplitOnceIs(text, '\n');
      SplitOnceShrinks(text, '\n');
      PiecesAreLines(b);
  }

  lemma {:induction false} LinesOfAreLines(pieces: seq<string>)
    requires pieces != [] && AreLines(pieces)
    ensures AreLines(LinesOf(pieces))
  {
    if |pieces| <= 1 {
    } else {
      LinesOfAreLines(pieces[1..]);
    }
  }

  lemma LinesAreLines(text: string)
    ensures AreLines(Lines(text))
  {
    PiecesAreLines(text);
    LinesOfAreLines(Split(text, '\n'));
  }

  /** The lines of joined lines. */
  lemma LinesOfUnlines(texts: seq<string>)
    requires texts != [] && AreLines(texts)
    ensures Split(Unlines(texts), '\n') == texts && Lines(Unlines(texts)) == LinesOf(texts)
  {
    SplitOfJoin(texts, '\n');
  }

  // ------------------------------------------------------------ what the patches write

  predicate IsLine(l: Line) { Lacks(l.text, '\n') }

  predicate AreAllLines(lines: seq<Line>) { forall i :: 0 <= i < |lines| ==> IsLine(lines[i]) }

  predicate AreDirLines(d: Dirs) { Lacks(d.conf, '\n') && Lacks(d.bin, '\n') }

  lemma SumAreLines(a: seq<Line>, b: seq<Line>)
    requires AreAllLines(a) && AreAllLines(b)
    ensures AreAllLines(a + b)
  {
  }

  lemma SettingsAreLines()
    ensures IsLine(OFF) && IsLine(TURNED_OFF) && IsLine(BLANK)
  {
  }

  lemma PrefixIsLine(prefix: string)
    requires IsRootPrefix(prefix)
    ensures Lacks(prefix, '\n')
  {
  }

  lemma HeadersAreLines(prefix: string)
    requires IsRootPrefix(prefix)
    ensures Lacks(prefix + "]", '\n') && Lacks(prefix + ".cni]", '\n')
  {
    hide IsRootPrefix;
    PrefixIsLine(prefix);
  }

  lemma DirLinesAreLines(d: Dirs)
    requires AreDirLines(d)
    ensures IsLine(ConfLine(d)) && IsLine(BinLine(d))
  {
  }

  lemma RewrittenIsLine(l: Line, d: Dirs)
    requires IsDir(l) && AreDirLines(d) && IsLine(l)
    ensures IsLine(Rewritten(l, d))
  {
    hide IsSpace, TrimStart;
    var indent := Indent(l.text);
    assert indent == l.text[..|indent|];
    assert Lacks(indent, '\n');
  }

  lemma ParentIsLine(s: Scan, l: Line)
    requires s.InHugetlb? && IsRead(l)
    ensures AreAllLines(Parent(s, l))
  {
    hide Classify;
    if Parent(s, l) != [] {
      var prefix := NestedRoot(l.text);
      HeadersAreLines(prefix);
      SettingsAreLines();
    }
  }

  lemma OutAreLines(s: Scan, l: Line)
    requires IsRead(l) && IsLine(l) && (s.InCni? ==> AreDirLines(s.dirs))
    ensures AreAllLines(Out(s, l))
  {
    hide Classify, Lacks;
    SettingsAreLines();
    if s.InHugetlb? {
      ParentIsLine(s, l);
      SumAreLines(MissingSetting(s), Parent(s, l));
    } else {
      DirLinesAreLines(s.dirs);
      if IsDir(l) {
        RewrittenIsLine(l, s.dirs);
      }
    }
  }

  lemma {:induction false} BodyAreLines(s: Scan, lines: seq<Line>)
    requires AreRead(lines) && AreAllLines(lines) && (s.InCni? ==> AreDirLines(s.dirs))
    ensures AreAllLines(Body(s, lines))
  {
    hide Classify, Lacks;
    if lines == [] {
    } else {
      var front, l := lines[..|lines| - 1], lines[|lines| - 1];
      BodyAreLines(s, front);
      OutAreLines(After(s, front), l);
      SumAreLines(Body(s, front), Out(After(s, front), l));
    }
  }

  lemma FallbackIsLine(texts: seq<string>)
    ensures IsLine(Fallback(texts))
  {
    hide HasTrimmed, Lacks;
    HeadersAreLines(RUNTIME_QUOTED);
    HeadersAreLines(GRPC);
  }

  lemma HugetlbEndAreLines(s: Scan, fallback: Line)
    requires s.InHugetlb? && IsLine(fallback)
    ensures AreAllLines(Hugetlb.HugetlbEnd(s, fallback))
  {
    hide Lacks;
    SettingsAreLines();
  }

  lemma SomeLimitIsWritten(texts: seq<string>)
    ensures LimitTexts(texts) != []
  {
    hide Classify, Fallback;
    BodyGrows(Hugetlb.START, Read(texts));
    if texts == [] {
      assert Hugetlb.HugetlbEnd(After(Hugetlb.START, []), Fallback(texts)) != [];
    }
  }

  lemma LimitAreLines(texts: seq<string>)
    requires AreLines(texts)
    ensures AreLines(LimitTexts(texts)) && LimitTexts(texts) != []
  {
    hide Classify, Lacks, Fallback, Body, Hugetlb.HugetlbEnd;
    var lines, fallback := Read(texts), Fallback(texts);
    FallbackIsLine(texts);
    ReadIsInverse(texts, []);
    BodyAreLines(Hugetlb.START, lines);
    var s := After(Hugetlb.START, lines);
    HugetlbEndAreLines(s, fallback);
    SumAreLines(Body(Hugetlb.START, lines), Hugetlb.HugetlbEnd(s, fallback));
    SomeLimitIsWritten(texts);
  }

  lemma CniEndAreLines(s: Scan, body: seq<Line>, header: Line)
    requires s.InCni? && AreDirLines(s.dirs) && IsLine(header)
    ensures AreAllLines(CniEnd(s, body, header))
  {
    hide Lacks;
    SettingsAreLines();
    DirLinesAreLines(s.dirs);
    SumAreLines([ConfLine(s.dirs)], [BinLine(s.dirs)]);
    SumAreLines([header], [ConfLine(s.dirs)] + [BinLine(s.dirs)]);
  }

  lemma HeaderIsLine(texts: seq<string>)
    ensures IsLine(Header(texts))
  {
    hide HasTrimmed, Mention, Lacks;
    HeadersAreLines(RUNTIME);
    HeadersAreLines(GRPC);
  }

  lemma ConfigureAreLines(texts: seq<string>, d: Dirs)
    requires AreLines(texts) && AreDirLines(d)
    ensures AreLines(ConfigureTexts(texts, d)) && ConfigureTexts(texts, d) != []
  {
    hide Classify, Lacks, Header, CniEnd, Body, AreDirLines;
    var lines, header := Read(texts), Header(texts);
    HeaderIsLine(texts);
    ReadIsInverse(texts, []);
    BodyAreLines(Start(d), lines);
    var s, body := After(Start(d), lines), Body(Start(d), lines);
    CniEndAreLines(s, body, header);
    SumAreLines(body, CniEnd(s, body, header));
    SomethingIsWritten(texts, d);
  }

  lemma SomethingIsWritten(texts: seq<string>, d: Dirs)
    ensures ConfigureTexts(texts, d) != []
  {
    hide Classify, Header;
    BodyGrows(Start(d), Read(texts));
    if texts == [] {
      assert CniEnd(After(Start(d), []), Body(Start(d), []), Header(texts)) != [];
    }
  }

  // ---------------------------------------------------------- carriage returns do not matter

  lemma {:induction false} TrimStartCr(t: string)
    ensures TrimStart(t + "\r") == if TrimStart(t) == "" then "" else TrimStart(t) + "\r"
  {
    if t == "" {
      assert ("" + "\r")[1..] == "";
    } else if IsSpace(t[0]) {
      assert (t + "\r")[1..] == t[1..] + "\r";
      TrimStartCr(t[1..]);
    }
  }

  lemma TrimCr(t: string)
    ensures Trim(t + "\r") == Trim(t)
  {
    TrimStartCr(t);
    var u := TrimStart(t);
    if u != "" {
      assert (u + "\r")[..|u|] == u;
    }
  }

  lemma StripReadsTheSame(t: string)
    ensures Classify(StripCr(t)) == Classify(t)
  {
    hide CriRuntimeRoot, IsCniTable;
    if StripCr(t) != t {
      assert t == StripCr(t) + "\r";
      TrimCr(StripCr(t));
    }
  }

  /** A chosen directory's line ends with a quote. */
  lemma ChosenKeepsText(l: Line, d: Dirs)
    requires IsDir(l) && AreQuoted(d) && Rewritten(l, d) == l
    ensures StripCr(l.text) == l.text
  {
    hide Indent;
    var value := if l.kind.name.ConfDir? then d.conf else d.bin;
    assert l.text[|l.text| - 1] == value[|value| - 1] == '"';
  }

  function Stripped(l: Line): Line { Line(StripCr(l.text), l.kind) }

  lemma StrippedOut(s: Scan, l: Line)
    requires s.InCni? ==> AreQuoted(s.dirs)
    requires Out(s, l) == [l]
    ensures Out(s, Stripped(l)) == [Stripped(l)] && Next(s, Stripped(l)) == Next(s, l)
  {
    hide StripCr, AreQuoted, Indent;
    if l.kind.Table? {
      var added := if s.InHugetlb? then MissingSetting(s) + Parent(s, l) else MissingDirs(s);
      assert |added + [l]| == 1;
      assert added == [];
    } else if s.InCni? && s.inTable && IsDir(l) {
      ChosenKeepsText(l, s.dirs);
    }
  }

  ghost predicate AreSame(a: seq<Line>, b: seq<Line>) {
    |a| == |b| && forall i :: 0 <= i < |a| ==> b[i] == a[i] || b[i] == Stripped(a[i])
  }

  /** Lines that pass also pass without their carriage returns, to the same state. */
  lemma {:induction false} StrippedPasses(s: Scan, a: seq<Line>, b: seq<Line>)
    requires AreSame(a, b) && Passes(s, a) && (s.InCni? ==> AreQuoted(s.dirs))
    ensures Passes(s, b) && After(s, b) == After(s, a)
  {
    hide Stripped, AreQuoted, Passes, Out, Next;
    if a != [] {
      var n := |a| - 1;
      PassesLast(s, a);
      PassesLast(s, b);
      StrippedPasses(s, a[..n], b[..n]);
      StrippedOut(After(s, a[..n]), a[n]);
    } else {
      PassNothing(s, b);
    }
  }

  lemma PassNothing(s: Scan, b: seq<Line>)
    requires b == []
    ensures Passes(s, b)
  {
  }

  /** A blank last line passes to the same state. */
  lemma BlankLast(s: Scan, lines: seq<Line>)
    requires lines != [] && lines[|lines| - 1].kind == Plain && Passes(s, lines)
    ensures Passes(s, lines[..|lines| - 1]) && After(s, lines[..|lines| - 1]) == After(s, lines)
  {
    PassesLast(s, lines);
  }

  lemma {:induction false} LinesOfAre(pieces: seq<string>)
    requires pieces != []
    ensures var kept := if pieces[|pieces| - 1] == "" then |pieces| - 1 else |pieces|;
      && |LinesOf(pieces)| == kept
      && forall i :: 0 <= i < kept ==> LinesOf(pieces)[i] == pieces[i] || LinesOf(pieces)[i] == StripCr(pieces[i])
  {
    if |pieces| <= 1 {
    } else {
      LinesOfAre(pieces[1..]);
      forall i | 0 < i < |pieces| ensures pieces[1..][i - 1] == pieces[i] {}
    }
  }

  lemma ReadLinesAre(pieces: seq<string>, kept: nat)
    requires pieces != [] && kept <= |pieces| && |LinesOf(pieces)| == kept
    requires forall i :: 0 <= i < kept ==> LinesOf(pieces)[i] == pieces[i] || LinesOf(pieces)[i] == StripCr(pieces[i])
    ensures AreSame(Read(pieces)[..kept], Read(LinesOf(pieces)))
  {
    hide Classify, StripCr;
    forall i | 0 <= i < kept
      ensures var a, b := Read(pieces)[i], Read(LinesOf(pieces))[i]; b == a || b == Stripped(a)
    {
      StripReadsTheSame(pieces[i]);
    }
  }

  /** What passed as it was written passes as it is read from the joined text. */
  lemma RereadPasses(s: Scan, texts: seq<string>)
    requires texts != [] && Passes(s, Read(texts)) && (s.InCni? ==> AreQuoted(s.dirs))
    ensures Passes(s, Read(LinesOf(texts))) && After(s, Read(LinesOf(texts))) == After(s, Read(texts))
  {
    hide Classify, Passes, StripCr, AreQuoted, LinesOf;
    var n := |texts| - 1;
    LinesOfAre(texts);
    ReadLinesAre(texts, if texts[n] == "" then n else n + 1);
    if texts[n] == "" {
      BlankRead();
      BlankLast(s, Read(texts));
      StrippedPasses(s, Read(texts)[..n], Read(LinesOf(texts)));
    } else {
      assert Read(texts)[..n + 1] == Read(texts);
      StrippedPasses(s, Read(texts), Read(LinesOf(texts)));
    }
  }

  // ---------------------------------------------------------------------- second runs

  function LimitText(config: string): string { Unlines(LimitTexts(Lines(config))) }

  function ConfigureText(config: string, d: Dirs): string { Unlines(ConfigureTexts(Lines(config), d)) }

  /** A second hugetlb patch of the written file finds nothing to change in any line. */
  lemma SecondLimitChangesNothing(config: string)
    ensures var patched := LimitText(config); LimitTexts(Lines(patched)) == Lines(patched)
  {
    hide Classify, Fallback, Hugetlb.IsSecured, Passes;
    var out := LimitTexts(Lines(config));
    LinesAreLines(config);
    LimitAreLines(Lines(config));
    LinesOfUnlines(out);
    LimitSecures(Lines(config));
    Hugetlb.LimitedMeans(Read(out));
    RereadPasses(Hugetlb.START, out);
    Hugetlb.LimitedMeans(Read(LinesOf(out)));
    LimitSecures(LinesOf(out));
  }

  lemma SecondConfigureChangesNoLine(config: string, d: Dirs)
    requires AreQuoted(d) && AreDirLines(d)
    ensures var patched := ConfigureText(config, d); ConfigureTexts(Lines(patched), d) == Lines(patched)
  {
    hide Classify, Header, IsSetUp, Passes, AreQuoted;
    var out := ConfigureTexts(Lines(config), d);
    LinesAreLines(config);
    ConfigureAreLines(Lines(config), d);
    LinesOfUnlines(out);
    ConfigureSetsUpTexts(Lines(config), d);
    ConfiguredMeans(Read(out), d);
    RereadPasses(Start(d), out);
    ConfiguredMeans(Read(LinesOf(out)), d);
    ConfigureSetsUpTexts(LinesOf(out), d);
  }

  /** The CNI patch compares texts, not lines: it reports a change if and only if the lines
      are not set up, or the file ends with a line feed or has one after a carriage return,
      which cutting into lines loses. */
  lemma ConfigureReportsExactlyWhen(config: string, d: Dirs)
    requires AreQuoted(d) && AreDirLines(d)
    ensures ConfigureText(config, d) != config
       <==> !IsSetUp(Read(Lines(config)), d) || EndsInLineFeed(config) || HasCrLf(config)
  {
    hide Classify, Header, IsSetUp, AreQuoted, LosesNothing, AreDirLines;
    LosesNothingMeans(config);
    ConfigureSetsUpTexts(Lines(config), d);
    RejoinsExactlyWhen(config);
    if ConfigureText(config, d) == config {
      SecondConfigureChangesNoLine(config, d);
    }
  }

  lemma {:induction false} UnlinesPush(texts: seq<string>)
    requires texts != []
    ensures Unlines(texts + [""]) == Unlines(texts) + "\n"
  {
    assert texts + [""] == [texts[0]] + (texts[1..] + [""]);
    assert texts == [texts[0]] + texts[1..];
    JoinStep(texts[0], texts[1..] + [""]);
    JoinStep(texts[0], texts[1..]);
    if |texts| == 1 {
      assert texts[1..] + [""] == [""];
    } else {
      UnlinesPush(texts[1..]);
    }
  }

  lemma BlankKeepsConfigured(lines: seq<Line>, d: Dirs)
    requires IsConfigured(lines, d)
    ensures IsConfigured(lines + [BLANK], d)
  {
    assert (lines + [BLANK])[..|lines|] == lines;
    PassesLast(Start(d), lines + [BLANK]);
  }

  lemma ReadPush(texts: seq<string>)
    ensures Read(texts + [""]) == Read(texts) + [BLANK]
  {
    hide Classify;
    BlankRead();
    assert (texts + [""])[..|texts|] == texts;
  }

  /** A file that is set up, with the line feed most files end in, is reported as changed. */
  lemma AFinalLineFeedIsReported(config: string, d: Dirs)
    requires AreQuoted(d) && AreDirLines(d)
    ensures var file := ConfigureText(config, d) + "\n";
      IsSetUp(Read(Lines(file)), d) && ConfigureText(file, d) != file
  {
    hide Classify, Header, IsSetUp, AreQuoted, AreDirLines, Passes, HasCrLf;
    var out := ConfigureTexts(Lines(config), d);
    var file := ConfigureText(config, d) + "\n";
    LinesAreLines(config);
    ConfigureAreLines(Lines(config), d);
    UnlinesPush(out);
    LinesOfUnlines(out + [""]);
    ConfigureSetsUpTexts(Lines(config), d);
    ConfiguredMeans(Read(out), d);
    BlankKeepsConfigured(Read(out), d);
    ReadPush(out);
    RereadPasses(Start(d), out + [""]);
    ConfiguredMeans(Read(Lines(file)), d);
    ConfigureReportsExactlyWhen(file, d);
  }

  /** So a second run on the file the first one wrote need not be silent. */
  lemma SecondConfigureReportsExactlyWhen(config: string, d: Dirs)
    requires AreQuoted(d) && AreDirLines(d)
    ensures var patched := ConfigureText(config, d);
      ConfigureText(patched, d) != patched <==> EndsInLineFeed(patched) || HasCrLf(patched)
  {
    LosesNothingMeans(ConfigureText(config, d));
    SecondConfigureChangesNoLine(config, d);
    RejoinsExactlyWhen(ConfigureText(config, d));
  }

  // ------------------------------------------------------------------- paths as they are written

  const HEX := "0123456789abcdef"

  /** One character of a JSON string. */
  function Escaped(c: char): string {
    if c == '"' then "\\\""
    else if c == '\\' then "\\\\"
    else if c == '\n' then "\\n"
    else if c == '\r' then "\\r"
    else if c == '\t' then "\\t"
    else if c == '\U{8}' then "\\b"
    else if c == '\U{C}' then "\\f"
    else if c < ' ' then "\\u00" + [HEX[c as int / 16 % 16], HEX[c as int % 16]]
    else [c]
  }

  function EscapedAll(s: string): string {
    if s == "" then "" else Escaped(s[0]) + EscapedAll(s[1..])
  }

  /** The quote, the backslash and five controls have short escapes, other controls are written
      in hexadecimal, and nothing else is escaped. */
  lemma EscapesAre(c: char)
    ensures Escaped('"') == "\\\"" && Escaped('\\') == "\\\\" && Escaped('\n') == "\\n" && Escaped('\r') == "\\r"
    ensures Escaped('\t') == "\\t" && Escaped('\U{8}') == "\\b" && Escaped('\U{C}') == "\\f"
    ensures Escaped('\U{1}') == "\\u0001" && Escaped('\U{1F}') == "\\u001f"
    ensures |Escaped(c)| == 1 <==> c >= ' ' && c != '"' && c != '\\'
  {
  }

  /** A path as a JSON string. */
  function Quote(path: string): string { "\"" + EscapedAll(path) + "\"" }

  lemma EscapedIsLine(c: char)
    ensures Lacks(Escaped(c), '\n')
  {
  }

  lemma {:induction false} EscapedAllIsLine(s: string)
    ensures Lacks(EscapedAll(s), '\n')
  {
    if s == "" {
    } else {
      EscapedIsLine(s[0]);
      EscapedAllIsLine(s[1..]);
    }
  }

  lemma QuoteIsQuoted(path: string)
    ensures IsQuoted(Quote(path)) && Lacks(Quote(path), '\n')
  {
    EscapedAllIsLine(path);
  }

  // A JSON string read back (section 7 of RFC 8259), as far as code points below 256 are escaped.

  function HexValue(c: char): Option<nat> {
    if '0' <= c <= '9' then Some(c as int - '0' as int)
    else if 'a' <= c <= 'f' then Some(c as int - 'a' as int + 10)
    else if 'A' <= c <= 'F' then Some(c as int - 'A' as int + 10)
    else None
  }

  /** The character of a two-character escape. */
  function Unescape(c: char): Option<char> {
    match c
    case '"' => Some('"')
    case '\\' => Some('\\')
    case '/' => Some('/')
    case 'b' => Some('\U{8}')
    case 'f' => Some('\U{C}')
    case 'n' => Some('\n')
    case 'r' => Some('\r')
    case 't' => Some('\t')
    case _ => None
  }

  /** The first character that the text stands for, and how many it is written with. */
  function ReadChar(s: string): (r: Option<(char, nat)>)
    ensures r.Some? ==> 0 < r.value.1 <= |s|
  {
    if s == "" || s[0] == '"' || s[0] < ' ' then None
    else if s[0] != '\\' then Some((s[0], 1))
    else if |s| >= 6 && s[1..4] == "u00" then
      match (HexValue(s[4]), HexValue(s[5]))
      case (Some(high), Some(low)) => Some(((16 * high + low) as char, 6))
      case _ => None
    else if |s| < 2 then None
    else
      match Unescape(s[1])
      case None => None
      case Some(c) => Some((c, 2))
  }

  function ReadChars(s: string): Option<string>
    decreases |s|
  {
    if s == "" then Some("")
    else
      match ReadChar(s)
      case None => None
      case Some((c, n)) =>
        match ReadChars(s[n..])
        case None => None
        case Some(rest) => Some([c] + rest)
  }

  function Unquote(s: string): Option<string> {
    if IsQuoted(s) then ReadChars(s[1..|s| - 1]) else None
  }

  lemma HexDigits(n: nat)
    requires n < 32
    ensures HexValue(HEX[n / 16 % 16]) == Some(n / 16) && HexValue(HEX[n % 16]) == Some(n % 16)
  {
  }

  lemma EscapedReads(c: char, rest: string)
    ensures ReadChar(Escaped(c) + rest) == Some((c, |Escaped(c)|))
  {
    var s := Escaped(c) + rest;
    if |Escaped(c)| == 6 {
      HexDigits(c as int);
      assert s[1..4] == "u00" && s[4] == HEX[c as int / 16 % 16] && s[5] == HEX[c as int % 16];
    } else if |Escaped(c)| == 2 {
      assert |s| >= 4 ==> s[1..4][0] == s[1];
    }
  }

  lemma {:induction false} EscapedAllReads(s: string)
    ensures ReadChars(EscapedAll(s)) == Some(s)
  {
    if s == "" {
    } else {
      var head, rest := Escaped(s[0]), EscapedAll(s[1..]);
      EscapedReads(s[0], rest);
      EscapedAllReads(s[1..]);
      assert (head + rest)[|head|..] == rest && head + rest != "";
      assert [s[0]] + s[1..] == s;
    }
  }

  /** A path in JSON quotes reads back as the path. */
  lemma UnquoteOfQuote(path: string)
    ensures Unquote(Quote(path)) == Some(path)
  {
    EscapedAllReads(path);
    assert Quote(path)[1..|Quote(path)| - 1] == EscapedAll(path);
  }

  function Written(conf: string, bin: string): (d: Dirs)
    ensures AreQuoted(d) && AreDirLines(d)
  {
    QuoteIsQuoted(conf);
    QuoteIsQuoted(bin);
    Dirs(Quote(conf), Quote(bin))
  }

  // -------------------------------------------------------------------- as the program runs them

  /** The hugetlb patch of a file, and whether it reports a change. */
  method EnableHugetlbController(config: string) returns (patched: string, changed: bool)
    ensures patched == LimitText(config)
    ensures changed <==> !Hugetlb.IsSecured(Read(Lines(config)))
    ensures Hugetlb.IsSecured(Read(LimitTexts(Lines(config))))
  {
    hide Classify, Hugetlb.IsSecured, Hugetlb.LimitHugetlb, HasTrimmed;
    var lines := Lines(config);
    FallbackIsRead(lines);
    var output;
    output, changed := Hugetlb.EnableHugetlbController(Read(lines), Fallback(lines));
    ReadIsInverse(lines, []);
    LimitReadsBack(lines);
    LimitSecures(lines);
    patched := Unlines(Texts(output));
  }

  predicate IsAbsolute(path: string) { path != "" && path[0] == '/' }

  lemma AbsoluteMeans(path: Option<string>)
    ensures path.Some? ==> (IsAbsolute(path.value) <==> StartsWith(path.value, "/"))
  {
    if path.Some? && IsAbsolute(path.value) {
      assert path.value[..1] == "/";
    }
  }

  /** The CNI patch of a file. It fails on one path without the other and on a relative path,
      has nothing to do without paths, and reports a change of the text. */
  method ConfigureCniDirs(config: string, conf: Option<string>, bin: Option<string>)
    returns (patched: Option<string>, changed: bool)
    ensures patched.None? <==>
      conf.Some? != bin.Some? || (conf.Some? && !(StartsWith(conf.value, "/") && StartsWith(bin.value, "/")))
    ensures patched.Some? ==>
      patched.value == if conf.None? then config else ConfigureText(config, Written(conf.value, bin.value))
    ensures changed <==> patched.Some? && patched.value != config
  {
    AbsoluteMeans(conf);
    AbsoluteMeans(bin);
    if conf.None? || bin.None? {
      return if conf.Some? || bin.Some? then None else Some(config), false;
    }
    if !IsAbsolute(conf.value) || !IsAbsolute(bin.value) {
      return None, false;
    }
    var lines := Lines(config);
    var output := ConfigureLines(Read(lines), Written(conf.value, bin.value), Header(lines));
    var text := Unlines(Texts(output));
    return Some(text), text != config;
  }
}
