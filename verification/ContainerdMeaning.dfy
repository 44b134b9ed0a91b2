/** What the two patches do to a configuration, told from the very texts in it: its headers, its
    keys and their values. */
module ContainerdMeaning {
  import opened ContainerdCni
  import opened ContainerdLines
  import opened ContainerdReading
  import opened ContainerdText
  import opened Text
  import opened Wrappers
  import Hugetlb = ContainerdHugetlb

  // ------------------------------------------------------------------------------ headers

  /** The CRI plugin's table, in either schema and either quotes. */
  predicate IsRootHeader(header: string) {
    || header == "[plugins.\"io.containerd.grpc.v1.cri\"]" || header == "[plugins.'io.containerd.grpc.v1.cri']"
    || header == "[plugins.\"io.containerd.cri.v1.runtime\"]" || header == "[plugins.'io.containerd.cri.v1.runtime']"
  }

  predicate IsCniTableHeader(header: string) {
    || header == "[plugins.\"io.containerd.grpc.v1.cri\".cni]" || header == "[plugins.'io.containerd.grpc.v1.cri'.cni]"
    || header == "[plugins.\"io.containerd.cri.v1.runtime\".cni]" || header == "[plugins.'io.containerd.cri.v1.runtime'.cni]"
  }

  /** The header is of a table nested in the root, which ends in a bracket. */
  predicate IsNestedIn(header: string, root: string) {
    IsRootHeader(root) && StartsWith(header, root[..|root| - 1] + ".")
  }

  lemma RootHeaders(header: string)
    ensures IsRootHeader(header) <==> exists prefix :: IsRootPrefix(prefix) && header == prefix + "]"
    ensures forall prefix :: IsRootPrefix(prefix) ==> IsRootHeader(prefix + "]")
  {
    if IsRootHeader(header) {
      var prefix := header[..|header| - 1];
      assert header == prefix + "]" && IsRootPrefix(prefix);
    }
  }

  /** How a line that opens with a bracket is read: a root, a table nested in a root, or neither;
      and the CNI tables are these four. */
  lemma HeadersAreRead(text: string, root: string)
    ensures Classify(text).Table? <==> StartsWith(Trim(text), "[")
    ensures Classify(text).Table? ==> var t := Classify(text);
      && (t.cri.Root? <==> IsRootHeader(Trim(text)))
      && (t.cri == Nested(root) <==> IsNestedIn(Trim(text), root))
      && (t.cni <==> IsCniTableHeader(Trim(text)))
  {
    hide TrimStart, TrimEnd, SplitOnce;
    if Classify(text).Table? {
      RootIsRead(Trim(text));
      NestedIsRead(Trim(text), root);
      CniIsRead(Trim(text));
    }
  }

  lemma CniIsRead(header: string)
    ensures IsCniTable(header) <==> IsCniTableHeader(header)
  {
  }

  lemma RootIsRead(header: string)
    ensures IsRootHeader(header) <==> CriRuntimeRoot(header) == Some(header)
  {
    RootHeaders(header);
    if IsRootHeader(header) {
      var prefix :| IsRootPrefix(prefix) && header == prefix + "]";
      UnderItself(prefix, "");
      RootIs(header, prefix);
    } else if CriRuntimeRoot(header).Some? {
      var prefix := PrefixOf(header);
    }
  }

  lemma PrefixOf(header: string) returns (prefix: string)
    requires CriRuntimeRoot(header).Some?
    ensures IsRootPrefix(prefix) && CriRuntimeRoot(header).value == prefix + "]" && IsUnder(header, prefix)
  {
    prefix := if IsUnder(header, GRPC) then GRPC else if IsUnder(header, GRPC_QUOTED) then GRPC_QUOTED
              else if IsUnder(header, RUNTIME) then RUNTIME else RUNTIME_QUOTED;
  }

  lemma NestedIsRead(header: string, root: string)
    ensures IsNestedIn(header, root) <==> CriRuntimeRoot(header) == Some(root) && header != root
  {
    hide IsRootHeader;
    RootHeaders(root);
    if IsNestedIn(header, root) {
      var prefix :| IsRootPrefix(prefix) && root == prefix + "]";
      assert root[..|root| - 1] == prefix;
      RootIs(header, prefix);
      assert header[|prefix|] == '.' && root[|prefix|] == ']';
    }
    if CriRuntimeRoot(header) == Some(root) && header != root {
      var prefix := PrefixOf(header);
      assert root[..|root| - 1] == prefix;
    }
  }

  // --------------------------------------------------------------------- keys and values

  /** A line that sets something: neither a header nor a comment, with an equals sign. */
  predicate Sets(text: string) {
    !StartsWith(Trim(text), "[") && !StartsWith(Trim(text), "#") && SplitOnce(Trim(text), '=').Some?
  }

  function KeyText(text: string): string
    requires Sets(text)
  {
    Trim(SplitOnce(Trim(text), '=').value.0)
  }

  function ValueText(text: string): string
    requires Sets(text)
  {
    Trim(SplitOnce(Trim(text), '=').value.1)
  }

  /** The keys the patches know, and whether a value starts with `true`. */
  lemma KeysAreRead(text: string)
    ensures Classify(text).Key? <==>
      Sets(text) && KeyText(text) in {"disable_hugetlb_controller", "conf_dir", "bin_dir"}
    ensures Classify(text).Key? ==> var key := Classify(text);
      && (key.name.Hugetlb? <==> KeyText(text) == "disable_hugetlb_controller")
      && (key.name.ConfDir? <==> KeyText(text) == "conf_dir")
      && (key.name.BinDir? <==> KeyText(text) == "bin_dir")
      && (key.isTrue <==> StartsWith(TrimStart(SplitOnce(Trim(text), '=').value.1), "true"))
  {
    hide TrimStart, TrimEnd, Trim, SplitOnce, CriRuntimeRoot, IsCniTable;
  }

  lemma AssignedValue(indent: string, key: string, value: string)
    requires AreSpaces(indent) && IsQuoted(value) && (key == "conf_dir" || key == "bin_dir")
    ensures var text := indent + (key + " = " + value); Sets(text) && KeyText(text) == key && ValueText(text) == value
  {
    AssignmentIsTight(key, value);
    TrimIs(indent, Assignment(key, value));
    AssignmentSplits(key, value);
    TrimKey(key);
    TrimIs(" ", value);
    assert Assignment(key, value)[0] == key[0];
  }

  lemma RewrittenValue(l: Line, d: Dirs)
    requires IsDir(l) && AreQuoted(d) && Rewritten(l, d) == l
    ensures Sets(l.text) && ValueText(l.text) == if l.kind.name.ConfDir? then d.conf else d.bin
  {
    hide Indent, Sets, KeyText, ValueText;
    IndentIsSpace(l.text);
    var (key, value) := if l.kind.name.ConfDir? then ("conf_dir", d.conf) else ("bin_dir", d.bin);
    AssignedValue(Indent(l.text), key, value);
    assert l.text == Indent(l.text) + (key + " = " + value);
  }

  lemma ReadPrefix(texts: seq<string>, i: nat)
    requires i <= |texts|
    ensures Read(texts)[..i] == Read(texts[..i])
  {
    hide Classify;
  }

  lemma DirInOrder(lines: seq<Line>, d: Dirs, i: nat)
    requires IsSetUp(lines, d) && i < |lines| && EndsInCni(lines[..i]) && IsDir(lines[i])
    ensures Rewritten(lines[i], d) == lines[i]
  {
    hide Rewritten, EndsInCni, HasBoth, HasCni;
    assert IsInOrder(lines[..i], lines[i], d);
  }

  lemma SetUpIsChosen(texts: seq<string>, d: Dirs, i: nat)
    requires AreQuoted(d) && IsSetUp(Read(texts), d)
    requires i < |texts| && EndsInCni(Read(texts)[..i]) && IsDir(Read(texts)[i])
    ensures var l := Read(texts)[i];
      Sets(texts[i]) && ValueText(texts[i]) == if l.kind.name.ConfDir? then d.conf else d.bin
  {
    hide *;
    DirInOrder(Read(texts), d, i);
    RewrittenValue(Read(texts)[i], d);
  }

  /** In a CNI table of the patched text, a directory has the value that was chosen for it. */
  lemma DirectoriesAreChosen(texts: seq<string>, d: Dirs, i: nat)
    requires AreQuoted(d) && i < |ConfigureTexts(texts, d)|
    requires EndsInCni(Read(ConfigureTexts(texts, d)[..i])) && Sets(ConfigureTexts(texts, d)[i])
    ensures var text := ConfigureTexts(texts, d)[i];
      && (KeyText(text) == "conf_dir" ==> ValueText(text) == d.conf)
      && (KeyText(text) == "bin_dir" ==> ValueText(text) == d.bin)
  {
    hide Classify, Sets, KeyText, ValueText, AreQuoted, IsSetUp, EndsInCni, ConfigureTexts;
    var out := ConfigureTexts(texts, d);
    ConfigureSetsUpTexts(texts, d);
    ReadPrefix(out, i);
    KeysAreRead(out[i]);
    if KeyText(out[i]) == "conf_dir" || KeyText(out[i]) == "bin_dir" {
      SetUpIsChosen(out, d, i);
    }
  }

  // --------------------------------------------------------------------- what is added

  lemma NoRootEnds(lines: seq<Line>)
    requires !Hugetlb.HasCri(lines)
    ensures !Hugetlb.EndsInRoot(lines)
  {
    if lines == [] {
    } else {
      Hugetlb.HasCriLast(lines);
      if !lines[|lines| - 1].kind.Table? {
        NoRootEnds(lines[..|lines| - 1]);
      }
    }
  }

  lemma NothingInRoot(lines: seq<Line>)
    requires !Hugetlb.HasCri(lines)
    ensures Body(Hugetlb.START, lines) == lines && After(Hugetlb.START, lines) == Hugetlb.START
  {
    forall i | 0 <= i < |lines| ensures Hugetlb.IsInOrder(lines[..i], lines[i]) {
      forall j | 0 <= j < i ensures lines[..i][j] == lines[j] {}
      NoRootEnds(lines[..i]);
    }
    Hugetlb.PassesMeans(lines);
    Hugetlb.ScanMeans(lines);
    NoRootEnds(lines);
    StaysAtStart(lines);
  }

  lemma {:induction false} StaysAtStart(lines: seq<Line>)
    requires !Hugetlb.HasCri(lines)
    ensures After(Hugetlb.START, lines) == Hugetlb.START
  {
    if lines == [] {
    } else {
      Hugetlb.HasCriLast(lines);
      StaysAtStart(lines[..|lines| - 1]);
    }
  }

  /** The header of the root that is added, by the schema version. */
  function AddedRoot(texts: seq<string>): string {
    if exists i :: 0 <= i < |texts| && Trim(texts[i]) == "version = 2"
    then "[plugins.'io.containerd.cri.v1.runtime']" else "[plugins.\"io.containerd.grpc.v1.cri\"]"
  }

  lemma FallbackText(texts: seq<string>)
    ensures Fallback(texts).text == AddedRoot(texts)
  {
    hide Trim;
  }

  lemma TextsOfSum(a: seq<Line>, b: seq<Line>)
    ensures Texts(a + b) == Texts(a) + Texts(b)
  {
  }

  lemma RootLinesAreAdded(texts: seq<string>)
    requires !Hugetlb.HasCri(Read(texts))
    ensures LimitTexts(texts) == texts + [Fallback(texts).text, OFF.text]
  {
    hide Classify, Fallback, Hugetlb.HasCri;
    NothingInRoot(Read(texts));
    ReadIsInverse(texts, []);
    var end := [Fallback(texts)] + [OFF];
    assert Hugetlb.HugetlbEnd(Hugetlb.START, Fallback(texts)) == end;
    TextsOfSum(Read(texts), end);
    assert Texts(end) == [Fallback(texts).text, OFF.text];
  }

  /** A file without a CRI table gets one at its end, with the limit on. */
  lemma ARootIsAdded(texts: seq<string>)
    requires !Hugetlb.HasCri(Read(texts))
    ensures LimitTexts(texts) == texts + [AddedRoot(texts), "  disable_hugetlb_controller = false"]
  {
    hide Classify, LimitTexts, Hugetlb.HasCri, Fallback, AddedRoot;
    RootLinesAreAdded(texts);
    FallbackText(texts);
  }

  /** An active setting that switches the limits off is replaced, in a root table and nowhere else. */
  lemma TrueBecomesFalse(before: seq<string>, text: string)
    requires Classify(text).Key?
    ensures var out := Texts(Out(After(Hugetlb.START, Read(before)), Line(text, Classify(text))));
      out == if KeyText(text) == "disable_hugetlb_controller" && Classify(text).isTrue && Hugetlb.EndsInRoot(Read(before))
             then ["disable_hugetlb_controller = false"] else [text]
  {
    hide Classify, KeyText;
    KeysAreRead(text);
    Hugetlb.ScanMeans(Read(before));
  }

  lemma NoCniEnds(lines: seq<Line>)
    requires !HasCni(lines)
    ensures !EndsInCni(lines)
  {
    if lines == [] {
    } else {
      HasCniLast(lines);
      if !lines[|lines| - 1].kind.Table? {
        NoCniEnds(lines[..|lines| - 1]);
      }
    }
  }

  lemma NothingInCni(lines: seq<Line>, d: Dirs)
    requires !HasCni(lines)
    ensures Body(Start(d), lines) == lines
    ensures !After(Start(d), lines).inTable && !After(Start(d), lines).met
  {
    forall i | 0 <= i < |lines| ensures IsInOrder(lines[..i], lines[i], d) {
      forall j | 0 <= j < i ensures lines[..i][j] == lines[j] {}
      NoCniEnds(lines[..i]);
    }
    PassesMeans(lines, d);
    ScanMeans(lines, d);
    NoCniEnds(lines);
  }

  predicate IsWithin(wanted: string, text: string) { exists i :: 0 <= i <= |text| && StartsWith(text[i..], wanted) }

  lemma {:induction false} ContainsMeans(text: string, wanted: string)
    requires wanted != ""
    ensures Contains(text, wanted) <==> IsWithin(wanted, text)
  {
    assert text[0..] == text;
    if text == "" {
    } else {
      ContainsMeans(text[1..], wanted);
      forall i | 0 < i <= |text| ensures text[i..] == text[1..][i - 1..] {}
      if IsWithin(wanted, text[1..]) {
        var i :| 0 <= i <= |text| - 1 && StartsWith(text[1..][i..], wanted);
        assert text[i + 1..] == text[1..][i..];
      }
    }
  }

  /** The header of the CNI table that is added, by the schema version. */
  function AddedCni(texts: seq<string>): string {
    if (exists i :: 0 <= i < |texts| && IsWithin("io.containerd.cri.v1.runtime", texts[i]))
      || (exists i :: 0 <= i < |texts| && Trim(texts[i]) == "version = 3")
    then "[plugins.\"io.containerd.cri.v1.runtime\".cni]" else "[plugins.\"io.containerd.grpc.v1.cri\".cni]"
  }

  lemma HeaderText(texts: seq<string>)
    ensures Header(texts).text == AddedCni(texts)
  {
    hide Trim, Contains, IsWithin;
    forall i | 0 <= i < |texts|
      ensures Contains(texts[i], "io.containerd.cri.v1.runtime") <==> IsWithin("io.containerd.cri.v1.runtime", texts[i])
    {
      ContainsMeans(texts[i], "io.containerd.cri.v1.runtime");
    }
  }

  function Blank(texts: seq<string>): seq<string> { if texts != [] && texts[|texts| - 1] != "" then [""] else [] }

  lemma EndTexts(texts: seq<string>, s: Scan, header: Line)
    requires s.InCni? && !s.inTable && !s.met
    ensures Texts(CniEnd(s, Read(texts), header)) == Blank(texts) + [header.text, ConfLine(s.dirs).text, BinLine(s.dirs).text]
  {
    hide Classify;
    var blank := if texts != [] && texts[|texts| - 1] != "" then [BLANK] else [];
    assert CniEnd(s, Read(texts), header) == blank + [header, ConfLine(s.dirs), BinLine(s.dirs)];
  }

  lemma CniLinesAreAdded(texts: seq<string>, d: Dirs)
    requires !HasCni(Read(texts))
    ensures ConfigureTexts(texts, d) == texts + (Blank(texts) + [Header(texts).text, ConfLine(d).text, BinLine(d).text])
  {
    hide Classify, Header, HasCni, CniEnd, Blank;
    NothingInCni(Read(texts), d);
    ReadIsInverse(texts, []);
    var s, header := After(Start(d), Read(texts)), Header(texts);
    TextsOfSum(Read(texts), CniEnd(s, Read(texts), header));
    EndTexts(texts, s, header);
  }

  /** A file without a CNI table gets one at its end, after a blank line, with both directories. */
  lemma ACniTableIsAdded(texts: seq<string>, d: Dirs)
    requires !HasCni(Read(texts))
    ensures ConfigureTexts(texts, d)
         == texts + (Blank(texts) + [AddedCni(texts), "  conf_dir = " + d.conf, "  bin_dir = " + d.bin])
  {
    hide Classify, ConfigureTexts, HasCni, Header, AddedCni, Blank;
    CniLinesAreAdded(texts, d);
    HeaderText(texts);
  }
}
