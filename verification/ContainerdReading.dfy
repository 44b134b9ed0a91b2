/** The lines the two patches write are read back as what they were written for, and every
    CNI table is nested in a CRI root table. */
module ContainerdReading {
  import opened ContainerdCni
  import opened ContainerdLines
  import Hugetlb = ContainerdHugetlb
  import opened Text
  import opened Wrappers

  predicate AreSpaces(s: string) { forall i :: 0 <= i < |s| ==> IsSpace(s[i]) }

  /** A text that is neither empty nor begins or ends with white space. */
  predicate IsTight(s: string) { s != "" && !IsSpace(s[0]) && !IsSpace(s[|s| - 1]) }

  lemma TrimIs(indent: string, s: string)
    requires AreSpaces(indent) && IsTight(s)
    ensures Trim(indent + s) == s
  {
    TrimStartIs(indent, s);
  }

  lemma TrimKey(key: string)
    requires IsTight(key)
    ensures Trim(key + " ") == key
  {
    TrimStartIs("", key + " ");
    assert "" + (key + " ") == key + " ";
    assert (key + " ")[..|key|] == key;
    assert TrimEnd(key) == key;
    assert TrimEnd(key + " ") == TrimEnd(key);
  }

  function Assignment(key: string, value: string): string { key + " = " + value }

  lemma AssignmentSplits(key: string, value: string)
    requires Lacks(key, '=')
    ensures SplitOnce(Assignment(key, value), '=') == Some((key + " ", " " + value))
  {
    SplitOnceAt(key + " ", '=', " " + value);
    assert Assignment(key, value) == (key + " ") + "=" + (" " + value);
  }

  lemma AssignmentIsTight(key: string, value: string)
    requires IsTight(key) && IsTight(value)
    ensures IsTight(Assignment(key, value)) && Assignment(key, value)[0] == key[0]
  {
    assert Assignment(key, value)[|Assignment(key, value)| - 1] == value[|value| - 1];
  }

  /** The key and the value of a written line. */
  lemma AssignmentRead(indent: string, key: string, value: string)
    requires AreSpaces(indent) && IsTight(key) && IsTight(value) && Lacks(key, '=')
    requires key[0] != '[' && key[0] != '#'
    ensures var c := Classify(indent + Assignment(key, value)); var isTrue := StartsWith(value, "true");
      && (key == "disable_hugetlb_controller" ==> c == Key(Hugetlb, isTrue))
      && (key == "conf_dir" ==> c == Key(ConfDir, isTrue))
      && (key == "bin_dir" ==> c == Key(BinDir, isTrue))
  {
    AssignmentIsTight(key, value);
    TrimIs(indent, Assignment(key, value));
    AssignmentSplits(key, value);
    TrimKey(key);
    TrimStartIs(" ", value);
  }

  const SETTING := "disable_hugetlb_controller"

  lemma SettingIsKey()
    ensures IsTight(SETTING) && Lacks(SETTING, '=') && SETTING[0] != '[' && SETTING[0] != '#'
  {
  }

  lemma SettingTexts()
    ensures TURNED_OFF.text == "" + Assignment(SETTING, "false") && OFF.text == "  " + Assignment(SETTING, "false")
  {
  }

  lemma SettingRead(indent: string, key: string, value: string)
    requires AreSpaces(indent) && key == SETTING && value == "false"
    ensures Classify(indent + Assignment(key, value)) == Key(Hugetlb, false)
  {
    SettingIsKey();
    AssignmentRead(indent, key, value);
    assert value[0] != 't';
  }

  lemma SettingsRead()
    ensures Classify(OFF.text) == OFF.kind && Classify(TURNED_OFF.text) == TURNED_OFF.kind
  {
    hide Classify, Assignment;
    SettingTexts();
    SettingRead("", SETTING, "false");
    SettingRead("  ", SETTING, "false");
  }

  /** A path as it is written: quoted. */
  predicate IsQuoted(value: string) { |value| >= 2 && value[0] == '"' && value[|value| - 1] == '"' }

  lemma DirectoryRead(indent: string, key: string, value: string)
    requires AreSpaces(indent) && IsQuoted(value) && (key == "conf_dir" || key == "bin_dir")
    ensures Classify(indent + (key + " = " + value)) == Key(if key == "conf_dir" then ConfDir else BinDir, false)
  {
    AssignmentRead(indent, key, value);
  }

  lemma ConfLineRead(d: Dirs)
    requires IsQuoted(d.conf)
    ensures Classify(ConfLine(d).text) == ConfLine(d).kind
  {
    DirectoryRead("  ", "conf_dir", d.conf);
    assert ConfLine(d).text == "  " + ("conf_dir" + " = " + d.conf);
  }

  lemma BinLineRead(d: Dirs)
    requires IsQuoted(d.bin)
    ensures Classify(BinLine(d).text) == BinLine(d).kind
  {
    DirectoryRead("  ", "bin_dir", d.bin);
    assert BinLine(d).text == "  " + ("bin_dir" + " = " + d.bin);
  }

  lemma RewrittenLinesRead(l: Line, d: Dirs)
    requires IsDir(l) && IsQuoted(d.conf) && IsQuoted(d.bin)
    ensures Classify(Rewritten(l, d).text) == Rewritten(l, d).kind
  {
    IndentIsSpace(l.text);
    if l.kind.name.ConfDir? {
      DirectoryRead(Indent(l.text), "conf_dir", d.conf);
      assert Rewritten(l, d).text == Indent(l.text) + ("conf_dir" + " = " + d.conf);
    } else {
      DirectoryRead(Indent(l.text), "bin_dir", d.bin);
      assert Rewritten(l, d).text == Indent(l.text) + ("bin_dir" + " = " + d.bin);
    }
  }

  // ------------------------------------------------------------------------- headers

  predicate IsRootPrefix(prefix: string) {
    prefix == GRPC || prefix == GRPC_QUOTED || prefix == RUNTIME || prefix == RUNTIME_QUOTED
  }

  lemma UnderItself(prefix: string, rest: string)
    ensures IsUnder(prefix + "." + rest, prefix) && IsUnder(prefix + "]", prefix)
  {
    assert (prefix + "." + rest)[..|prefix + "."|] == prefix + ".";
  }

  lemma Apart(header: string, p: string, q: string, i: nat)
    requires i < |p| && i < |q| && p[i] != q[i] && |header| > i && header[i] == p[i]
    ensures !IsUnder(header, q)
  {
    assert (q + "]")[i] == q[i] && (q + ".")[i] == q[i];
  }

  /** A header under one root prefix is under no other. */
  lemma RootIs(header: string, prefix: string)
    requires IsRootPrefix(prefix) && IsUnder(header, prefix)
    ensures CriRuntimeRoot(header) == Some(prefix + "]")
  {
    assert (prefix + "]")[9] == prefix[9] && (prefix + ".")[9] == prefix[9] && header[9] == prefix[9];
    assert (prefix + "]")[24] == prefix[24] && (prefix + ".")[24] == prefix[24] && header[24] == prefix[24];
    assert GRPC[9] == '"' && RUNTIME[9] == '"' && GRPC_QUOTED[9] == '\'' && RUNTIME_QUOTED[9] == '\'';
    assert GRPC[24] == GRPC_QUOTED[24] == 'g' && RUNTIME[24] == RUNTIME_QUOTED[24] == 'c';
    forall q | IsRootPrefix(q) && q != prefix ensures !IsUnder(header, q) {
      Apart(header, prefix, q, if prefix[9] != q[9] then 9 else 24);
    }
  }

  /** The root headers the hugetlb patch adds are read as root tables. */
  lemma RootHeaderRead(prefix: string)
    requires IsRootPrefix(prefix)
    ensures Classify(RootLine(prefix + "]").text) == Table(Root, false)
  {
    var root := prefix + "]";
    UnderItself(prefix, "");
    RootIs(root, prefix);
    NotCni(prefix);
    assert root[0] == '[' && root[|root| - 1] == ']';
    HeaderTrims(root);
  }

  lemma HeaderTrims(header: string)
    requires |header| >= 2 && header[0] == '[' && header[|header| - 1] == ']'
    ensures Trim(header) == header && StartsWith(header, "[")
  {
    assert "" + header == header;
    TrimIs("", header);
    assert header[..1] == "[";
  }

  /** The header the CNI patch adds is read as a CNI table in that root. */
  lemma CniHeaderRead(prefix: string)
    requires IsRootPrefix(prefix)
    ensures Classify(prefix + ".cni]") == Table(Nested(prefix + "]"), true)
  {
    var cni := prefix + ".cni]";
    assert cni == prefix + "." + "cni]";
    UnderItself(prefix, "cni]");
    RootIs(cni, prefix);
    assert cni[0] == '[' && cni[|cni| - 1] == ']';
    HeaderTrims(cni);
    assert |prefix + "]"| < |cni|;
  }

  lemma NotCni(prefix: string)
    requires IsRootPrefix(prefix)
    ensures !IsCniTable(prefix + "]")
  {
    var root := prefix + "]";
    assert root[|root| - 2] == prefix[|prefix| - 1];
    assert prefix[|prefix| - 1] == '"' || prefix[|prefix| - 1] == '\'';
    forall q | IsRootPrefix(q) ensures root != q + ".cni]" {
      assert (q + ".cni]")[|q| + 3] == 'i' && |q + ".cni]"| == |q| + 5;
    }
  }

  /** Every CNI table is nested in a CRI root table. */
  lemma CniTablesAreNested(text: string)
    ensures Classify(text).Table? && Classify(text).cni ==> Classify(text).cri.Nested?
  {
    var header := Trim(text);
    if IsCniTable(header) {
      var prefix :| IsRootPrefix(prefix) && header == prefix + ".cni]";
      assert header == prefix + "." + "cni]";
      UnderItself(prefix, "cni]");
      RootIs(header, prefix);
      assert |prefix + "]"| < |header|;
    }
  }

  // ----------------------------------------------------------- what the patches write

  /** The line is what its text says. */
  predicate IsRead(l: Line) { Classify(l.text) == l.kind }

  predicate AreRead(lines: seq<Line>) { forall i :: 0 <= i < |lines| ==> IsRead(lines[i]) }

  lemma ReadSum(a: seq<Line>, b: seq<Line>)
    requires AreRead(a) && AreRead(b)
    ensures AreRead(a + b)
  {
  }

  /** A nested table read from a text names one of the four roots. */
  lemma NestedRoot(text: string) returns (prefix: string)
    requires Classify(text).Table? && Classify(text).cri.Nested?
    ensures IsRootPrefix(prefix) && Classify(text).cri.root == prefix + "]"
  {
    var root := Classify(text).cri.root;
    prefix := if root == GRPC + "]" then GRPC else if root == GRPC_QUOTED + "]" then GRPC_QUOTED
              else if root == RUNTIME + "]" then RUNTIME else RUNTIME_QUOTED;
  }

  lemma ParentIsRead(s: Scan, l: Line)
    requires s.InHugetlb? && IsRead(l)
    ensures AreRead(Parent(s, l))
  {
    hide Classify;
    if Parent(s, l) != [] {
      var prefix := NestedRoot(l.text);
      RootHeaderRead(prefix);
      SettingsRead();
    }
  }

  lemma HugetlbOutIsRead(s: Scan, l: Line)
    requires s.InHugetlb? && IsRead(l)
    ensures AreRead(HugetlbOut(s, l))
  {
    hide Classify;
    SettingsRead();
    if l.kind.Table? {
      ParentIsRead(s, l);
      ReadSum(MissingSetting(s), Parent(s, l));
      ReadSum(MissingSetting(s) + Parent(s, l), [l]);
    }
  }

  /** A directory as it is written: both are quoted. */
  predicate AreQuoted(d: Dirs) { IsQuoted(d.conf) && IsQuoted(d.bin) }

  lemma CniOutIsRead(s: Scan, l: Line)
    requires s.InCni? && AreQuoted(s.dirs) && IsRead(l)
    ensures AreRead(CniOut(s, l))
  {
    hide Classify;
    if l.kind.Table? {
      MissingDirsAreRead(s);
      ReadSum(MissingDirs(s), [l]);
    } else if s.inTable && IsDir(l) {
      RewrittenLinesRead(l, s.dirs);
    }
  }

  lemma MissingDirsAreRead(s: Scan)
    requires s.InCni? && AreQuoted(s.dirs)
    ensures AreRead(MissingDirs(s))
  {
    hide Classify;
    ConfLineRead(s.dirs);
    BinLineRead(s.dirs);
  }

  /** The output of either patch is read back as it was written. */
  lemma {:induction false} BodyIsRead(s: Scan, lines: seq<Line>)
    requires AreRead(lines) && (s.InCni? ==> AreQuoted(s.dirs))
    ensures AreRead(Body(s, lines))
  {
    hide Classify;
    if lines == [] {
    } else {
      var front, l := lines[..|lines| - 1], lines[|lines| - 1];
      BodyIsRead(s, front);
      if s.InHugetlb? {
        HugetlbOutIsRead(After(s, front), l);
      } else {
        CniOutIsRead(After(s, front), l);
      }
      ReadSum(Body(s, front), Out(After(s, front), l));
    }
  }

  lemma LimitIsRead(lines: seq<Line>, fallback: Line)
    requires AreRead(lines) && IsRead(fallback) && fallback.kind == Table(Root, false)
    ensures AreRead(Hugetlb.LimitHugetlb(lines, fallback))
  {
    hide Classify;
    BodyIsRead(Hugetlb.START, lines);
    SettingsRead();
    ReadSum(Body(Hugetlb.START, lines), Hugetlb.HugetlbEnd(After(Hugetlb.START, lines), fallback));
  }

  lemma EndIsRead(s: Scan, body: seq<Line>, header: Line)
    requires s.InCni? && AreQuoted(s.dirs) && IsRead(header)
    ensures AreRead(CniEnd(s, body, header))
  {
    hide Classify;
    MissingDirsAreRead(s);
    ConfLineRead(s.dirs);
    BinLineRead(s.dirs);
    BlankRead();
  }

  lemma BlankRead()
    ensures IsRead(BLANK)
  {
    assert Trim("") == "";
  }

  lemma ConfigureIsRead(lines: seq<Line>, d: Dirs, header: Line)
    requires AreRead(lines) && AreQuoted(d) && IsRead(header)
    ensures AreRead(Configure(lines, d, header))
  {
    hide Classify;
    var s, body := After(Start(d), lines), Body(Start(d), lines);
    BodyIsRead(Start(d), lines);
    EndIsRead(s, body, header);
    ReadSum(body, CniEnd(s, body, header));
  }
}
