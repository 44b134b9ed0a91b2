/** The two patches on the text of the configuration: they read it line by line, and what they
    wrote is read again by the next update. */
module ContainerdText {
  import opened ContainerdCni
  import opened ContainerdLines
  import opened ContainerdReading
  import opened Text
  import Hugetlb = ContainerdHugetlb

  // ---------------------------------------------------------------------- lines as texts

  function Read(texts: seq<string>): (lines: seq<Line>)
    ensures |lines| == |texts|
    ensures forall i :: 0 <= i < |texts| ==> lines[i] == Line(texts[i], Classify(texts[i]))
  {
    if texts == [] then []
    else Read(texts[..|texts| - 1]) + [Line(texts[|texts| - 1], Classify(texts[|texts| - 1]))]
  }

  function Texts(lines: seq<Line>): (texts: seq<string>)
    ensures |texts| == |lines|
    ensures forall i :: 0 <= i < |lines| ==> texts[i] == lines[i].text
  {
    if lines == [] then [] else Texts(lines[..|lines| - 1]) + [lines[|lines| - 1].text]
  }

  /** Texts that were read are themselves, and what is read back as written is itself. */
  lemma ReadIsInverse(texts: seq<string>, lines: seq<Line>)
    ensures Texts(Read(texts)) == texts && AreRead(Read(texts))
    ensures AreRead(lines) ==> Read(Texts(lines)) == lines
  {
    hide Classify;
  }

  predicate HasTrimmed(texts: seq<string>, wanted: string) { exists i :: 0 <= i < |texts| && Trim(texts[i]) == wanted }

  predicate Contains(text: string, wanted: string) {
    StartsWith(text, wanted) || (text != "" && Contains(text[1..], wanted))
  }

  predicate Mention(texts: seq<string>, wanted: string) { exists i :: 0 <= i < |texts| && Contains(texts[i], wanted) }

  /** The root table the hugetlb patch adds, by the schema version. */
  function Fallback(texts: seq<string>): Line {
    RootLine(if HasTrimmed(texts, "version = 2") then RUNTIME_QUOTED + "]" else GRPC + "]")
  }

  /** The CNI table the other patch adds. */
  function Header(texts: seq<string>): Line {
    var prefix :=
      if Mention(texts, "io.containerd.cri.v1.runtime") || HasTrimmed(texts, "version = 3") then RUNTIME else GRPC;
    Line(prefix + ".cni]", Table(Nested(prefix + "]"), true))
  }

  function LimitTexts(texts: seq<string>): seq<string> {
    Texts(Hugetlb.LimitHugetlb(Read(texts), Fallback(texts)))
  }

  function ConfigureTexts(texts: seq<string>, d: Dirs): seq<string> {
    Texts(Configure(Read(texts), d, Header(texts)))
  }

  /** Both patches in turn, as an update applies them. */
  function PatchTexts(texts: seq<string>, d: Dirs): seq<string> { ConfigureTexts(LimitTexts(texts), d) }

  lemma FallbackIsRead(texts: seq<string>)
    ensures IsRead(Fallback(texts)) && Fallback(texts).kind == Table(Root, false)
  {
    hide Classify, HasTrimmed;
    RootHeaderRead(RUNTIME_QUOTED);
    RootHeaderRead(GRPC);
  }

  lemma HeaderIsRead(texts: seq<string>)
    ensures IsRead(Header(texts)) && IsCniHeader(Header(texts))
  {
    hide Classify, HasTrimmed, Mention;
    CniHeaderRead(RUNTIME);
    CniHeaderRead(GRPC);
  }

  /** The texts the hugetlb patch writes are read again as the lines it meant. */
  lemma LimitReadsBack(texts: seq<string>)
    ensures Read(LimitTexts(texts)) == Hugetlb.LimitHugetlb(Read(texts), Fallback(texts))
    ensures AreRead(Read(texts))
  {
    hide Classify, Fallback;
    FallbackIsRead(texts);
    ReadIsInverse(texts, []);
    LimitIsRead(Read(texts), Fallback(texts));
    ReadIsInverse([], Hugetlb.LimitHugetlb(Read(texts), Fallback(texts)));
  }

  lemma ConfigureReadsBack(texts: seq<string>, d: Dirs)
    requires AreQuoted(d)
    ensures Read(ConfigureTexts(texts, d)) == Configure(Read(texts), d, Header(texts))
    ensures AreRead(Read(texts))
  {
    hide Classify, Header;
    HeaderIsRead(texts);
    ReadIsInverse(texts, []);
    ConfigureIsRead(Read(texts), d, Header(texts));
    ReadIsInverse([], Configure(Read(texts), d, Header(texts)));
  }

  /** Read again, the patched text is secured; and the patch changes exactly the texts that
      are not. */
  lemma LimitSecures(texts: seq<string>)
    ensures Hugetlb.IsSecured(Read(LimitTexts(texts)))
    ensures LimitTexts(texts) == texts <==> Hugetlb.IsSecured(Read(texts))
  {
    hide Classify, Fallback, Hugetlb.IsSecured, Hugetlb.LimitHugetlb;
    FallbackIsRead(texts);
    LimitReadsBack(texts);
    Hugetlb.HugetlbSecures(Read(texts), Fallback(texts));
    ReadIsInverse(texts, []);
  }

  /** A second run, which reads what the first one wrote, changes nothing. */
  lemma LimitIsIdempotent(texts: seq<string>)
    ensures LimitTexts(LimitTexts(texts)) == LimitTexts(texts)
  {
    hide *;
    LimitSecures(texts);
    LimitSecures(LimitTexts(texts));
  }

  /** Read again, the patched text is set up; and the patch changes exactly the texts that
      are not. */
  lemma ConfigureSetsUpTexts(texts: seq<string>, d: Dirs)
    requires AreQuoted(d)
    ensures IsSetUp(Read(ConfigureTexts(texts, d)), d)
    ensures ConfigureTexts(texts, d) == texts <==> IsSetUp(Read(texts), d)
  {
    hide Classify, Header, IsSetUp, Configure, AreQuoted;
    HeaderIsRead(texts);
    ConfigureReadsBack(texts, d);
    ConfigureSetsUp(Read(texts), d, Header(texts));
    ReadIsInverse(texts, []);
  }

  lemma ConfigureIsIdempotentOnTexts(texts: seq<string>, d: Dirs)
    requires AreQuoted(d)
    ensures ConfigureTexts(ConfigureTexts(texts, d), d) == ConfigureTexts(texts, d)
  {
    hide *;
    ConfigureSetsUpTexts(texts, d);
    ConfigureSetsUpTexts(ConfigureTexts(texts, d), d);
  }

  lemma ReadIsNested(texts: seq<string>)
    ensures AreNested(Read(texts))
  {
    hide Classify;
    forall i | 0 <= i < |texts| && Read(texts)[i].kind.Table? && Read(texts)[i].kind.cni
      ensures Read(texts)[i].kind.cri.Nested?
    {
      CniTablesAreNested(texts[i]);
    }
  }

  /** One update leaves both in order; the next one reads it and finds nothing to change. */
  lemma PatchIsIdempotentOnTexts(texts: seq<string>, d: Dirs)
    requires AreQuoted(d)
    ensures var patched := PatchTexts(texts, d);
      && LimitTexts(patched) == patched
      && PatchTexts(patched, d) == patched
      && Hugetlb.IsSecured(Read(patched)) && IsSetUp(Read(patched), d)
  {
    hide Classify, Fallback, Header, Hugetlb.IsSecured, IsSetUp, AreQuoted, Hugetlb.LimitHugetlb, Configure;
    var limited := LimitTexts(texts);
    var patched := ConfigureTexts(limited, d);
    LimitSecures(texts);
    ReadIsNested(limited);
    HeaderIsRead(limited);
    Hugetlb.LimitedMeans(Read(limited));
    ConfigureKeepsLimits(Read(limited), d, Header(limited));
    ConfigureReadsBack(limited, d);
    Hugetlb.LimitedMeans(Read(patched));
    LimitSecures(patched);
    ConfigureSetsUpTexts(limited, d);
    ConfigureIsIdempotentOnTexts(limited, d);
  }
}
