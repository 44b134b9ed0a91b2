/** The text operations the parsers and printers here share: decimal numbers, and
    splitting and joining at a separator. */
module Text {

  import opened Wrappers

  predicate IsDigit(c: char) { '0' <= c <= '9' }

  function DigitValue(c: char): nat
    requires IsDigit(c)
  {
    c as int - '0' as int
  }

  function Digit(d: nat): (c: char)
    requires d < 10
    ensures IsDigit(c) && DigitValue(c) == d
  {
    ('0' as int + d) as char
  }

  predicate AllDigits(s: string) { forall i :: 0 <= i < |s| ==> IsDigit(s[i]) }

  function Value(s: string): nat
    requires AllDigits(s)
  {
    if s == "" then 0
    else 10 * Value(s[..|s| - 1]) + DigitValue(s[|s| - 1])
  }

  /** The decimal text of a number, without leading zeros. */
  function Render(n: nat): (s: string)
    ensures s != "" && AllDigits(s)
  {
    if n < 10 then [Digit(n)] else Render(n / 10) + [Digit(n % 10)]
  }

  lemma {:induction false} ValueOfRender(n: nat)
    ensures Value(Render(n)) == n
  {
    if n >= 10 {
      ValueOfRender(n / 10);
      assert Render(n)[..|Render(n)| - 1] == Render(n / 10);
    } else {
      assert Render(n)[..0] == "";
    }
  }

  /** The characters Unicode calls white space. */
  predicate IsSpace(c: char) {
    || '\t' <= c <= '\r' || c == ' ' || c == '\U{85}' || c == '\U{A0}' || c == '\U{1680}'
    || '\U{2000}' <= c <= '\U{200A}' || c == '\U{2028}' || c == '\U{2029}' || c == '\U{202F}'
    || c == '\U{205F}' || c == '\U{3000}'
  }

  /** They are twenty-five. */
  lemma SpacesAre(c: char)
    ensures IsSpace(c) <==> c in {
      '\U{9}', '\U{A}', '\U{B}', '\U{C}', '\U{D}', '\U{20}', '\U{85}', '\U{A0}', '\U{1680}',
      '\U{2000}', '\U{2001}', '\U{2002}', '\U{2003}', '\U{2004}', '\U{2005}', '\U{2006}', '\U{2007}', '\U{2008}',
      '\U{2009}', '\U{200A}', '\U{2028}', '\U{2029}', '\U{202F}', '\U{205F}', '\U{3000}'}
  {
  }

  predicate StartsWith(s: string, prefix: string) { prefix <= s }

  lemma StartsWithMeans(s: string, prefix: string)
    ensures StartsWith(s, prefix) <==> exists rest :: s == prefix + rest
  {
    if StartsWith(s, prefix) {
      assert s == prefix + s[|prefix|..];
    }
  }

  predicate Lacks(s: string, c: char) { forall i :: 0 <= i < |s| ==> s[i] != c }

  /** The text before the first separator and the text after it. */
  function SplitOnce(s: string, sep: char): Option<(string, string)> {
    if s == "" then None
    else if s[0] == sep then Some(("", s[1..]))
    else
      match SplitOnce(s[1..], sep)
      case None => None
      case Some((a, b)) => Some(([s[0]] + a, b))
  }

  /** All the pieces between separators; always at least one. */
  function Split(s: string, sep: char): (parts: seq<string>)
    ensures |parts| >= 1
    decreases |s|
  {
    match SplitOnce(s, sep)
    case None => [s]
    case Some((a, b)) => SplitOnceShrinks(s, sep); [a] + Split(b, sep)
  }

  lemma {:induction false} SplitOnceShrinks(s: string, sep: char)
    ensures SplitOnce(s, sep).Some? ==> |SplitOnce(s, sep).value.1| < |s|
  {
    if s == "" || s[0] == sep {
    } else {
      SplitOnceShrinks(s[1..], sep);
    }
  }

  function Join(parts: seq<string>, sep: char): string {
    if parts == [] then ""
    else if |parts| == 1 then parts[0]
    else parts[0] + [sep] + Join(parts[1..], sep)
  }

  lemma {:induction false} SplitOnceAt(a: string, sep: char, b: string)
    requires Lacks(a, sep)
    ensures SplitOnce(a + [sep] + b, sep) == Some((a, b))
  {
    var s := a + [sep] + b;
    if a == "" {
      assert s[1..] == b;
    } else {
      assert s[1..] == a[1..] + [sep] + b;
      SplitOnceAt(a[1..], sep, b);
      assert [a[0]] + a[1..] == a;
    }
  }

  lemma {:induction false} SplitOnceNone(s: string, sep: char)
    ensures SplitOnce(s, sep).None? <==> Lacks(s, sep)
  {
    if s == "" || s[0] == sep {
    } else {
      SplitOnceNone(s[1..], sep);
      assert forall i :: 0 < i < |s| ==> s[i] == s[1..][i - 1];
      if Lacks(s[1..], sep) {
        assert Lacks(s, sep);
      }
      if Lacks(s, sep) {
        assert Lacks(s[1..], sep);
      }
    }
  }

  /** Splitting is the inverse of joining pieces that do not contain the separator. */
  lemma {:induction false} SplitOfJoin(parts: seq<string>, sep: char)
    requires parts != [] && forall i :: 0 <= i < |parts| ==> Lacks(parts[i], sep)
    ensures Split(Join(parts, sep), sep) == parts
  {
    if |parts| == 1 {
      SplitOnceNone(parts[0], sep);
    } else {
      SplitOnceAt(parts[0], sep, Join(parts[1..], sep));
      SplitOfJoin(parts[1..], sep);
    }
  }

  lemma {:induction false} SplitOnceIs(s: string, sep: char)
    requires SplitOnce(s, sep).Some?
    ensures var (a, b) := SplitOnce(s, sep).value; s == a + [sep] + b && Lacks(a, sep)
  {
    if s[0] == sep {
      assert s == "" + [sep] + s[1..];
    } else {
      SplitOnceIs(s[1..], sep);
      var (a, b) := SplitOnce(s[1..], sep).value;
      assert s == [s[0]] + s[1..] == ([s[0]] + a) + [sep] + b;
    }
  }

  /** Joining the pieces of a split text gives the text back. */
  lemma {:induction false} JoinOfSplit(s: string, sep: char)
    ensures Join(Split(s, sep), sep) == s
    decreases |s|
  {
    match SplitOnce(s, sep)
    case None =>
    case Some((a, b)) =>
      SplitOnceIs(s, sep);
      SplitOnceShrinks(s, sep);
      JoinOfSplit(b, sep);
      assert Split(s, sep)[1..] == Split(b, sep);
  }
}
