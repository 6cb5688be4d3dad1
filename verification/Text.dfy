/** Text normalisation: one kind of line end, and no blanks at the end of a line or of the text. */
module Text {
  const SPACES := {9, 10, 11, 12, 13, 32, 0x85, 0xA0, 0x1680, 0x2000, 0x2001, 0x2002, 0x2003, 0x2004, 0x2005,
                   0x2006, 0x2007, 0x2008, 0x2009, 0x200A, 0x2028, 0x2029, 0x202F, 0x205F, 0x3000}

  predicate IsSpace(c: char) {
    c as int in SPACES
  }

  /** Both CR LF and CR become LF. */
  function UnixNewlines(s: string): string {
    if s == [] then []
    else if s[0] == '\r' then ['\n'] + UnixNewlines(if |s| > 1 && s[1] == '\n' then s[2..] else s[1..])
    else [s[0]] + UnixNewlines(s[1..])
  }

  function TrimEnd(s: string): (r: string)
    ensures r <= s
  {
    if s != [] && IsSpace(s[|s| - 1]) then TrimEnd(s[..|s| - 1]) else s
  }

  function TrimStart(s: string): string {
    if s != [] && IsSpace(s[0]) then TrimStart(s[1..]) else s
  }

  function Trim(s: string): string {
    TrimStart(TrimEnd(s))
  }

  /** The first line end at or after i. */
  function LineEnd(s: string, i: nat): (n: nat)
    requires i <= |s|
    ensures i <= n <= |s| && (n < |s| ==> s[n] == '\n')
    ensures forall k :: i <= k < n ==> s[k] != '\n'
    decreases |s| - i
  {
    if i == |s| || s[i] == '\n' then i else LineEnd(s, i + 1)
  }

  function TrimLines(s: string): string
    decreases |s|
  {
    var n := LineEnd(s, 0);
    TrimEnd(s[..n]) + if n < |s| then ['\n'] + TrimLines(s[n + 1..]) else []
  }

  function NormalizeText(s: string): string {
    TrimEnd(TrimLines(UnixNewlines(s)))
  }

  // ---------- Normal texts ----------

  predicate LinesTrimmed(s: string) {
    forall i :: 0 < i < |s| && s[i] == '\n' ==> !IsSpace(s[i - 1]) || s[i - 1] == '\n'
  }

  predicate Trimmed(s: string) {
    s != [] ==> !IsSpace(s[|s| - 1])
  }

  /** One kind of line end, no blank before one, none at the end. */
  predicate Normal(s: string) {
    '\r' !in s && LinesTrimmed(s) && Trimmed(s)
  }

  lemma {:induction false} NoReturns(s: string)
    ensures '\r' !in UnixNewlines(s)
    decreases |s|
  {
    if s != [] {
      NoReturns(if s[0] == '\r' && |s| > 1 && s[1] == '\n' then s[2..] else s[1..]);
    }
  }

  lemma {:induction false} UnixIsFixed(s: string)
    requires '\r' !in s
    ensures UnixNewlines(s) == s
  {
    if s != [] {
      UnixIsFixed(s[1..]);
    }
  }

  lemma {:induction false} TrimEndTrims(s: string)
    ensures Trimmed(TrimEnd(s))
  {
    if s != [] && IsSpace(s[|s| - 1]) {
      TrimEndTrims(s[..|s| - 1]);
    }
  }

  lemma TrimmedLine(s: string, n: nat)
    requires n <= |s| && '\r' !in s && forall k :: 0 <= k < n ==> s[k] != '\n'
    ensures Trimmed(TrimEnd(s[..n])) && '\n' !in TrimEnd(s[..n]) && '\r' !in TrimEnd(s[..n])
  {
    TrimEndTrims(s[..n]);
    assert forall c :: c in TrimEnd(s[..n]) ==> c in s[..n];
  }

  /** Each line comes out trimmed, and no character is added. */
  lemma {:induction false} TrimLinesTrims(s: string)
    requires '\r' !in s
    ensures LinesTrimmed(TrimLines(s)) && '\r' !in TrimLines(s)
    decreases |s|
  {
    var n := LineEnd(s, 0);
    TrimmedLine(s, n);
    if n < |s| {
      TrimLinesTrims(s[n + 1..]);
      JoinKeepsTrimmed(TrimEnd(s[..n]), TrimLines(s[n + 1..]));
    } else {
      LineKeepsTrimmed(TrimEnd(s[..n]));
    }
  }

  lemma LineKeepsTrimmed(line: string)
    requires '\n' !in line
    ensures LinesTrimmed(line + [])
  {
    assert line + [] == line;
  }

  lemma JoinKeepsTrimmed(line: string, rest: string)
    requires '\n' !in line && Trimmed(line) && LinesTrimmed(rest)
    ensures LinesTrimmed(line + (['\n'] + rest))
  {
    var r := line + (['\n'] + rest);
    assert forall k :: 0 <= k < |line| ==> r[k] == line[k];
    forall i | 0 < i < |r| && r[i] == '\n' ensures !IsSpace(r[i - 1]) || r[i - 1] == '\n' {
      if i > |line| + 1 {
        assert r[i] == rest[i - |line| - 1] && r[i - 1] == rest[i - 1 - |line| - 1];
      }
    }
  }

  lemma PrefixKeepsTrimmed(s: string, t: string)
    requires s <= t && LinesTrimmed(t) && '\r' !in t
    ensures LinesTrimmed(s) && '\r' !in s
  {
    assert forall i :: 0 <= i < |s| ==> s[i] == t[i];
  }

  /** Normalising gives a normal text. */
  lemma NormalizeIsNormal(s: string)
    ensures Normal(NormalizeText(s))
  {
    NoReturns(s);
    var unix := UnixNewlines(s);
    TrimLinesTrims(unix);
    PrefixKeepsTrimmed(TrimEnd(TrimLines(unix)), TrimLines(unix));
    TrimEndTrims(TrimLines(unix));
  }

  lemma FirstLineIsFixed(s: string, n: nat)
    requires LinesTrimmed(s) && Trimmed(s) && n == LineEnd(s, 0)
    ensures TrimEnd(s[..n]) == s[..n]
  {
    if 0 < n < |s| {
      assert !IsSpace(s[n - 1]);
    }
  }

  lemma RestIsTrimmed(s: string, n: nat)
    requires LinesTrimmed(s) && Trimmed(s) && n < |s|
    ensures LinesTrimmed(s[n + 1..]) && Trimmed(s[n + 1..])
  {
    var rest := s[n + 1..];
    assert forall i :: 0 <= i < |rest| ==> rest[i] == s[i + n + 1];
  }

  lemma {:induction false} TrimmedLinesAreFixed(s: string)
    requires LinesTrimmed(s) && Trimmed(s)
    ensures TrimLines(s) == s
    decreases |s|
  {
    var n := LineEnd(s, 0);
    FirstLineIsFixed(s, n);
    if n < |s| {
      RestIsTrimmed(s, n);
      TrimmedLinesAreFixed(s[n + 1..]);
      Glue(s, n);
    } else {
      assert s[..n] + [] == s;
    }
  }

  lemma Glue(s: string, n: nat)
    requires n < |s| && s[n] == '\n'
    ensures s[..n] + (['\n'] + s[n + 1..]) == s
  {
  }

  /** A text is normal exactly when normalising leaves it as it is. */
  lemma NormalIffFixed(s: string)
    ensures Normal(s) <==> NormalizeText(s) == s
  {
    if Normal(s) {
      UnixIsFixed(s);
      TrimmedLinesAreFixed(s);
    }
    NormalizeIsNormal(s);
  }

  /** Two normal texts on separate lines make a normal text. */
  lemma JoinIsNormal(a: string, b: string)
    requires Normal(a) && Normal(b) && a != [] && b != []
    ensures Normal(a + "\n" + b)
  {
    var r := a + "\n" + b;
    forall i | 0 < i < |r| && r[i] == '\n' ensures !IsSpace(r[i - 1]) || r[i - 1] == '\n' {
      if i > |a| {
        assert r[i] == b[i - |a| - 1];
        assert i > |a| + 1 ==> r[i - 1] == b[i - |a| - 2];
      } else {
        assert r[i - 1] == a[i - 1];
        assert i < |a| ==> r[i] == a[i];
      }
    }
    assert r[|r| - 1] == b[|b| - 1];
  }
}
