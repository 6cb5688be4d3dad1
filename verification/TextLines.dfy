/** What normalising a text keeps: every character that is not blank, and every line but trailing blank ones. */
module TextLines {
  import opened Text

  /** The blanks are the characters with Unicode's White_Space property. */
  lemma BlanksAre(c: char)
    ensures var u := c as int;
      IsSpace(c) <==>
        (9 <= u <= 13 || u == 32 || u == 0x85 || u == 0xA0 || u == 0x1680 || 0x2000 <= u <= 0x200A ||
         0x2028 <= u <= 0x2029 || u == 0x202F || u == 0x205F || u == 0x3000)
  {
  }

  // ---------- Characters ----------

  /** The characters that are not blank, in order. */
  function NonBlank(s: string): string {
    if s == [] then [] else (if IsSpace(s[0]) then [] else [s[0]]) + NonBlank(s[1..])
  }

  lemma {:induction false} NonBlankConcat(a: string, b: string)
    ensures NonBlank(a + b) == NonBlank(a) + NonBlank(b)
    decreases |a|
  {
    if a == [] {
      assert a + b == b;
    } else {
      assert (a + b)[1..] == a[1..] + b;
      NonBlankConcat(a[1..], b);
    }
  }

  predicate Blank(s: string) {
    forall i :: 0 <= i < |s| ==> IsSpace(s[i])
  }

  lemma {:induction false} UnixKeepsCharacters(s: string)
    ensures NonBlank(UnixNewlines(s)) == NonBlank(s)
    decreases |s|
  {
    if s != [] {
      if s[0] == '\r' && |s| > 1 && s[1] == '\n' {
        UnixKeepsCharacters(s[2..]);
        assert s[1..][1..] == s[2..];
      } else {
        UnixKeepsCharacters(s[1..]);
      }
      assert UnixNewlines(s)[1..] == UnixNewlines(if s[0] == '\r' && |s| > 1 && s[1] == '\n' then s[2..] else s[1..]);
    }
  }

  lemma {:induction false} TrimEndKeepsCharacters(s: string)
    ensures NonBlank(TrimEnd(s)) == NonBlank(s)
    ensures TrimEnd(s) <= s && Blank(s[|TrimEnd(s)|..])
  {
    if s != [] && IsSpace(s[|s| - 1]) {
      var n := |s| - 1;
      TrimEndKeepsCharacters(s[..n]);
      NonBlankConcat(s[..n], [s[n]]);
      assert s[..n] + [s[n]] == s;
      assert NonBlank([s[n]]) == [];
    }
  }

  lemma FirstLineCharacters(s: string, n: nat, rest: string, trimmed: string)
    requires n == LineEnd(s, 0) < |s| && rest == s[n + 1..] && trimmed == TrimLines(rest)
    ensures NonBlank(s) == NonBlank(s[..n]) + NonBlank(rest)
    ensures NonBlank(TrimLines(s)) == NonBlank(TrimEnd(s[..n])) + NonBlank(trimmed)
  {
    NonBlankAround(s[..n], '\n', rest);
    NonBlankAround(TrimEnd(s[..n]), '\n', trimmed);
    assert s[..n] + (['\n'] + rest) == s;
  }

  lemma {:induction false} TrimLinesKeepsCharacters(s: string)
    ensures NonBlank(TrimLines(s)) == NonBlank(s)
    decreases |s|
  {
    var n := LineEnd(s, 0);
    TrimEndKeepsCharacters(s[..n]);
    if n < |s| {
      var rest := s[n + 1..];
      TrimLinesKeepsCharacters(rest);
      FirstLineCharacters(s, n, rest, TrimLines(rest));
    } else {
      assert s[..n] == s && TrimEnd(s) + [] == TrimEnd(s);
    }
  }

  lemma NonBlankAround(a: string, blank: char, b: string)
    requires IsSpace(blank)
    ensures NonBlank(a + ([blank] + b)) == NonBlank(a) + NonBlank(b)
  {
    NonBlankConcat(a, [blank] + b);
    assert ([blank] + b)[1..] == b;
  }

  /** Normalising keeps every character that is not blank, in order. */
  lemma CharactersAreKept(s: string)
    ensures NonBlank(NormalizeText(s)) == NonBlank(s)
  {
    UnixKeepsCharacters(s);
    TrimLinesKeepsCharacters(UnixNewlines(s));
    TrimEndKeepsCharacters(TrimLines(UnixNewlines(s)));
  }

  // ---------- Lines ----------

  /** A character in front of the first line. */
  function Cons(c: char, lines: seq<string>): (r: seq<string>)
    requires lines != []
    ensures |r| == |lines|
  {
    [[c] + lines[0]] + lines[1..]
  }

  /** The lines of a text: LF, CR LF and CR each end one, and the last one may be empty. */
  function Lines(s: string): (r: seq<string>)
    ensures r != []
    decreases |s|
  {
    if s == [] then [[]]
    else if s[0] == '\r' && |s| > 1 && s[1] == '\n' then [[]] + Lines(s[2..])
    else if s[0] == '\r' || s[0] == '\n' then [[]] + Lines(s[1..])
    else Cons(s[0], Lines(s[1..]))
  }

  lemma LinesOfCons(c: char, s: string)
    requires c != '\r'
    ensures Lines([c] + s) == if c == '\n' then [[]] + Lines(s) else Cons(c, Lines(s))
  {
    assert ([c] + s)[1..] == s;
  }

  lemma {:induction false} UnixKeepsLines(s: string)
    ensures Lines(UnixNewlines(s)) == Lines(s)
    decreases |s|
  {
    if s != [] {
      var rest := if s[0] == '\r' && |s| > 1 && s[1] == '\n' then s[2..] else s[1..];
      UnixKeepsLines(rest);
      LinesOfCons(if s[0] == '\r' then '\n' else s[0], UnixNewlines(rest));
    }
  }

  predicate OneLine(s: string) {
    '\n' !in s && '\r' !in s
  }

  /** A line in front of a text. */
  lemma {:induction false} LinesOfLine(line: string, s: string)
    requires OneLine(line)
    ensures Lines(line + (['\n'] + s)) == [line] + Lines(s)
    decreases |line|
  {
    if line == [] {
      assert line + (['\n'] + s) == ['\n'] + s;
      LinesOfCons('\n', s);
    } else {
      assert line + (['\n'] + s) == [line[0]] + (line[1..] + (['\n'] + s));
      LinesOfLine(line[1..], s);
      LinesOfCons(line[0], line[1..] + (['\n'] + s));
      assert [line[0]] + line[1..] == line;
    }
  }

  lemma {:induction false} LinesOfOne(line: string)
    requires OneLine(line)
    ensures Lines(line) == [line]
  {
    if line != [] {
      LinesOfOne(line[1..]);
      assert [line[0]] + line[1..] == line;
    }
  }

  /** What is cut from a line is blank, and a line that is missing is blank. */
  ghost predicate Kept(lines: seq<string>, less: seq<string>) {
    && |less| <= |lines|
    && (forall k :: 0 <= k < |less| ==> less[k] <= lines[k] && Blank(lines[k][|less[k]|..]))
    && (forall k :: |less| <= k < |lines| ==> Blank(lines[k]))
  }

  lemma BlankPrefix(line: string, middle: string, short: string)
    requires middle <= line && Blank(line[|middle|..]) && short <= middle && Blank(middle[|short|..])
    ensures short <= line && Blank(line[|short|..])
  {
    forall i | 0 <= i < |line| - |short|
      ensures IsSpace(line[|short|..][i])
    {
      if i + |short| < |middle| {
        assert line[|short|..][i] == middle[|short|..][i];
      } else {
        assert line[|short|..][i] == line[|middle|..][i + |short| - |middle|];
      }
    }
  }

  lemma BlankWhole(line: string, middle: string)
    requires middle <= line && Blank(line[|middle|..]) && Blank(middle)
    ensures Blank(line)
  {
    assert Blank(middle[0..]);
    BlankPrefix(line, middle, []);
    assert line[0..] == line;
  }

  lemma KeptTwice(a: seq<string>, b: seq<string>, c: seq<string>)
    requires Kept(a, b) && Kept(b, c)
    ensures Kept(a, c)
  {
    forall k | 0 <= k < |c|
      ensures c[k] <= a[k] && Blank(a[k][|c[k]|..])
    {
      BlankPrefix(a[k], b[k], c[k]);
    }
    forall k | |c| <= k < |b|
      ensures Blank(a[k])
    {
      BlankWhole(a[k], b[k]);
    }
  }

  lemma KeptBehind(line: string, short: string, a: seq<string>, b: seq<string>)
    requires short <= line && Blank(line[|short|..]) && Kept(a, b)
    ensures Kept([line] + a, [short] + b)
  {
  }

  /** A text without CR is its first line, or that and a rest behind its line end. */
  lemma FirstLine(s: string, n: nat, line: string, rest: string)
    requires '\r' !in s && n == LineEnd(s, 0) && line == s[..n] && rest == if n < |s| then s[n + 1..] else []
    ensures OneLine(line) && '\r' !in rest
    ensures Lines(s) == if n < |s| then [line] + Lines(rest) else [line]
    ensures s == if n < |s| then line + (['\n'] + rest) else line
  {
    if n < |s| {
      assert s == line + (['\n'] + rest);
      LinesOfLine(line, rest);
    } else {
      assert s == line;
      LinesOfOne(line);
    }
  }

  lemma TrimLinesUnfolds(s: string, n: nat, short: string, rest: string)
    requires n == LineEnd(s, 0) && short == TrimEnd(s[..n])
    requires rest == if n < |s| then TrimLines(s[n + 1..]) else []
    ensures TrimLines(s) == if n < |s| then short + (['\n'] + rest) else short
  {
    assert short + [] == short;
  }

  lemma TrimmedFirstLine(more: bool, short: string, rest: string, whole: string)
    requires OneLine(short) && whole == if more then short + (['\n'] + rest) else short
    ensures Lines(whole) == if more then [short] + Lines(rest) else [short]
  {
    if more {
      LinesOfLine(short, rest);
    } else {
      LinesOfOne(short);
    }
  }

  lemma {:induction false} TrimLinesKeepsLines(s: string)
    requires '\r' !in s
    ensures Kept(Lines(s), Lines(TrimLines(s)))
    decreases |s|
  {
    var n := LineEnd(s, 0);
    var line, rest := s[..n], if n < |s| then s[n + 1..] else [];
    var short, trimmed := TrimEnd(line), if n < |s| then TrimLines(rest) else [];
    TrimmedLine(s, n);
    TrimEndKeepsCharacters(line);
    FirstLine(s, n, line, rest);
    TrimLinesUnfolds(s, n, short, trimmed);
    TrimmedFirstLine(n < |s|, short, trimmed, TrimLines(s));
    if n < |s| {
      TrimLinesKeepsLines(rest);
      KeptBehind(line, short, Lines(rest), Lines(trimmed));
    }
  }

  /** One character behind a text lengthens its last line or begins a new one. */
  lemma {:induction false} LinesOfSnoc(s: string, c: char)
    requires '\r' !in s && c != '\r'
    ensures Lines(s + [c]) ==
      if c == '\n' then Lines(s) + [[]]
      else Lines(s)[..|Lines(s)| - 1] + [Lines(s)[|Lines(s)| - 1] + [c]]
  {
    if s == [] {
      assert s + [c] == [c] + [];
      LinesOfCons(c, []);
    } else {
      assert s + [c] == [s[0]] + (s[1..] + [c]) && s == [s[0]] + s[1..];
      LinesOfSnoc(s[1..], c);
      LinesOfCons(s[0], s[1..] + [c]);
      LinesOfCons(s[0], s[1..]);
      SnocBehind(s[0], Lines(s[1..]), c);
    }
  }

  lemma SnocBehind(first: char, lines: seq<string>, c: char)
    requires lines != []
    ensures var n := |lines| - 1;
      var longer := lines[..n] + [lines[n] + [c]];
      && Cons(first, lines + [[]]) == Cons(first, lines) + [[]]
      && Cons(first, longer) == Cons(first, lines)[..n] + [Cons(first, lines)[n] + [c]]
      && [[]] + longer == ([[]] + lines)[..n + 1] + [([[]] + lines)[n + 1] + [c]]
  {
    var n := |lines| - 1;
    if n == 0 {
      assert [first] + (lines[0] + [c]) == ([first] + lines[0]) + [c];
    }
  }

  lemma {:induction false} TrimEndKeepsLines(s: string)
    requires '\r' !in s
    ensures Kept(Lines(s), Lines(TrimEnd(s)))
  {
    if s != [] && IsSpace(s[|s| - 1]) {
      var p, c := s[..|s| - 1], s[|s| - 1];
      TrimEndKeepsLines(p);
      LinesOfSnoc(p, c);
      assert p + [c] == s;
      OneBlankLess(Lines(p), c);
      KeptTwice(Lines(s), Lines(p), Lines(TrimEnd(p)));
    }
  }

  lemma OneBlankLess(lines: seq<string>, c: char)
    requires lines != [] && IsSpace(c)
    ensures Kept(lines + [[]], lines)
    ensures Kept(lines[..|lines| - 1] + [lines[|lines| - 1] + [c]], lines)
  {
  }

  lemma FirstLineIsTrimmed(s: string, n: nat)
    requires Normal(s) && n == LineEnd(s, 0)
    ensures Trimmed(s[..n]) && (n < |s| ==> Normal(s[n + 1..]))
  {
    FirstLineIsFixed(s, n);
    TrimEndTrims(s[..n]);
    if n < |s| {
      RestIsTrimmed(s, n);
    }
  }

  predicate AllTrimmed(lines: seq<string>) {
    forall k :: 0 <= k < |lines| ==> Trimmed(lines[k])
  }

  lemma TrimmedBehind(line: string, lines: seq<string>)
    requires Trimmed(line) && AllTrimmed(lines)
    ensures AllTrimmed([line] + lines)
  {
  }

  lemma {:induction false} NormalLinesAreTrimmed(s: string)
    requires Normal(s)
    ensures AllTrimmed(Lines(s))
    decreases |s|
  {
    var n := LineEnd(s, 0);
    var line, rest := s[..n], if n < |s| then s[n + 1..] else [];
    FirstLine(s, n, line, rest);
    FirstLineIsTrimmed(s, n);
    if n < |s| {
      NormalLinesAreTrimmed(rest);
      TrimmedBehind(line, Lines(rest));
    }
  }

  /** The longest prefix of a line that does not end in a blank. */
  ghost predicate StripsTo(line: string, short: string) {
    short <= line && Trimmed(short) && Blank(line[|short|..])
  }

  /**
   Line by line, normalising keeps the longest prefix that does not end in a blank; the lines that
   are missing at the end are blank.
   */
  lemma LinesAreKept(s: string)
    ensures var lines, kept := Lines(s), Lines(NormalizeText(s));
      && |kept| <= |lines|
      && (forall k :: 0 <= k < |kept| ==> StripsTo(lines[k], kept[k]))
      && (forall k :: |kept| <= k < |lines| ==> Blank(lines[k]))
  {
    var unix := UnixNewlines(s);
    NoReturns(s);
    UnixKeepsLines(s);
    TrimLinesTrims(unix);
    TrimLinesKeepsLines(unix);
    TrimEndKeepsLines(TrimLines(unix));
    KeptTwice(Lines(s), Lines(TrimLines(unix)), Lines(NormalizeText(s)));
    NormalizeIsNormal(s);
    NormalLinesAreTrimmed(NormalizeText(s));
  }

  // ---------- Trimming both ends ----------

  lemma {:induction false} TrimStartSplits(s: string) returns (front: string)
    ensures s == front + TrimStart(s) && Blank(front)
    ensures TrimStart(s) != [] ==> !IsSpace(TrimStart(s)[0])
  {
    if s != [] && IsSpace(s[0]) {
      var rest := TrimStartSplits(s[1..]);
      front := [s[0]] + rest;
      assert s == [s[0]] + s[1..];
    } else {
      front := [];
    }
  }

  /** Trimming leaves what lies between the blanks at both ends. */
  lemma TrimIsTheMiddle(s: string) returns (front: string, back: string)
    ensures s == front + Trim(s) + back && Blank(front) && Blank(back)
    ensures Trim(s) != [] ==> !IsSpace(Trim(s)[0]) && !IsSpace(Trim(s)[|Trim(s)| - 1])
  {
    var ended := TrimEnd(s);
    TrimEndKeepsCharacters(s);
    TrimEndTrims(s);
    front := TrimStartSplits(ended);
    back := s[|ended|..];
    assert s == ended + back;
    if Trim(s) != [] {
      assert ended[|ended| - 1] == Trim(s)[|Trim(s)| - 1];
    }
  }
}
