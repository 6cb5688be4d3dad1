/** The names of patch files: four digits, a hyphen, words joined by hyphens, and `.patch`. */
module PatchFileNames {
  import opened PatchInstall

  predicate IsWordChar(c: char) {
    'a' <= c <= 'z' || '0' <= c <= '9'
  }

  predicate IsWord(w: string) {
    w != [] && forall i :: 0 <= i < |w| ==> IsWordChar(w[i])
  }

  predicate AreWords(ws: seq<string>) {
    ws != [] && forall i :: 0 <= i < |ws| ==> IsWord(ws[i])
  }

  function Hyphenated(ws: seq<string>): string
    requires ws != []
  {
    if |ws| == 1 then ws[0] else ws[0] + (['-'] + Hyphenated(ws[1..]))
  }

  /** Word characters and single hyphens between them. */
  predicate IsSlug(m: string) {
    && m != [] && (forall i :: 0 <= i < |m| ==> IsWordChar(m[i]) || m[i] == '-')
    && m[0] != '-' && m[|m| - 1] != '-'
    && forall i :: 0 < i < |m| ==> !(m[i] == '-' && m[i - 1] == '-')
  }

  lemma WordIsSlug(w: string)
    requires IsWord(w)
    ensures IsSlug(w)
  {
    assert IsWordChar(w[0]) && IsWordChar(w[|w| - 1]);
  }

  lemma WordBehindSlug(w: string, m: string)
    requires IsWord(w) && IsSlug(m)
    ensures IsSlug(w + (['-'] + m))
  {
    var s := w + (['-'] + m);
    assert forall i :: 0 <= i < |w| ==> s[i] == w[i];
    assert s[|w|] == '-' && forall i :: 0 <= i < |m| ==> s[|w| + 1 + i] == m[i];
    forall i | 0 < i < |s|
      ensures !(s[i] == '-' && s[i - 1] == '-')
    {
      if i > |w| + 1 {
        assert s[i] == m[i - |w| - 1] && s[i - 1] == m[i - |w| - 2];
      } else if i < |w| {
        assert IsWordChar(w[i]);
      } else {
        assert IsWordChar(w[|w| - 1]);
      }
    }
  }

  lemma {:induction false} WordsMakeSlug(ws: seq<string>)
    requires AreWords(ws)
    ensures IsSlug(Hyphenated(ws))
  {
    if |ws| == 1 {
      WordIsSlug(ws[0]);
    } else {
      WordsMakeSlug(ws[1..]);
      WordBehindSlug(ws[0], Hyphenated(ws[1..]));
    }
  }

  lemma LongerFirstWord(c: char, ws: seq<string>, m: string)
    requires IsWordChar(c) && AreWords(ws) && Hyphenated(ws) == m
    ensures AreWords([[c] + ws[0]] + ws[1..]) && Hyphenated([[c] + ws[0]] + ws[1..]) == [c] + m
  {
    var longer := [[c] + ws[0]] + ws[1..];
    assert longer[1..] == ws[1..];
    if |ws| > 1 {
      assert [c] + ws[0] + (['-'] + Hyphenated(ws[1..])) == [c] + (ws[0] + (['-'] + Hyphenated(ws[1..])));
    }
  }

  /** Every slug falls into words. */
  lemma {:induction false} SlugHasWords(m: string) returns (ws: seq<string>)
    requires IsSlug(m)
    ensures AreWords(ws) && Hyphenated(ws) == m
    decreases |m|
  {
    if |m| == 1 {
      ws := [m];
    } else if m[1] == '-' {
      var rest := SlugHasWords(m[2..]);
      ws := [[m[0]]] + rest;
      assert ws[1..] == rest;
      assert m == [m[0]] + (['-'] + m[2..]);
    } else {
      var rest := SlugHasWords(m[1..]);
      LongerFirstWord(m[0], rest, m[1..]);
      ws := [[m[0]] + rest[0]] + rest[1..];
      assert m == [m[0]] + m[1..];
    }
  }

  ghost predicate IsNamed(s: string, number: string, ws: seq<string>) {
    && |number| == 4 && (forall i :: 0 <= i < 4 ==> '0' <= number[i] <= '9')
    && AreWords(ws) && s == number + (['-'] + (Hyphenated(ws) + ".patch"))
  }

  lemma NameParts(s: string, number: string, m: string)
    requires |number| == 4 && (forall i :: 0 <= i < 4 ==> '0' <= number[i] <= '9')
    requires IsSlug(m) && s == number + (['-'] + (m + ".patch"))
    ensures IsPatchFileName(s)
  {
    assert |s| == |m| + 11;
    assert s[4] == '-' && s[5..|s| - 6] == m && s[|s| - 6..] == ".patch";
    assert forall i :: 0 <= i < 4 ==> s[i] == number[i];
  }

  /** A name of a patch file is exactly a number and words in this form. */
  lemma PatchFileNameIff(s: string)
    ensures IsPatchFileName(s) <==> exists number, ws :: IsNamed(s, number, ws)
  {
    if IsPatchFileName(s) {
      var m := s[5..|s| - 6];
      assert IsSlug(m);
      var ws := SlugHasWords(m);
      assert s == s[..4] + (['-'] + (m + ".patch"));
      assert IsNamed(s, s[..4], ws);
    }
    if number, ws :| IsNamed(s, number, ws) {
      WordsMakeSlug(ws);
      NameParts(s, number, Hyphenated(ws));
    }
  }
}
