/** A window of graphemes around the first match, and the ranges to highlight in it. */
module Snippets {
  import opened Common
  import opened Search

  function Concat(graphemes: seq<string>): string {
    if graphemes == [] then [] else Concat(graphemes[..|graphemes| - 1]) + graphemes[|graphemes| - 1]
  }

  /** Where grapheme k begins in the text. */
  function Offset(graphemes: seq<string>, k: nat): nat
    requires k <= |graphemes|
  {
    |Concat(graphemes[..k])|
  }

  function FirstMatch(fold: char -> string, text: string, query: string): nat {
    var ranges := MatchRanges(fold, text, query);
    if ranges == [] then 0 else ranges[0].start
  }

  /** The grapheme from k on that holds a character, or 0 when none does. */
  function GraphemeOf(graphemes: seq<string>, scalar: nat, k: nat): nat
    requires k <= |graphemes|
    decreases |graphemes| - k
  {
    if k == |graphemes| then 0
    else if Offset(graphemes, k) <= scalar < Offset(graphemes, k + 1) then k
    else GraphemeOf(graphemes, scalar, k + 1)
  }

  /** Where the window begins: a third of it before the match, but never past the last full window. */
  function WindowStart(place: nat, count: nat, size: nat): nat
    requires size <= count
  {
    Min(SaturatingSub(place, size / 3), count - size)
  }

  /** The grapheme in which the first match begins. */
  function MatchGrapheme(fold: char -> string, graphemes: seq<string>, query: string): nat {
    GraphemeOf(graphemes, FirstMatch(fold, Concat(graphemes), query), 0)
  }

  datatype Excerpt = Excerpt(text: string, ranges: seq<Range>)

  /** A run of graphemes, searched on its own. */
  function Cut(fold: char -> string, graphemes: seq<string>, query: string, a: nat, b: nat): Excerpt
    requires a <= b <= |graphemes|
  {
    Excerpt(Concat(graphemes[a..b]), MatchRanges(fold, Concat(graphemes[a..b]), query))
  }

  function Snippet(fold: char -> string, graphemes: seq<string>, query: string, size: nat): Excerpt {
    if |graphemes| <= size then Excerpt(Concat(graphemes), MatchRanges(fold, Concat(graphemes), query))
    else
      var start := WindowStart(MatchGrapheme(fold, graphemes, query), |graphemes|, size);
      Cut(fold, graphemes, query, start, start + size)
  }

  lemma {:induction false} ConcatSplits(a: seq<string>, b: seq<string>)
    ensures Concat(a + b) == Concat(a) + Concat(b)
    decreases |b|
  {
    if b == [] {
      assert a + b == a;
    } else {
      var n := |b| - 1;
      assert (a + b)[..|a + b| - 1] == a + b[..n] && (a + b)[|a + b| - 1] == b[n];
      ConcatSplits(a, b[..n]);
      assert Concat(a) + Concat(b[..n]) + b[n] == Concat(a) + (Concat(b[..n]) + b[n]);
    }
  }

  lemma OffsetNext(graphemes: seq<string>, k: nat)
    requires k < |graphemes|
    ensures Offset(graphemes, k + 1) == Offset(graphemes, k) + |graphemes[k]|
  {
    assert graphemes[..k + 1][..k] == graphemes[..k];
  }

  lemma {:induction false} OffsetGrows(graphemes: seq<string>, j: nat, k: nat)
    requires j <= k <= |graphemes|
    ensures Offset(graphemes, j) <= Offset(graphemes, k)
    decreases k
  {
    if j < k {
      OffsetGrows(graphemes, j, k - 1);
      OffsetNext(graphemes, k - 1);
    }
  }

  /** A window of graphemes is the text between their offsets. */
  lemma WindowIsSlice(graphemes: seq<string>, a: nat, b: nat)
    requires a <= b <= |graphemes|
    ensures Offset(graphemes, a) <= Offset(graphemes, b) <= |Concat(graphemes)|
    ensures Concat(graphemes[a..b]) == Concat(graphemes)[Offset(graphemes, a)..Offset(graphemes, b)]
  {
    ConcatSplits(graphemes[..a], graphemes[a..b]);
    assert graphemes[..a] + graphemes[a..b] == graphemes[..b];
    ConcatSplits(graphemes[..b], graphemes[b..]);
    assert graphemes[..b] + graphemes[b..] == graphemes;
    MiddleOf(Concat(graphemes[..a]), Concat(graphemes[a..b]), Concat(graphemes[b..]));
  }

  lemma MiddleOf(x: string, y: string, z: string)
    ensures ((x + y) + z)[|x|..|x + y|] == y
  {
  }

  /** A character before the end lies in exactly the grapheme found. */
  lemma {:induction false} GraphemeHolds(graphemes: seq<string>, scalar: nat, k: nat)
    requires k <= |graphemes| && Offset(graphemes, k) <= scalar < |Concat(graphemes)|
    ensures var g := GraphemeOf(graphemes, scalar, k);
      k <= g < |graphemes| && Offset(graphemes, g) <= scalar < Offset(graphemes, g + 1)
    decreases |graphemes| - k
  {
    assert graphemes[..|graphemes|] == graphemes;
    if k < |graphemes| && Offset(graphemes, k + 1) <= scalar {
      GraphemeHolds(graphemes, scalar, k + 1);
    }
  }

  lemma MatchGraphemeHolds(fold: char -> string, graphemes: seq<string>, text: string, query: string, first: Range)
    requires Folding(fold) && text == Concat(graphemes)
    requires MatchRanges(fold, text, query) != [] && first == MatchRanges(fold, text, query)[0]
    ensures var m := MatchGrapheme(fold, graphemes, query);
      m < |graphemes| && Offset(graphemes, m) <= first.start < Offset(graphemes, m + 1)
    ensures first.start < first.end <= |text|
  {
    RangeHoldsQuery(fold, text, query, first);
    assert graphemes[..0] == [];
    GraphemeHolds(graphemes, first.start, 0);
  }

  /** A run's ranges are exactly the text's ranges inside it, shifted. */
  lemma CutRangesAreExact(fold: char -> string, graphemes: seq<string>, text: string, query: string, a: nat, b: nat,
                          start: nat, end: nat, r: Range)
    requires Folding(fold) && text == Concat(graphemes)
    requires a <= b <= |graphemes| && start == Offset(graphemes, a) && end == Offset(graphemes, b)
    ensures r in Cut(fold, graphemes, query, a, b).ranges <==>
            r.Shift(start) in MatchRanges(fold, text, query) && r.end + start <= end
  {
    WindowIsSlice(graphemes, a, b);
    WindowRanges(fold, text, query, start, end, r);
  }

  lemma WindowFits(m: nat, count: nat, size: nat)
    requires 0 < size <= count && m < count
    ensures var a := WindowStart(m, count, size);
      a + size <= count && a <= m < a + size && Min(m + size - size / 3, count) <= a + size
  {
  }

  /** A third of the window lies before the match's grapheme, unless the text begins or ends sooner. */
  lemma WindowBeginsExactly(m: nat, count: nat, size: nat)
    requires size <= count
    ensures var third := if m >= size / 3 then m - size / 3 else 0;
      WindowStart(m, count, size) == if third + size <= count then third else count - size
  {
  }

  /** Where the window that a truncated text is cut to begins. */
  function Window(fold: char -> string, graphemes: seq<string>, query: string, size: nat): nat
    requires size <= |graphemes|
  {
    WindowStart(MatchGrapheme(fold, graphemes, query), |graphemes|, size)
  }

  /**
   A truncated snippet is exactly `size` consecutive graphemes of the text; when there is a match,
   the grapheme m in which the first one begins is among them, followed by two thirds of the window
   or the rest of the text.
   */
  lemma SnippetHoldsTheMatch(fold: char -> string, graphemes: seq<string>, text: string, query: string, size: nat,
                             first: Range, m: nat, a: nat)
    requires Folding(fold) && text == Concat(graphemes) && 0 < size < |graphemes|
    requires MatchRanges(fold, text, query) != [] && first == MatchRanges(fold, text, query)[0]
    requires m == MatchGrapheme(fold, graphemes, query) && a == Window(fold, graphemes, query, size)
    ensures a + size <= |graphemes| && Snippet(fold, graphemes, query, size).text == Concat(graphemes[a..a + size])
    ensures a <= m < a + size && Min(m + size - size / 3, |graphemes|) <= a + size
  {
    MatchGraphemeHolds(fold, graphemes, text, query, first);
    WindowFits(m, |graphemes|, size);
  }

  /** A truncated snippet's ranges are exactly the text's ranges inside the window, shifted to it. */
  lemma SnippetRangesAreExact(fold: char -> string, graphemes: seq<string>, text: string, query: string, size: nat,
                              a: nat, start: nat, end: nat, r: Range)
    requires Folding(fold) && text == Concat(graphemes) && size < |graphemes|
    requires a == Window(fold, graphemes, query, size)
    requires start == Offset(graphemes, a) && end == Offset(graphemes, a + size)
    ensures r in Snippet(fold, graphemes, query, size).ranges <==>
            r.Shift(start) in MatchRanges(fold, text, query) && r.end + start <= end
  {
    CutRangesAreExact(fold, graphemes, text, query, a, a + size, start, end, r);
  }

  lemma MatchStartsInWindow(fold: char -> string, graphemes: seq<string>, text: string, query: string, size: nat,
                            first: Range, a: nat)
    requires Folding(fold) && text == Concat(graphemes) && 0 < size < |graphemes|
    requires MatchRanges(fold, text, query) != [] && first == MatchRanges(fold, text, query)[0]
    requires a == Window(fold, graphemes, query, size)
    ensures Offset(graphemes, a) <= first.start < first.end
  {
    var m := MatchGrapheme(fold, graphemes, query);
    MatchGraphemeHolds(fold, graphemes, text, query, first);
    WindowFits(m, |graphemes|, size);
    OffsetGrows(graphemes, a, m);
  }

  /** The first match starts inside a truncated snippet and is highlighted exactly when it ends there too. */
  lemma FirstMatchShownIff(fold: char -> string, graphemes: seq<string>, text: string, query: string, size: nat,
                           a: nat, start: nat, end: nat, first: Range)
    requires Folding(fold) && text == Concat(graphemes) && 0 < size < |graphemes|
    requires a == Window(fold, graphemes, query, size)
    requires start == Offset(graphemes, a) && end == Offset(graphemes, a + size)
    requires MatchRanges(fold, text, query) != [] && first == MatchRanges(fold, text, query)[0]
    ensures start <= first.start < first.end
    ensures Range(first.start - start, first.end - start) in Snippet(fold, graphemes, query, size).ranges <==>
            first.end <= end
  {
    MatchStartsInWindow(fold, graphemes, text, query, size, first, a);
    var shown := Range(first.start - start, first.end - start);
    assert shown.Shift(start) == first;
    SnippetRangesAreExact(fold, graphemes, text, query, size, a, start, end, shown);
  }

  /** A text of at most the requested number of graphemes is shown whole, with all its ranges. */
  lemma FittingTextIsWhole(fold: char -> string, graphemes: seq<string>, query: string, size: nat)
    requires |graphemes| <= size
    ensures Snippet(fold, graphemes, query, size) ==
            Excerpt(Concat(graphemes), MatchRanges(fold, Concat(graphemes), query))
  {
  }

  lemma LimitInWindow(graphemes: seq<string>, size: nat, m: nat, a: nat, limit: nat)
    requires 0 < size < |graphemes| && m < |graphemes| && a == WindowStart(m, |graphemes|, size)
    requires limit == Min(m + size - size / 3, |graphemes|)
    ensures a + size <= |graphemes| && Offset(graphemes, limit) <= Offset(graphemes, a + size)
  {
    WindowFits(m, |graphemes|, size);
    OffsetGrows(graphemes, limit, a + size);
  }

  /** A first match that ends within two thirds of the window from its first grapheme is always highlighted. */
  lemma ShortMatchIsShown(fold: char -> string, graphemes: seq<string>, text: string, query: string, size: nat,
                          a: nat, m: nat, start: nat, first: Range, limit: nat)
    requires Folding(fold) && text == Concat(graphemes) && 0 < size < |graphemes|
    requires m == MatchGrapheme(fold, graphemes, query) && a == Window(fold, graphemes, query, size)
    requires start == Offset(graphemes, a)
    requires MatchRanges(fold, text, query) != [] && first == MatchRanges(fold, text, query)[0]
    requires limit == Min(m + size - size / 3, |graphemes|) && first.end <= Offset(graphemes, limit)
    ensures start <= first.start < first.end
    ensures Range(first.start - start, first.end - start) in Snippet(fold, graphemes, query, size).ranges
  {
    MatchGraphemeHolds(fold, graphemes, text, query, first);
    LimitInWindow(graphemes, size, m, a, limit);
    FirstMatchShownIff(fold, graphemes, text, query, size, a, start, Offset(graphemes, a + size), first);
  }

  /** The snippet, with a cursor that counts characters grapheme by grapheme until the match. */
  method MakeSnippet(fold: char -> string, graphemes: seq<string>, query: string, size: nat) returns (r: Excerpt)
    ensures r == Snippet(fold, graphemes, query, size)
  {
    var text := Concat(graphemes);
    if |graphemes| <= size {
      return Excerpt(text, MatchRanges(fold, text, query));
    }
    var firstScalar := FirstMatch(fold, text, query);
    var cursor, k, matchGrapheme := 0, 0, 0;
    while k < |graphemes|
      invariant k <= |graphemes| && cursor == Offset(graphemes, k) && matchGrapheme == 0
      invariant GraphemeOf(graphemes, firstScalar, k) == GraphemeOf(graphemes, firstScalar, 0)
    {
      OffsetNext(graphemes, k);
      var next := cursor + |graphemes[k]|;
      if cursor <= firstScalar < next {
        matchGrapheme := k;
        break;
      }
      cursor, k := next, k + 1;
    }
    var start := WindowStart(matchGrapheme, |graphemes|, size);
    r := Cut(fold, graphemes, query, start, start + size);
  }

  // ---------- A match that is cut ----------

  function Plain(c: char): string {
    [c]
  }

  function Singles(text: string): (r: seq<string>)
    ensures |r| == |text| && forall i :: 0 <= i < |r| ==> r[i] == [text[i]]
  {
    seq(|text|, i requires 0 <= i < |text| => [text[i]])
  }

  lemma {:induction false} PlainFolds(text: string)
    ensures Folded(Plain, text) == text
    ensures forall i :: 0 <= i < |text| ==> ScalarMap(Plain, text)[i] == i
    decreases |text|
  {
    if text != [] {
      PlainFolds(text[..|text| - 1]);
    }
  }

  lemma {:induction false} SinglesConcat(text: string, k: nat)
    requires k <= |text|
    ensures Concat(Singles(text)[..k]) == text[..k] && Offset(Singles(text), k) == k
    decreases k
  {
    if k > 0 {
      SinglesConcat(text, k - 1);
      assert Singles(text)[..k][..k - 1] == Singles(text)[..k - 1];
    }
  }

  /** The only place of "abc" in "xxabcy". */
  lemma OnlyMatch(r: Range)
    ensures r in MatchRanges(Plain, "xxabcy", "abc") <==> r == Range(2, 5)
  {
    var text, query := "xxabcy", "abc";
    PlainFolds(text);
    PlainFolds(query);
    assert text[2..5] == query;
    if r in MatchRanges(Plain, text, query) {
      var i := ListedIsYielded(Plain, text, query, r);
      assert text[i] == text[i..i + 3][0] == 'a';
    }
    assert Yields(Plain, text, query, 2, Range(2, 5));
    YieldedIsListed(Plain, text, query, 2, Range(2, 5));
  }

  /** Three graphemes are room enough for the match, yet the snippet starts one before it and loses its end. */
  lemma FittingMatchCanBeCut(graphemes: seq<string>)
    requires graphemes == Singles("xxabcy")
    ensures Contains(Plain, Concat(graphemes), "abc")
    ensures Snippet(Plain, graphemes, "abc", 3).ranges == []
  {
    var text, query := "xxabcy", "abc";
    assert graphemes[..6] == graphemes && text[..6] == text;
    SinglesConcat(text, 6);
    OnlyMatch(Range(2, 5));
    ContainsIffRanges(Plain, text, query);
    var first := MatchRanges(Plain, text, query)[0];
    OnlyMatch(first);
    MatchGraphemeHolds(Plain, graphemes, text, query, first);
    var m := MatchGrapheme(Plain, graphemes, query);
    SinglesConcat(text, m);
    SinglesConcat(text, m + 1);
    assert m == 2;
    SinglesConcat(text, 1);
    SinglesConcat(text, 4);
    var ranges := Snippet(Plain, graphemes, query, 3).ranges;
    if ranges != [] {
      SnippetRangesAreExact(Plain, graphemes, text, query, 3, 1, 1, 4, ranges[0]);
      OnlyMatch(ranges[0].Shift(1));
    }
  }
}
