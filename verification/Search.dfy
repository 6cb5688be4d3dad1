/**
 Literal search in case-folded text: folding may turn one character into several, so matches are
 found in the folded text and mapped back to ranges of the original one; a long text is cut to a
 window of graphemes around its first match.
 */
module Search {
  /** A case folding gives every character at least one character. */
  ghost predicate Folding(fold: char -> string) {
    forall c :: fold(c) != []
  }

  /** The folded text. */
  function Folded(fold: char -> string, text: string): string {
    if text == [] then [] else Folded(fold, text[..|text| - 1]) + fold(text[|text| - 1])
  }

  function Repeated(k: nat, count: nat): (r: seq<nat>)
    ensures |r| == count && forall i :: 0 <= i < count ==> r[i] == k
  {
    seq(count, i => k)
  }

  /** For each folded character, the character of the text it comes from. */
  function ScalarMap(fold: char -> string, text: string): (r: seq<nat>)
    ensures |r| == |Folded(fold, text)|
  {
    if text == [] then []
    else ScalarMap(fold, text[..|text| - 1]) + Repeated(|text| - 1, |fold(text[|text| - 1])|)
  }

  /** The folded query occurs in the folded text at i. */
  predicate OccursAt(lowered: string, query: string, i: nat) {
    i + |query| <= |lowered| && lowered[i..i + |query|] == query
  }

  predicate Contains(fold: char -> string, text: string, query: string) {
    var lowered, q := Folded(fold, text), Folded(fold, query);
    q != [] && exists i | 0 <= i <= |lowered| :: OccursAt(lowered, q, i)
  }

  datatype Range = Range(start: nat, end: nat) {
    function Shift(offset: nat): Range {
      Range(start + offset, end + offset)
    }
  }

  /** The characters an occurrence at i touches. */
  function RangeAt(scalars: seq<nat>, i: nat, length: nat): Range
    requires 0 < length && i + length <= |scalars|
  {
    Range(scalars[i], scalars[i + length - 1] + 1)
  }

  /** The ranges of the occurrences before n, in order. */
  function RangesBefore(lowered: string, scalars: seq<nat>, query: string, n: nat): seq<Range>
    requires |lowered| == |scalars| && query != []
  {
    if n == 0 then []
    else
      RangesBefore(lowered, scalars, query, n - 1) +
      if OccursAt(lowered, query, n - 1) then [RangeAt(scalars, n - 1, |query|)] else []
  }

  function MatchRanges(fold: char -> string, text: string, query: string): seq<Range> {
    var lowered, scalars, q := Folded(fold, text), ScalarMap(fold, text), Folded(fold, query);
    if q == [] || |q| > |lowered| then [] else RangesBefore(lowered, scalars, q, |lowered| - |q| + 1)
  }

  // ---------- Where a folded character comes from ----------

  /** How many characters the first k characters fold to. */
  function FoldedLength(fold: char -> string, text: string, k: nat): nat
    requires k <= |text|
  {
    |Folded(fold, text[..k])|
  }

  lemma {:induction false} FoldedConcat(fold: char -> string, a: string, b: string)
    ensures Folded(fold, a + b) == Folded(fold, a) + Folded(fold, b)
    decreases |b|
  {
    if b == [] {
      assert a + b == a;
    } else {
      var n := |b| - 1;
      assert (a + b)[..|a + b| - 1] == a + b[..n];
      FoldedConcat(fold, a, b[..n]);
    }
  }

  lemma FoldedNext(fold: char -> string, text: string, k: nat)
    requires k < |text|
    ensures FoldedLength(fold, text, k + 1) == FoldedLength(fold, text, k) + |fold(text[k])|
  {
    assert text[..k + 1][..k] == text[..k];
  }

  lemma {:induction false} FoldedGrows(fold: char -> string, text: string, j: nat, k: nat)
    requires Folding(fold) && j <= k <= |text|
    ensures FoldedLength(fold, text, j) <= FoldedLength(fold, text, k)
    ensures j < k ==> FoldedLength(fold, text, j) < FoldedLength(fold, text, k)
    decreases k
  {
    if j < k {
      FoldedGrows(fold, text, j, k - 1);
      FoldedNext(fold, text, k - 1);
    }
  }

  /** Folded character i comes from the character whose folding covers position i. */
  lemma {:induction false} MapCovers(fold: char -> string, text: string, i: nat)
    requires i < |Folded(fold, text)|
    ensures var k := ScalarMap(fold, text)[i];
      k < |text| && FoldedLength(fold, text, k) <= i < FoldedLength(fold, text, k + 1)
    decreases |text|
  {
    if text != [] {
      var n := |text| - 1;
      FoldedNext(fold, text, n);
      assert text[..n + 1] == text;
      if i < |Folded(fold, text[..n])| {
        MapCovers(fold, text[..n], i);
        var k := ScalarMap(fold, text[..n])[i];
        assert text[..n][..k] == text[..k] && text[..n][..k + 1] == text[..k + 1];
      }
    }
  }

  /** The map is decided by which character covers a position. */
  lemma CoverDecides(fold: char -> string, text: string, i: nat, k: nat)
    requires Folding(fold) && i < |Folded(fold, text)| && k < |text|
    requires FoldedLength(fold, text, k) <= i < FoldedLength(fold, text, k + 1)
    ensures ScalarMap(fold, text)[i] == k
  {
    MapCovers(fold, text, i);
    var m := ScalarMap(fold, text)[i];
    if m < k {
      FoldedGrows(fold, text, m + 1, k);
    } else if k < m {
      FoldedGrows(fold, text, k + 1, m);
    }
  }

  lemma MapIsMonotone(fold: char -> string, text: string, i: nat, j: nat)
    requires Folding(fold) && i <= j < |Folded(fold, text)|
    ensures ScalarMap(fold, text)[i] <= ScalarMap(fold, text)[j]
  {
    MapCovers(fold, text, i);
    MapCovers(fold, text, j);
    var a, b := ScalarMap(fold, text)[i], ScalarMap(fold, text)[j];
    if b < a {
      FoldedGrows(fold, text, b + 1, a);
    }
  }

  // ---------- The ranges ----------

  /** An occurrence of the folded query q at i, and the range it touches. */
  ghost predicate Yields(fold: char -> string, text: string, q: string, i: nat, r: Range) {
    q != [] && OccursAt(Folded(fold, text), q, i) && RangeAt(ScalarMap(fold, text), i, |q|) == r
  }

  lemma {:induction false} OccurrenceIsListed(lowered: string, scalars: seq<nat>, q: string, n: nat, i: nat)
    requires |lowered| == |scalars| && q != [] && i < n && OccursAt(lowered, q, i)
    ensures RangeAt(scalars, i, |q|) in RangesBefore(lowered, scalars, q, n)
    decreases n
  {
    if i < n - 1 {
      OccurrenceIsListed(lowered, scalars, q, n - 1, i);
    }
  }

  lemma {:induction false} ListedIsOccurrence(lowered: string, scalars: seq<nat>, q: string, n: nat, r: Range) returns (i: nat)
    requires |lowered| == |scalars| && q != [] && r in RangesBefore(lowered, scalars, q, n)
    ensures i < n && OccursAt(lowered, q, i) && RangeAt(scalars, i, |q|) == r
    decreases n
  {
    if r in RangesBefore(lowered, scalars, q, n - 1) {
      i := ListedIsOccurrence(lowered, scalars, q, n - 1, r);
    } else {
      i := n - 1;
    }
  }

  /** The range of every occurrence of the folded query is listed. */
  lemma YieldedIsListed(fold: char -> string, text: string, query: string, i: nat, r: Range)
    requires Yields(fold, text, Folded(fold, query), i, r)
    ensures r in MatchRanges(fold, text, query)
  {
    var lowered, q := Folded(fold, text), Folded(fold, query);
    OccurrenceIsListed(lowered, ScalarMap(fold, text), q, |lowered| - |q| + 1, i);
  }

  /** Every listed range is that of an occurrence. */
  lemma ListedIsYielded(fold: char -> string, text: string, query: string, r: Range) returns (i: nat)
    requires r in MatchRanges(fold, text, query)
    ensures Yields(fold, text, Folded(fold, query), i, r)
  {
    var lowered, q := Folded(fold, text), Folded(fold, query);
    i := ListedIsOccurrence(lowered, ScalarMap(fold, text), q, |lowered| - |q| + 1, r);
  }

  /** A text contains the query exactly when there is a range to show. */
  lemma ContainsIffRanges(fold: char -> string, text: string, query: string)
    ensures Contains(fold, text, query) <==> MatchRanges(fold, text, query) != []
  {
    var lowered, scalars, q := Folded(fold, text), ScalarMap(fold, text), Folded(fold, query);
    var ranges := MatchRanges(fold, text, query);
    if Contains(fold, text, query) {
      var i :| 0 <= i <= |lowered| && OccursAt(lowered, q, i);
      YieldedIsListed(fold, text, query, i, RangeAt(scalars, i, |q|));
    }
    if ranges != [] {
      var i := ListedIsYielded(fold, text, query, ranges[0]);
      assert OccursAt(lowered, q, i);
    }
  }

  /** Where an occurrence begins and ends among the folded characters of its range. */
  lemma RangeCovers(fold: char -> string, text: string, q: string, i: nat, r: Range)
    requires Folding(fold) && Yields(fold, text, q, i, r)
    ensures r.start < r.end <= |text|
    ensures FoldedLength(fold, text, r.start) <= i && i + |q| <= FoldedLength(fold, text, r.end)
  {
    MapCovers(fold, text, i);
    MapCovers(fold, text, i + |q| - 1);
    MapIsMonotone(fold, text, i, i + |q| - 1);
  }

  lemma OccursInSlice(lowered: string, q: string, f: nat, g: nat, i: nat)
    requires f <= g <= |lowered| && f <= i && i + |q| <= g
    ensures OccursAt(lowered, q, i) <==> OccursAt(lowered[f..g], q, i - f)
  {
    var inner, outer := lowered[f..g][i - f..i - f + |q|], lowered[i..i + |q|];
    forall k | 0 <= k < |q| ensures inner[k] == outer[k] {
      assert inner[k] == lowered[f..g][i - f + k];
    }
    assert inner == outer;
  }

  /** Every range is a non-empty part of the text whose folding contains the folded query. */
  lemma RangeHoldsQuery(fold: char -> string, text: string, query: string, r: Range)
    requires Folding(fold) && r in MatchRanges(fold, text, query)
    ensures r.start < r.end <= |text|
    ensures Contains(fold, text[r.start..r.end], query)
  {
    var q := Folded(fold, query);
    var i := ListedIsYielded(fold, text, query, r);
    RangeCovers(fold, text, q, i, r);
    SliceFolds(fold, text, r.start, r.end);
    OccursInSlice(Folded(fold, text), q, FoldedLength(fold, text, r.start), FoldedLength(fold, text, r.end), i);
  }

  /** A part of the text folds to a part of the folded text. */
  lemma SliceFolds(fold: char -> string, text: string, a: nat, b: nat)
    requires Folding(fold) && a <= b <= |text|
    ensures FoldedLength(fold, text, a) <= FoldedLength(fold, text, b) <= |Folded(fold, text)|
    ensures Folded(fold, text[a..b]) == Folded(fold, text)[FoldedLength(fold, text, a)..FoldedLength(fold, text, b)]
  {
    FoldedGrows(fold, text, a, b);
    FoldedGrows(fold, text, b, |text|);
    assert text[..|text|] == text;
    FoldedConcat(fold, text[..a], text[a..b]);
    assert text[..a] + text[a..b] == text[..b];
    FoldedConcat(fold, text[..b], text[b..]);
    assert text[..b] + text[b..] == text;
  }

  ghost predicate Nondecreasing(ranges: seq<Range>) {
    forall i, j :: 0 <= i < j < |ranges| ==> ranges[i].start <= ranges[j].start && ranges[i].end <= ranges[j].end
  }

  lemma {:induction false} RangesAscend(fold: char -> string, text: string, q: string, n: nat)
    requires Folding(fold) && q != [] && |ScalarMap(fold, text)| == |Folded(fold, text)|
    ensures Nondecreasing(RangesBefore(Folded(fold, text), ScalarMap(fold, text), q, n))
    decreases n
  {
    if n > 0 {
      var lowered, scalars := Folded(fold, text), ScalarMap(fold, text);
      var before := RangesBefore(lowered, scalars, q, n - 1);
      RangesAscend(fold, text, q, n - 1);
      if OccursAt(lowered, q, n - 1) {
        forall k | 0 <= k < |before|
          ensures before[k].start <= RangeAt(scalars, n - 1, |q|).start && before[k].end <= RangeAt(scalars, n - 1, |q|).end
        {
          var i := ListedIsOccurrence(lowered, scalars, q, n - 1, before[k]);
          MapIsMonotone(fold, text, i, n - 1);
          MapIsMonotone(fold, text, i + |q| - 1, n - 1 + |q| - 1);
        }
      }
    }
  }

  /** Starts and ends never go back, even where one character folds to several. */
  lemma MatchRangesAscend(fold: char -> string, text: string, query: string)
    requires Folding(fold)
    ensures Nondecreasing(MatchRanges(fold, text, query))
  {
    var q, lowered := Folded(fold, query), Folded(fold, text);
    if q != [] && |q| <= |lowered| {
      RangesAscend(fold, text, q, |lowered| - |q| + 1);
    }
  }

  // ---------- Windows ----------

  /**
   Searching a part of the text finds exactly the text's own ranges that lie inside the part,
   shifted: none is invented at the cut, and none inside is lost.
   */
  lemma WindowRanges(fold: char -> string, text: string, query: string, a: nat, b: nat, r: Range)
    requires Folding(fold) && a <= b <= |text|
    ensures r in MatchRanges(fold, text[a..b], query) <==>
            r.Shift(a) in MatchRanges(fold, text, query) && r.end + a <= b
  {
    if r in MatchRanges(fold, text[a..b], query) {
      WindowRangeIsReal(fold, text, query, a, b, r);
    } else if r.Shift(a) in MatchRanges(fold, text, query) && r.end + a <= b {
      InnerRangeIsFound(fold, text, query, a, b, r);
    }
  }

  /** Position i of a part is position i plus what precedes the part, and comes from the shifted character. */
  lemma ShiftedMap(fold: char -> string, text: string, a: nat, b: nat, i: nat)
    requires Folding(fold) && a <= b <= |text| && i < |Folded(fold, text[a..b])|
    ensures i + FoldedLength(fold, text, a) < |Folded(fold, text)|
    ensures ScalarMap(fold, text)[i + FoldedLength(fold, text, a)] == ScalarMap(fold, text[a..b])[i] + a
  {
    var part := text[a..b];
    SliceFolds(fold, text, a, b);
    MapCovers(fold, part, i);
    var k := ScalarMap(fold, part)[i];
    PartLength(fold, text, a, b, k);
    PartLength(fold, text, a, b, k + 1);
    CoverDecides(fold, text, i + FoldedLength(fold, text, a), k + a);
  }

  lemma PartLength(fold: char -> string, text: string, a: nat, b: nat, k: nat)
    requires a <= b <= |text| && k <= b - a
    ensures FoldedLength(fold, text, a + k) == FoldedLength(fold, text, a) + FoldedLength(fold, text[a..b], k)
  {
    FoldedConcat(fold, text[..a], text[a..b][..k]);
    assert text[..a] + text[a..b][..k] == text[..a + k];
  }

  /** An occurrence in a part, and the same occurrence in the text. */
  lemma ShiftedOccurrence(fold: char -> string, text: string, q: string, a: nat, b: nat, i: nat, r: Range)
    requires Folding(fold) && a <= b <= |text| && q != [] && i + |q| <= |Folded(fold, text[a..b])|
    ensures Yields(fold, text[a..b], q, i, r) <==> Yields(fold, text, q, i + FoldedLength(fold, text, a), r.Shift(a))
  {
    SliceFolds(fold, text, a, b);
    OccursInSlice(Folded(fold, text), q, FoldedLength(fold, text, a), FoldedLength(fold, text, b), i + FoldedLength(fold, text, a));
    ShiftedMap(fold, text, a, b, i);
    ShiftedMap(fold, text, a, b, i + |q| - 1);
  }

  lemma WindowRangeIsReal(fold: char -> string, text: string, query: string, a: nat, b: nat, r: Range)
    requires Folding(fold) && a <= b <= |text| && r in MatchRanges(fold, text[a..b], query)
    ensures r.Shift(a) in MatchRanges(fold, text, query) && r.end + a <= b
  {
    var q := Folded(fold, query);
    var i := ListedIsYielded(fold, text[a..b], query, r);
    ShiftedOccurrence(fold, text, q, a, b, i, r);
    YieldedIsListed(fold, text, query, i + FoldedLength(fold, text, a), r.Shift(a));
    RangeCovers(fold, text[a..b], q, i, r);
  }

  /** An occurrence whose range lies in a part begins and ends in the part's folding. */
  lemma InnerOccurrence(fold: char -> string, text: string, q: string, a: nat, b: nat, j: nat, r: Range)
    requires Folding(fold) && a <= b <= |text| && a <= r.start && r.end <= b && Yields(fold, text, q, j, r)
    ensures FoldedLength(fold, text, a) <= j && j + |q| <= FoldedLength(fold, text, b)
  {
    RangeCovers(fold, text, q, j, r);
    FoldedGrows(fold, text, a, r.start);
    FoldedGrows(fold, text, r.end, b);
  }

  lemma InnerRangeIsFound(fold: char -> string, text: string, query: string, a: nat, b: nat, r: Range)
    requires Folding(fold) && a <= b <= |text|
    requires r.Shift(a) in MatchRanges(fold, text, query) && r.end + a <= b
    ensures r in MatchRanges(fold, text[a..b], query)
  {
    var q := Folded(fold, query);
    var j := ListedIsYielded(fold, text, query, r.Shift(a));
    InnerOccurrence(fold, text, q, a, b, j, r.Shift(a));
    SliceFolds(fold, text, a, b);
    var i := j - FoldedLength(fold, text, a);
    ShiftedOccurrence(fold, text, q, a, b, i, r);
    YieldedIsListed(fold, text[a..b], query, i, r);
  }

  /** The folded text and its map, built together character by character. */
  method LowercaseWithMap(fold: char -> string, text: string) returns (lowered: string, scalars: seq<nat>)
    ensures lowered == Folded(fold, text) && scalars == ScalarMap(fold, text)
  {
    lowered, scalars := [], [];
    for k := 0 to |text|
      invariant lowered == Folded(fold, text[..k]) && scalars == ScalarMap(fold, text[..k])
    {
      assert text[..k + 1][..k] == text[..k];
      var folded := fold(text[k]);
      for i := 0 to |folded|
        invariant lowered == Folded(fold, text[..k]) + folded[..i]
        invariant scalars == ScalarMap(fold, text[..k]) + Repeated(k, i)
      {
        lowered, scalars := lowered + [folded[i]], scalars + [k];
        assert folded[..i + 1] == folded[..i] + [folded[i]];
        assert Repeated(k, i + 1) == Repeated(k, i) + [k];
      }
      assert folded[..|folded|] == folded;
    }
    assert text[..|text|] == text;
  }
}
