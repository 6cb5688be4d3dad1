/** Python's `bytes` order on UTF-16 (big endian) encodings, which orders member names. */
module Utf16Order {
  /** Big-endian UTF-16: two bytes, or four for a surrogate pair. */
  function EncodeChar(c: char): (bytes: seq<int>)
    ensures |bytes| == if c as int < 0x10000 then 2 else 4
  {
    var u := c as int;
    if u < 0x10000 then [u / 256, u % 256]
    else
      var x := u - 0x10000;
      var hi, lo := 0xD800 + x / 0x400, 0xDC00 + x % 0x400;
      [hi / 256, hi % 256, lo / 256, lo % 256]
  }

  function Encode(s: string): seq<int> {
    if s == [] then [] else EncodeChar(s[0]) + Encode(s[1..])
  }

  /** Lexicographic order on byte strings. */
  predicate Before(a: seq<int>, b: seq<int>) {
    b != [] && (a == [] || a[0] < b[0] || (a[0] == b[0] && Before(a[1..], b[1..])))
  }

  predicate Less(s: string, t: string) {
    Before(Encode(s), Encode(t))
  }

  lemma {:induction false} BeforeTotal(a: seq<int>, b: seq<int>)
    requires a != b
    ensures Before(a, b) || Before(b, a)
  {
    if a != [] && b != [] && a[0] == b[0] {
      assert a == [a[0]] + a[1..] && b == [b[0]] + b[1..];
      BeforeTotal(a[1..], b[1..]);
    }
  }

  lemma {:induction false} BeforeIrreflexive(a: seq<int>)
    ensures !Before(a, a)
  {
    if a != [] {
      BeforeIrreflexive(a[1..]);
    }
  }

  lemma {:induction false} BeforeTransitive(a: seq<int>, b: seq<int>, c: seq<int>)
    requires Before(a, b) && Before(b, c)
    ensures Before(a, c)
  {
    if a != [] && a[0] == b[0] == c[0] {
      BeforeTransitive(a[1..], b[1..], c[1..]);
    }
  }

  /** Only a surrogate pair starts with a byte in D8..DB, and each encoding determines its character. */
  lemma CharInjective(c: char, d: char)
    requires EncodeChar(c)[..2] == EncodeChar(d)[..2]
    ensures |EncodeChar(c)| == |EncodeChar(d)|
    ensures EncodeChar(c) == EncodeChar(d) ==> c == d
  {
    var x, y := EncodeChar(c), EncodeChar(d);
    assert x[0] == x[..2][0] && x[1] == x[..2][1] && y[0] == y[..2][0] && y[1] == y[..2][1];
  }

  lemma {:induction false} EncodeInjective(s: string, t: string)
    requires Encode(s) == Encode(t)
    ensures s == t
  {
    if s != [] && t != [] {
      var e, x, y := Encode(s), EncodeChar(s[0]), EncodeChar(t[0]);
      assert e[..2] == x[..2] == y[..2];
      CharInjective(s[0], t[0]);
      assert x == e[..|x|] == y;
      assert Encode(s[1..]) == e[|x|..] == Encode(t[1..]);
      EncodeInjective(s[1..], t[1..]);
      assert s == [s[0]] + s[1..] && t == [t[0]] + t[1..];
    }
  }

  /** A strict total order on strings. */
  lemma LessTotal(s: string, t: string)
    requires s != t
    ensures Less(s, t) || Less(t, s)
  {
    if Encode(s) == Encode(t) {
      EncodeInjective(s, t);
    } else {
      BeforeTotal(Encode(s), Encode(t));
    }
  }

  lemma LessStrict(s: string, t: string, u: string)
    ensures !Less(s, s)
    ensures Less(s, t) && Less(t, u) ==> Less(s, u)
  {
    BeforeIrreflexive(Encode(s));
    if Less(s, t) && Less(t, u) {
      BeforeTransitive(Encode(s), Encode(t), Encode(u));
    }
  }

  /** It is not the order of code points: a surrogate pair sorts before U+FF61. */
  lemma NotCodePointOrder()
    ensures Less("\U{10000}", "\U{FF61}") && '\U{FF61}' < '\U{10000}'
  {
    var a, b := "\U{10000}", "\U{FF61}";
    assert a[0] as int == 0x10000 && b[0] as int == 0xFF61;
    assert Encode(a) == EncodeChar(a[0]) + Encode(a[1..]) && Encode(b) == EncodeChar(b[0]) + Encode(b[1..]);
  }

  // ---------- The order by characters ----------

  /** Surrogates begin with the unit D800, so characters beyond the first plane come before U+E000. */
  predicate UnitBefore(c: char, d: char) {
    var u, v := c as int, d as int;
    if (u < 0x10000) == (v < 0x10000) then u < v
    else if u < 0x10000 then u < 0xD800
    else v >= 0xE000
  }

  lemma BeforeAfterSame(common: seq<int>, a: seq<int>, b: seq<int>)
    ensures Before(common + a, common + b) <==> Before(a, b)
    decreases |common|
  {
    if common == [] {
      assert common + a == a && common + b == b;
    } else {
      assert (common + a)[1..] == common[1..] + a && (common + b)[1..] == common[1..] + b;
      BeforeAfterSame(common[1..], a, b);
    }
  }

  /** Texts that first differ in a character are ordered by it, and a text comes before its continuations. */
  lemma {:induction false} LessByCharacter(common: string, s: string, t: string)
    ensures Less(common + s, common + t) <==> Less(s, t)
    decreases |common|
  {
    if common == [] {
      assert common + s == s && common + t == t;
    } else {
      assert (common + s)[1..] == common[1..] + s && (common + t)[1..] == common[1..] + t;
      LessByCharacter(common[1..], s, t);
      BeforeAfterSame(EncodeChar(common[0]), Encode(common[1..] + s), Encode(common[1..] + t));
    }
  }

  /** A code unit as two bytes, the higher one first. */
  function Unit(u: int): seq<int> {
    [u / 256, u % 256]
  }

  lemma UnitDecides(u: int, v: int, x: seq<int>, y: seq<int>)
    requires u != v
    ensures Before(Unit(u) + x, Unit(v) + y) <==> u < v
  {
    var a, b := Unit(u) + x, Unit(v) + y;
    assert a[0] == u / 256 && a[1..][0] == u % 256 && b[0] == v / 256 && b[1..][0] == v % 256;
  }

  lemma PairDecides(u: int, v: int, x: seq<int>, y: seq<int>)
    requires u != v && 0 <= u < 0x100000 && 0 <= v < 0x100000
    ensures var a, b := Unit(0xD800 + u / 0x400), Unit(0xD800 + v / 0x400);
      Before(a + (Unit(0xDC00 + u % 0x400) + x), b + (Unit(0xDC00 + v % 0x400) + y)) <==> u < v
  {
    if u / 0x400 == v / 0x400 {
      BeforeAfterSame(Unit(0xD800 + u / 0x400), Unit(0xDC00 + u % 0x400) + x, Unit(0xDC00 + v % 0x400) + y);
      UnitDecides(0xDC00 + u % 0x400, 0xDC00 + v % 0x400, x, y);
    } else {
      UnitDecides(0xD800 + u / 0x400, 0xD800 + v / 0x400, Unit(0xDC00 + u % 0x400) + x, Unit(0xDC00 + v % 0x400) + y);
    }
  }

  /** The encoding of a character, as one unit or as a surrogate pair. */
  lemma EncodedAs(c: char, x: seq<int>)
    ensures var u := c as int;
      EncodeChar(c) + x ==
        if u < 0x10000 then Unit(u) + x
        else Unit(0xD800 + (u - 0x10000) / 0x400) + (Unit(0xDC00 + (u - 0x10000) % 0x400) + x)
  {
  }

  lemma CharsDecide(c: char, d: char, x: seq<int>, y: seq<int>)
    requires c != d
    ensures Before(EncodeChar(c) + x, EncodeChar(d) + y) <==> UnitBefore(c, d)
  {
    var u, v := c as int, d as int;
    EncodedAs(c, x);
    EncodedAs(d, y);
    if u < 0x10000 && v < 0x10000 {
      UnitDecides(u, v, x, y);
    } else if u < 0x10000 {
      UnitDecides(u, 0xD800 + (v - 0x10000) / 0x400, x, Unit(0xDC00 + (v - 0x10000) % 0x400) + y);
    } else if v < 0x10000 {
      UnitDecides(0xD800 + (u - 0x10000) / 0x400, v, Unit(0xDC00 + (u - 0x10000) % 0x400) + x, y);
    } else {
      PairDecides(u - 0x10000, v - 0x10000, x, y);
    }
  }

  /** Of two texts that begin with different characters, these decide; the empty text comes first. */
  lemma LessIsByUnits(c: char, d: char, s: string, t: string)
    requires c != d
    ensures Less([c] + s, [d] + t) <==> UnitBefore(c, d)
    ensures s != [] ==> Less([], s) && !Less(s, [])
  {
    assert ([c] + s)[1..] == s && ([d] + t)[1..] == t;
    CharsDecide(c, d, Encode(s), Encode(t));
  }
}
