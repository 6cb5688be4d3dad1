/**
 The canonical key of a JSON value: a rendering in which equal values, and only equal values, agree.
 The main result needs every rendering to be uniquely readable, so renderings are also written
 with a continuation: `Onto(v, rest)` is the key of `v` followed by `rest`.
 */
module CanonicalKey {
  import opened Json
  import Decimal
  import Utf16Order

  // ---------- The key, as the source builds it ----------

  function HexDigit(d: nat): char
    requires d < 16
  {
    "0123456789abcdef"[d]
  }

  /** `json.dumps` of one character with `ensure_ascii=False`. */
  function EscapeChar(c: char): string {
    if c == '"' then ['\\', '"']
    else if c == '\\' then ['\\', '\\']
    else if c == '\n' then ['\\', 'n']
    else if c == '\r' then ['\\', 'r']
    else if c == '\t' then ['\\', 't']
    else if c as int == 8 then ['\\', 'b']
    else if c as int == 12 then ['\\', 'f']
    else if (c as int) < 32 then ['\\', 'u', '0', '0', HexDigit(c as int / 16), HexDigit(c as int % 16)]
    else [c]
  }

  function Escape(s: string): string {
    if s == [] then [] else EscapeChar(s[0]) + Escape(s[1..])
  }

  function Quote(s: string): string {
    "\"" + Escape(s) + "\""
  }

  function Join(parts: seq<string>): string {
    if parts == [] then ""
    else if |parts| == 1 then parts[0]
    else parts[0] + "," + Join(parts[1..])
  }

  function Insert(m: Member, sorted: seq<Member>): seq<Member> {
    if sorted == [] || Utf16Order.Less(m.key, sorted[0].key) then [m] + sorted
    else [sorted[0]] + Insert(m, sorted[1..])
  }

  /** `sorted(value, key=...)`, whatever order the members were inserted in. */
  function Sort(ms: seq<Member>): (sorted: seq<Member>)
    ensures |sorted| == |ms|
    ensures forall m :: m in sorted <==> m in ms
  {
    if ms == [] then []
    else
      InsertMembers(ms[0], Sort(ms[1..]));
      assert ms == [ms[0]] + ms[1..];
      Insert(ms[0], Sort(ms[1..]))
  }

  lemma {:induction false} InsertMembers(m: Member, sorted: seq<Member>)
    ensures |Insert(m, sorted)| == |sorted| + 1
    ensures forall x :: x in Insert(m, sorted) <==> x == m || x in sorted
  {
    if sorted != [] && !Utf16Order.Less(m.key, sorted[0].key) {
      InsertMembers(m, sorted[1..]);
      assert sorted == [sorted[0]] + sorted[1..];
    }
  }

  /** `canonical_json_key`. */
  function Key(v: Value): string
    decreases v, 2
  {
    match v
    case Null => "null"
    case Bool(b) => if b then "true" else "false"
    case Int(n) => Decimal.IntText(n)
    case IntegralFloat(n) => Decimal.IntText(n)
    case Fraction(lexeme) => lexeme
    case Str(s) => Quote(s)
    case Arr(items) => "[" + Join(Keys(v, items)) + "]"
    case Obj(members) =>
      var sorted := Sort(members);
      assert forall i :: 0 <= i < |sorted| ==> sorted[i] in members;
      "{" + Join(MemberTexts(v, sorted)) + "}"
  }

  function Keys(context: Value, items: seq<Value>): (texts: seq<string>)
    requires forall i :: 0 <= i < |items| ==> items[i] < context
    ensures |texts| == |items|
    decreases context, 1, |items|
  {
    if items == [] then [] else [Key(items[0])] + Keys(context, items[1..])
  }

  function MemberTexts(context: Value, ms: seq<Member>): (texts: seq<string>)
    requires forall i :: 0 <= i < |ms| ==> ms[i].value < context
    ensures |texts| == |ms|
    decreases context, 1, |ms|
  {
    if ms == [] then []
    else [Quote(ms[0].key) + ":" + Key(ms[0].value)] + MemberTexts(context, ms[1..])
  }

  // ---------- Renderings with a continuation ----------

  function EscapeOnto(s: string, rest: string): string {
    if s == [] then rest else EscapeChar(s[0]) + EscapeOnto(s[1..], rest)
  }

  function QuoteOnto(s: string, rest: string): string {
    ['"'] + EscapeOnto(s, ['"'] + rest)
  }

  function Onto(v: Value, rest: string): string
    decreases v, 2
  {
    match v
    case Null => "null" + rest
    case Bool(b) => (if b then "true" else "false") + rest
    case Int(n) => Decimal.IntText(n) + rest
    case IntegralFloat(n) => Decimal.IntText(n) + rest
    case Fraction(lexeme) => lexeme + rest
    case Str(s) => QuoteOnto(s, rest)
    case Arr(items) => ['['] + ItemsOnto(v, items, [']'] + rest)
    case Obj(members) =>
      var sorted := Sort(members);
      assert forall i :: 0 <= i < |sorted| ==> sorted[i] in members;
      ['{'] + MembersOnto(v, sorted, ['}'] + rest)
  }

  function ItemsOnto(context: Value, items: seq<Value>, rest: string): string
    requires forall i :: 0 <= i < |items| ==> items[i] < context
    decreases context, 1, |items|
  {
    if items == [] then rest
    else Onto(items[0], if |items| == 1 then rest else [','] + ItemsOnto(context, items[1..], rest))
  }

  function MembersOnto(context: Value, ms: seq<Member>, rest: string): string
    requires forall i :: 0 <= i < |ms| ==> ms[i].value < context
    decreases context, 1, |ms|
  {
    if ms == [] then rest
    else
      QuoteOnto(ms[0].key,
                [':'] + Onto(ms[0].value, if |ms| == 1 then rest else [','] + MembersOnto(context, ms[1..], rest)))
  }

  lemma {:induction false} EscapeOntoIsEscape(s: string, rest: string)
    ensures EscapeOnto(s, rest) == Escape(s) + rest
  {
    if s != [] {
      EscapeOntoIsEscape(s[1..], rest);
      assert EscapeChar(s[0]) + (Escape(s[1..]) + rest) == EscapeChar(s[0]) + Escape(s[1..]) + rest;
    }
  }

  lemma QuoteOntoIsQuote(s: string, rest: string)
    ensures QuoteOnto(s, rest) == Quote(s) + rest
  {
    EscapeOntoIsEscape(s, ['"'] + rest);
    assert ['"'] + (Escape(s) + (['"'] + rest)) == "\"" + Escape(s) + "\"" + rest;
  }

  /** Reading the key with a continuation is appending the continuation to the key. */
  lemma {:induction false} OntoIsKey(v: Value, rest: string)
    ensures Onto(v, rest) == Key(v) + rest
    decreases v, 2
  {
    match v
    case Str(s) => QuoteOntoIsQuote(s, rest);
    case Arr(items) =>
      ItemsOntoIsJoin(v, items, [']'] + rest);
      Bracket('[', Join(Keys(v, items)), ']', rest);
    case Obj(members) =>
      var sorted := Sort(members);
      assert forall i :: 0 <= i < |sorted| ==> sorted[i] in members;
      MembersOntoIsJoin(v, sorted, ['}'] + rest);
      Bracket('{', Join(MemberTexts(v, sorted)), '}', rest);
    case _ =>
  }

  lemma Bracket(open: char, body: string, close: char, rest: string)
    ensures [open] + (body + ([close] + rest)) == [open] + body + [close] + rest
  {
  }

  lemma {:induction false} ItemsOntoIsJoin(context: Value, items: seq<Value>, rest: string)
    requires forall i :: 0 <= i < |items| ==> items[i] < context
    ensures ItemsOnto(context, items, rest) == Join(Keys(context, items)) + rest
    decreases context, 1, |items|
  {
    var texts := Keys(context, items);
    if items != [] {
      var more := ItemsOnto(context, items[1..], rest);
      OntoIsKey(items[0], if |items| == 1 then rest else [','] + more);
      if |items| > 1 {
        ItemsOntoIsJoin(context, items[1..], rest);
        assert texts[0] == Key(items[0]) && texts[1..] == Keys(context, items[1..]);
        Separated(texts[0], Join(texts[1..]), rest);
      }
    }
  }

  lemma Separated(first: string, others: string, rest: string)
    ensures first + ([','] + (others + rest)) == first + "," + others + rest
  {
  }

  lemma {:induction false} MembersOntoIsJoin(context: Value, ms: seq<Member>, rest: string)
    requires forall i :: 0 <= i < |ms| ==> ms[i].value < context
    ensures MembersOnto(context, ms, rest) == Join(MemberTexts(context, ms)) + rest
    decreases context, 1, |ms|
  {
    var texts := MemberTexts(context, ms);
    if ms != [] {
      var more := if |ms| == 1 then rest else [','] + MembersOnto(context, ms[1..], rest);
      OntoIsKey(ms[0].value, more);
      QuoteOntoIsQuote(ms[0].key, [':'] + Onto(ms[0].value, more));
      Colon(Quote(ms[0].key), Key(ms[0].value), more);
      if |ms| > 1 {
        MembersOntoIsJoin(context, ms[1..], rest);
        assert texts[1..] == MemberTexts(context, ms[1..]);
        Separated(texts[0], Join(texts[1..]), rest);
      }
    }
  }

  lemma Colon(name: string, value: string, more: string)
    ensures name + ([':'] + (value + more)) == name + ":" + value + more
  {
  }

  // ---------- Unique readability ----------

  /** A continuation that ends a number. */
  predicate Stops(rest: string) {
    rest == [] || !IsNumberChar(rest[0])
  }

  lemma EscapeCharReadable(c: char, d: char, x: string, y: string)
    requires EscapeChar(c) + x == EscapeChar(d) + y
    ensures c == d && x == y
  {
    var e, f := EscapeChar(c), EscapeChar(d);
    var w := e + x;
    assert w[0] == e[0] == f[0];
    if |e| > 1 {
      assert w[1] == e[1] == f[1];
    }
    if |e| == 6 {
      assert w[4] == e[4] == f[4] && w[5] == e[5] == f[5];
    }
    assert |e| == |f|;
    assert c == d;
    assert x == w[|e|..] == y;
  }

  lemma SameTail(c: char, x: string, y: string)
    requires [c] + x == [c] + y
    ensures x == y
  {
    assert x == ([c] + x)[1..] && y == ([c] + y)[1..];
  }

  /** Two lists that continue alike after an element both end there, or both go on. */
  lemma SameCloser(close: char, last: bool, other: bool, x: string, y: string, p: string, q: string, more: string, rest: string)
    requires close != ',' && p == q
    requires p == (if last then [close] + x else [','] + more) && q == (if other then [close] + y else [','] + rest)
    ensures last == other && if last then x == y else more == rest
  {
    assert p[0] == q[0];
    SameTail(p[0], if last then x else more, if other then y else rest);
  }

  lemma QuoteEndsString(s: string, x: string)
    ensures EscapeOnto(s, ['"'] + x)[0] == '"' <==> s == []
  {
  }

  /** The closing quote is never mistaken for a character of the string. */
  lemma {:induction false} EscapeReadable(s: string, t: string, x: string, y: string)
    requires EscapeOnto(s, ['"'] + x) == EscapeOnto(t, ['"'] + y)
    ensures s == t && x == y
  {
    QuoteEndsString(s, x);
    QuoteEndsString(t, y);
    if s == [] {
      assert x == (['"'] + x)[1..] == (['"'] + y)[1..] == y;
    } else {
      EscapeCharReadable(s[0], t[0], EscapeOnto(s[1..], ['"'] + x), EscapeOnto(t[1..], ['"'] + y));
      EscapeReadable(s[1..], t[1..], x, y);
      assert s == [s[0]] + s[1..] && t == [t[0]] + t[1..];
    }
  }

  lemma QuoteReadable(s: string, t: string, x: string, y: string)
    requires QuoteOnto(s, x) == QuoteOnto(t, y)
    ensures s == t && x == y
  {
    assert EscapeOnto(s, ['"'] + x) == QuoteOnto(s, x)[1..] == QuoteOnto(t, y)[1..] == EscapeOnto(t, ['"'] + y);
    EscapeReadable(s, t, x, y);
  }

  /** How many number characters a text starts with. */
  function NumberPrefix(w: string): nat {
    if w == [] || !IsNumberChar(w[0]) then 0 else 1 + NumberPrefix(w[1..])
  }

  lemma {:induction false} NumberPrefixOf(a: string, x: string)
    requires (forall i :: 0 <= i < |a| ==> IsNumberChar(a[i])) && Stops(x)
    ensures NumberPrefix(a + x) == |a|
  {
    if a == [] {
      assert a + x == x;
    } else {
      assert (a + x)[1..] == a[1..] + x;
      NumberPrefixOf(a[1..], x);
    }
  }

  lemma NumberReadable(a: string, b: string, x: string, y: string)
    requires forall i :: 0 <= i < |a| ==> IsNumberChar(a[i])
    requires forall i :: 0 <= i < |b| ==> IsNumberChar(b[i])
    requires Stops(x) && Stops(y) && a + x == b + y
    ensures a == b && x == y
  {
    NumberPrefixOf(a, x);
    NumberPrefixOf(b, y);
    assert a == (a + x)[..|a|] == b && x == (a + x)[|a|..] == y;
  }

  /** The lexeme of a number value. */
  function NumberText(v: Value): string
    requires v.Int? || v.IntegralFloat? || v.Fraction?
  {
    if v.Fraction? then v.lexeme else Decimal.IntText(v.n)
  }

  predicate IsNumber(v: Value) {
    v.Int? || v.IntegralFloat? || v.Fraction?
  }

  lemma NumberTextIsNumber(v: Value)
    requires IsNumber(v) && Valid(v)
    ensures NumberText(v) != [] && forall i :: 0 <= i < |NumberText(v)| ==> IsNumberChar(NumberText(v)[i])
    ensures !v.Fraction? ==> forall i :: 0 <= i < |NumberText(v)| ==> NumberText(v)[i] != '.' && NumberText(v)[i] != 'e'
  {
  }

  /** The first character tells which kind of value a text starts with. */
  datatype Kind = NullKind | TrueKind | FalseKind | NumberKind | StringKind | ArrayKind | ObjectKind | NoKind

  function KindOfChar(c: char): Kind {
    if c == 'n' then NullKind
    else if c == 't' then TrueKind
    else if c == 'f' then FalseKind
    else if c == '"' then StringKind
    else if c == '[' then ArrayKind
    else if c == '{' then ObjectKind
    else if IsNumberChar(c) then NumberKind
    else NoKind
  }

  function KindOf(v: Value): Kind {
    match v
    case Null => NullKind
    case Bool(b) => if b then TrueKind else FalseKind
    case Str(_) => StringKind
    case Arr(_) => ArrayKind
    case Obj(_) => ObjectKind
    case _ => NumberKind
  }

  lemma FirstChar(v: Value, rest: string)
    requires Valid(v)
    ensures Onto(v, rest) != [] && KindOfChar(Onto(v, rest)[0]) == KindOf(v)
  {
    match v
    case Int(_) => FirstCharOfNumber(v, rest);
    case IntegralFloat(_) => FirstCharOfNumber(v, rest);
    case Fraction(_) => FirstCharOfNumber(v, rest);
    case Null => assert Onto(v, rest)[0] == 'n';
    case Bool(b) => assert Onto(v, rest)[0] == if b then 't' else 'f';
    case _ =>
  }

  lemma FirstCharOfNumber(v: Value, rest: string)
    requires Valid(v) && IsNumber(v)
    ensures Onto(v, rest) != [] && KindOfChar(Onto(v, rest)[0]) == NumberKind
  {
    NumberTextIsNumber(v);
    var text := NumberText(v);
    assert Onto(v, rest) == text + rest;
    assert Onto(v, rest)[0] == text[0];
    NumberCharsAreNumbers(text[0]);
  }

  lemma NumberCharsAreNumbers(c: char)
    requires IsNumberChar(c)
    ensures KindOfChar(c) == NumberKind
  {
  }

  /** Two values whose texts, each with a continuation that ends a number, agree, are equal as JSON. */
  lemma {:induction false} Readable(a: Value, b: Value, x: string, y: string)
    requires Valid(a) && Valid(b) && Stops(x) && Stops(y) && Onto(a, x) == Onto(b, y)
    ensures Equal(a, b) && x == y
    decreases a, 2
  {
    FirstChar(a, x);
    FirstChar(b, y);
    var w := Onto(a, x);
    match a
    case Null => assert x == w[4..] == y;
    case Bool(v) => assert x == w[if v then 4 else 5..] == y;
    case Int(_) => NumbersReadable(a, b, x, y);
    case IntegralFloat(_) => NumbersReadable(a, b, x, y);
    case Fraction(_) => NumbersReadable(a, b, x, y);
    case Str(s) => QuoteReadable(s, b.s, x, y);
    case Arr(items) =>
      assert ItemsOnto(a, items, [']'] + x) == w[1..] == ItemsOnto(b, b.items, [']'] + y);
      ItemsReadable(a, b, items, b.items, x, y);
    case Obj(members) =>
      var ms, ns := Sort(members), Sort(b.members);
      assert forall i :: 0 <= i < |ms| ==> ms[i] in members;
      assert forall i :: 0 <= i < |ns| ==> ns[i] in b.members;
      assert MembersOnto(a, ms, ['}'] + x) == w[1..] == MembersOnto(b, ns, ['}'] + y);
      MembersReadable(a, b, ms, ns, x, y);
      PermutedEqual(members, b.members, ms, ns);
  }

  lemma NumbersReadable(a: Value, b: Value, x: string, y: string)
    requires Valid(a) && Valid(b) && IsNumber(a) && IsNumber(b)
    requires Stops(x) && Stops(y) && Onto(a, x) == Onto(b, y)
    ensures Equal(a, b) && x == y
  {
    NumberTextIsNumber(a);
    NumberTextIsNumber(b);
    assert Onto(a, x) == NumberText(a) + x && Onto(b, y) == NumberText(b) + y;
    NumberReadable(NumberText(a), NumberText(b), x, y);
    assert a.Fraction? == b.Fraction?;
    if !a.Fraction? {
      Decimal.IntTextInjective(a.n, b.n);
    }
  }

  /** The first items agree, and both lists end there or go on alike. */
  lemma {:induction false} FirstItemReadable(
    a: Value, b: Value, xs: seq<Value>, ys: seq<Value>, x: string, y: string, more: string, rest: string)
    requires xs != [] && ys != []
    requires forall i :: 0 <= i < |xs| ==> xs[i] < a && Valid(xs[i])
    requires forall i :: 0 <= i < |ys| ==> ys[i] < b && Valid(ys[i])
    requires more == if |xs| == 1 then [] else ItemsOnto(a, xs[1..], [']'] + x)
    requires rest == if |ys| == 1 then [] else ItemsOnto(b, ys[1..], [']'] + y)
    requires ItemsOnto(a, xs, [']'] + x) == ItemsOnto(b, ys, [']'] + y)
    ensures Equal(xs[0], ys[0])
    ensures (|xs| == 1) == (|ys| == 1) && if |xs| == 1 then x == y else more == rest
    decreases a, 0
  {
    var p := if |xs| == 1 then [']'] + x else [','] + more;
    var q := if |ys| == 1 then [']'] + y else [','] + rest;
    Readable(xs[0], ys[0], p, q);
    SameCloser(']', |xs| == 1, |ys| == 1, x, y, p, q, more, rest);
  }

  lemma {:induction false} ItemsReadable(a: Value, b: Value, xs: seq<Value>, ys: seq<Value>, x: string, y: string)
    requires forall i :: 0 <= i < |xs| ==> xs[i] < a && Valid(xs[i])
    requires forall i :: 0 <= i < |ys| ==> ys[i] < b && Valid(ys[i])
    requires ItemsOnto(a, xs, [']'] + x) == ItemsOnto(b, ys, [']'] + y)
    ensures |xs| == |ys| && x == y
    ensures forall i :: 0 <= i < |xs| ==> Equal(xs[i], ys[i])
    decreases a, 1, |xs|
  {
    EndOfItems(a, xs, x);
    EndOfItems(b, ys, y);
    if xs == [] {
      SameTail(']', x, y);
    } else {
      var more := if |xs| == 1 then [] else ItemsOnto(a, xs[1..], [']'] + x);
      var rest := if |ys| == 1 then [] else ItemsOnto(b, ys[1..], [']'] + y);
      FirstItemReadable(a, b, xs, ys, x, y, more, rest);
      if |xs| > 1 {
        ItemsReadable(a, b, xs[1..], ys[1..], x, y);
        assert forall i :: 1 <= i < |xs| ==> xs[i] == xs[1..][i - 1] && ys[i] == ys[1..][i - 1];
      }
    }
  }

  lemma EndOfItems(context: Value, xs: seq<Value>, x: string)
    requires forall i :: 0 <= i < |xs| ==> xs[i] < context && Valid(xs[i])
    ensures ItemsOnto(context, xs, [']'] + x) != []
    ensures ItemsOnto(context, xs, [']'] + x)[0] == ']' <==> xs == []
  {
    if xs != [] {
      FirstChar(xs[0], if |xs| == 1 then [']'] + x else [','] + ItemsOnto(context, xs[1..], [']'] + x));
    }
  }

  lemma {:induction false} MemberReadable(m: Member, n: Member, p: string, q: string)
    requires Valid(m.value) && Valid(n.value) && Stops(p) && Stops(q)
    requires QuoteOnto(m.key, [':'] + Onto(m.value, p)) == QuoteOnto(n.key, [':'] + Onto(n.value, q))
    ensures m.key == n.key && Equal(m.value, n.value) && p == q
    decreases m.value, 3
  {
    QuoteReadable(m.key, n.key, [':'] + Onto(m.value, p), [':'] + Onto(n.value, q));
    SameTail(':', Onto(m.value, p), Onto(n.value, q));
    Readable(m.value, n.value, p, q);
  }

  lemma MembersHead(context: Value, ms: seq<Member>, rest: string, p: string)
    requires ms != [] && forall i :: 0 <= i < |ms| ==> ms[i].value < context
    requires p == if |ms| == 1 then rest else [','] + MembersOnto(context, ms[1..], rest)
    ensures MembersOnto(context, ms, rest) == QuoteOnto(ms[0].key, [':'] + Onto(ms[0].value, p))
  {
  }

  lemma {:induction false} FirstMemberReadable(
    a: Value, b: Value, ms: seq<Member>, ns: seq<Member>, x: string, y: string, more: string, rest: string)
    requires ms != [] && ns != []
    requires forall i :: 0 <= i < |ms| ==> ms[i].value < a && Valid(ms[i].value)
    requires forall i :: 0 <= i < |ns| ==> ns[i].value < b && Valid(ns[i].value)
    requires more == if |ms| == 1 then [] else MembersOnto(a, ms[1..], ['}'] + x)
    requires rest == if |ns| == 1 then [] else MembersOnto(b, ns[1..], ['}'] + y)
    requires MembersOnto(a, ms, ['}'] + x) == MembersOnto(b, ns, ['}'] + y)
    ensures ms[0].key == ns[0].key && Equal(ms[0].value, ns[0].value)
    ensures (|ms| == 1) == (|ns| == 1) && if |ms| == 1 then x == y else more == rest
    decreases a, 0
  {
    var p := if |ms| == 1 then ['}'] + x else [','] + more;
    var q := if |ns| == 1 then ['}'] + y else [','] + rest;
    MembersHead(a, ms, ['}'] + x, p);
    MembersHead(b, ns, ['}'] + y, q);
    MemberReadable(ms[0], ns[0], p, q);
    SameCloser('}', |ms| == 1, |ns| == 1, x, y, p, q, more, rest);
  }

  lemma {:induction false} MembersReadable(a: Value, b: Value, ms: seq<Member>, ns: seq<Member>, x: string, y: string)
    requires forall i :: 0 <= i < |ms| ==> ms[i].value < a && Valid(ms[i].value)
    requires forall i :: 0 <= i < |ns| ==> ns[i].value < b && Valid(ns[i].value)
    requires MembersOnto(a, ms, ['}'] + x) == MembersOnto(b, ns, ['}'] + y)
    ensures |ms| == |ns| && x == y
    ensures forall i :: 0 <= i < |ms| ==> ms[i].key == ns[i].key && Equal(ms[i].value, ns[i].value)
    decreases a, 1, |ms|
  {
    EndOfMembers(a, ms, x);
    EndOfMembers(b, ns, y);
    if ms == [] {
      SameTail('}', x, y);
    } else {
      var more := if |ms| == 1 then [] else MembersOnto(a, ms[1..], ['}'] + x);
      var rest := if |ns| == 1 then [] else MembersOnto(b, ns[1..], ['}'] + y);
      FirstMemberReadable(a, b, ms, ns, x, y, more, rest);
      if |ms| > 1 {
        MembersReadable(a, b, ms[1..], ns[1..], x, y);
        MembersFromRest(ms, ns);
      }
    }
  }

  lemma MembersFromRest(ms: seq<Member>, ns: seq<Member>)
    requires |ms| == |ns| > 0 && ms[0].key == ns[0].key && Equal(ms[0].value, ns[0].value)
    requires forall i :: 0 <= i < |ms[1..]| ==> ms[1..][i].key == ns[1..][i].key && Equal(ms[1..][i].value, ns[1..][i].value)
    ensures forall i :: 0 <= i < |ms| ==> ms[i].key == ns[i].key && Equal(ms[i].value, ns[i].value)
  {
    forall i | 1 <= i < |ms| ensures ms[i].key == ns[i].key && Equal(ms[i].value, ns[i].value) {
      assert ms[i] == ms[1..][i - 1] && ns[i] == ns[1..][i - 1];
    }
  }

  lemma EndOfMembers(context: Value, ms: seq<Member>, x: string)
    requires forall i :: 0 <= i < |ms| ==> ms[i].value < context
    ensures MembersOnto(context, ms, ['}'] + x) != []
    ensures MembersOnto(context, ms, ['}'] + x)[0] == '}' <==> ms == []
  {
  }

  /** Members that agree in some common order agree as unordered members. */
  lemma PermutedEqual(ms: seq<Member>, ns: seq<Member>, p: seq<Member>, q: seq<Member>)
    requires |p| == |q| == |ms| == |ns|
    requires (forall m :: m in ms ==> m in p) && (forall n :: n in q ==> n in ns)
    requires forall i :: 0 <= i < |p| ==> p[i].key == q[i].key && Equal(p[i].value, q[i].value)
    ensures Equal(Obj(ms), Obj(ns))
  {
    forall i | 0 <= i < |ms|
      ensures HasEqual(ms[i], ns)
    {
      assert ms[i] in ms && ms[i] in p;
      var k :| 0 <= k < |p| && p[k] == ms[i];
      assert q[k] in q && q[k] in ns;
    }
  }

  // ---------- Equal values have equal keys ----------

  /** Strictly increasing member names. */
  predicate Sorted(ms: seq<Member>) {
    forall i, j :: 0 <= i < j < |ms| ==> Utf16Order.Less(ms[i].key, ms[j].key)
  }

  lemma {:induction false} InsertSorted(m: Member, sorted: seq<Member>)
    requires Sorted(sorted) && forall i :: 0 <= i < |sorted| ==> sorted[i].key != m.key
    ensures Sorted(Insert(m, sorted))
  {
    if sorted != [] {
      var rest := sorted[1..];
      if Utf16Order.Less(m.key, sorted[0].key) {
        forall j | 0 <= j < |sorted|
          ensures Utf16Order.Less(m.key, sorted[j].key)
        {
          Utf16Order.LessStrict(m.key, sorted[0].key, sorted[j].key);
        }
      } else {
        Utf16Order.LessTotal(m.key, sorted[0].key);
        InsertSorted(m, rest);
        InsertMembers(m, rest);
        var tail := Insert(m, rest);
        forall j | 0 <= j < |tail|
          ensures Utf16Order.Less(sorted[0].key, tail[j].key)
        {
          assert tail[j] in tail;
          if tail[j] != m {
            var k :| 0 <= k < |rest| && rest[k] == tail[j];
            assert rest[k] == sorted[k + 1];
          }
        }
      }
    }
  }

  lemma {:induction false} SortSorts(ms: seq<Member>)
    requires DistinctKeys(ms)
    ensures Sorted(Sort(ms))
  {
    if ms != [] {
      var rest := ms[1..];
      assert DistinctKeys(rest);
      SortSorts(rest);
      forall i | 0 <= i < |Sort(rest)|
        ensures Sort(rest)[i].key != ms[0].key
      {
        assert Sort(rest)[i] in rest;
        var k :| 0 <= k < |rest| && rest[k] == Sort(rest)[i];
        assert rest[k] == ms[k + 1];
      }
      InsertSorted(ms[0], Sort(rest));
    }
  }

  function Names(ms: seq<Member>): set<string> {
    set i | 0 <= i < |ms| :: ms[i].key
  }

  lemma {:induction false} DistinctNames(ms: seq<Member>)
    requires DistinctKeys(ms)
    ensures |Names(ms)| == |ms|
  {
    if ms != [] {
      var n := |ms| - 1;
      DistinctNames(ms[..n]);
      assert Names(ms) == Names(ms[..n]) + {ms[n].key};
    }
  }

  /** Two strictly sorted lists over the same names list them in the same order. */
  lemma {:induction false} SameNamesSameOrder(p: seq<Member>, q: seq<Member>)
    requires Sorted(p) && Sorted(q) && Names(p) == Names(q)
    ensures |p| == |q| && forall i :: 0 <= i < |p| ==> p[i].key == q[i].key
  {
    NoNames(p);
    NoNames(q);
    if p != [] {
      LeastName(p, q);
      SortedTail(p);
      SortedTail(q);
      assert Names(p[1..]) == Names(q[1..]);
      SameNamesSameOrder(p[1..], q[1..]);
      forall i | 0 <= i < |p|
        ensures p[i].key == q[i].key
      {
        if i > 0 {
          assert p[i] == p[1..][i - 1] && q[i] == q[1..][i - 1];
        }
      }
    }
  }

  lemma NoNames(p: seq<Member>)
    ensures p == [] <==> Names(p) == {}
  {
    if p != [] {
      assert p[0].key in Names(p);
    }
  }

  lemma LeastName(p: seq<Member>, q: seq<Member>)
    requires Sorted(p) && Sorted(q) && Names(p) == Names(q) && p != [] && q != []
    ensures p[0].key == q[0].key
  {
    assert p[0].key in Names(q) && q[0].key in Names(p);
    var i :| 0 <= i < |q| && q[i].key == p[0].key;
    var j :| 0 <= j < |p| && p[j].key == q[0].key;
    Utf16Order.LessStrict(p[0].key, q[0].key, p[0].key);
  }

  lemma SortedTail(p: seq<Member>)
    requires Sorted(p) && p != []
    ensures Sorted(p[1..]) && Names(p[1..]) == Names(p) - {p[0].key}
  {
    Utf16Order.LessStrict(p[0].key, p[0].key, p[0].key);
    forall i | 0 <= i < |p[1..]|
      ensures p[1..][i].key in Names(p) && p[1..][i].key != p[0].key
    {
      assert p[1..][i] == p[i + 1];
    }
    forall name | name in Names(p) - {p[0].key}
      ensures name in Names(p[1..])
    {
      var i :| 0 <= i < |p| && p[i].key == name;
      assert p[1..][i - 1] == p[i];
    }
  }

  lemma SortNames(ms: seq<Member>)
    ensures Names(Sort(ms)) == Names(ms)
  {
    forall i | 0 <= i < |ms|
      ensures ms[i].key in Names(Sort(ms))
    {
      assert ms[i] in Sort(ms);
    }
    forall i | 0 <= i < |ms|
      ensures Sort(ms)[i].key in Names(ms)
    {
      assert Sort(ms)[i] in ms;
    }
  }

  /** Objects equal as JSON have the same names, so they sort to the same order of names. */
  lemma EqualObjectsSortAlike(ms: seq<Member>, ns: seq<Member>)
    requires DistinctKeys(ms) && DistinctKeys(ns) && Equal(Obj(ms), Obj(ns))
    ensures var p, q := Sort(ms), Sort(ns);
      && |p| == |q| && Sorted(q)
      && forall i :: 0 <= i < |p| ==> p[i].key == q[i].key
  {
    forall i | 0 <= i < |ms|
      ensures ms[i].key in Names(ns)
    {
      assert HasEqual(ms[i], ns);
    }
    DistinctNames(ms);
    DistinctNames(ns);
    SubsetOfSameSize(Names(ms), Names(ns));
    SortNames(ms);
    SortNames(ns);
    SortSorts(ms);
    SortSorts(ns);
    SameNamesSameOrder(Sort(ms), Sort(ns));
  }

  lemma {:induction false} SubsetOfSameSize<T>(a: set<T>, b: set<T>)
    requires a <= b && |a| == |b|
    ensures a == b
  {
    if a != {} {
      var x :| x in a;
      SubsetOfSameSize(a - {x}, b - {x});
    }
  }

  /** A member after sorting has its equal at the same position. */
  lemma MemberAt(ms: seq<Member>, ns: seq<Member>, p: seq<Member>, q: seq<Member>, i: nat)
    requires Equal(Obj(ms), Obj(ns)) && |p| == |q| && i < |p| && Sorted(q)
    requires (forall m :: m in p ==> m in ms) && (forall n :: n in ns ==> n in q)
    requires forall k :: 0 <= k < |p| ==> p[k].key == q[k].key
    ensures Equal(p[i].value, q[i].value)
  {
    assert p[i] in ms;
    var k :| 0 <= k < |ms| && ms[k] == p[i];
    assert HasEqual(ms[k], ns);
    var j :| 0 <= j < |ns| && ms[k].key == ns[j].key && Equal(ms[k].value, ns[j].value);
    assert ns[j] in q;
    var l :| 0 <= l < |q| && q[l] == ns[j];
    Utf16Order.LessStrict(q[i].key, q[i].key, q[i].key);
    assert l == i;
  }

  lemma {:induction false} EqualOnto(a: Value, b: Value, rest: string)
    requires Valid(a) && Valid(b) && Equal(a, b)
    ensures Onto(a, rest) == Onto(b, rest)
    decreases a, 2
  {
    match a
    case Arr(items) => EqualItemsOnto(a, b, items, b.items, [']'] + rest);
    case Obj(members) =>
      var p, q := Sort(members), Sort(b.members);
      EqualObjectsSortAlike(members, b.members);
      forall i | 0 <= i < |p|
        ensures p[i] in members && q[i] in b.members && Equal(p[i].value, q[i].value)
      {
        MemberAt(members, b.members, p, q, i);
      }
      EqualMembersOnto(a, b, p, q, ['}'] + rest);
    case _ =>
  }

  lemma {:induction false} EqualItemsOnto(a: Value, b: Value, xs: seq<Value>, ys: seq<Value>, rest: string)
    requires |xs| == |ys|
    requires forall i :: 0 <= i < |xs| ==> xs[i] < a && Valid(xs[i])
    requires forall i :: 0 <= i < |ys| ==> ys[i] < b && Valid(ys[i])
    requires forall i :: 0 <= i < |xs| ==> Equal(xs[i], ys[i])
    ensures ItemsOnto(a, xs, rest) == ItemsOnto(b, ys, rest)
    decreases a, 1, |xs|
  {
    if xs != [] {
      EqualItemsOnto(a, b, xs[1..], ys[1..], rest);
      EqualOnto(xs[0], ys[0], if |xs| == 1 then rest else [','] + ItemsOnto(a, xs[1..], rest));
    }
  }

  lemma {:induction false} EqualMembersOnto(a: Value, b: Value, ms: seq<Member>, ns: seq<Member>, rest: string)
    requires |ms| == |ns|
    requires forall i :: 0 <= i < |ms| ==> ms[i].value < a && Valid(ms[i].value)
    requires forall i :: 0 <= i < |ns| ==> ns[i].value < b && Valid(ns[i].value)
    requires forall i :: 0 <= i < |ms| ==> ms[i].key == ns[i].key && Equal(ms[i].value, ns[i].value)
    ensures MembersOnto(a, ms, rest) == MembersOnto(b, ns, rest)
    decreases a, 1, |ms|
  {
    if ms != [] {
      EqualMembersOnto(a, b, ms[1..], ns[1..], rest);
      EqualOnto(ms[0].value, ns[0].value, if |ms| == 1 then rest else [','] + MembersOnto(a, ms[1..], rest));
    }
  }

  /** The key decides equality as JSON, both ways, for all values. */
  lemma KeyDecidesEquality(a: Value, b: Value)
    requires Valid(a) && Valid(b)
    ensures Key(a) == Key(b) <==> Equal(a, b)
  {
    OntoIsKey(a, []);
    OntoIsKey(b, []);
    assert Key(a) + [] == Key(a) && Key(b) + [] == Key(b);
    if Key(a) == Key(b) {
      Readable(a, b, [], []);
    }
    if Equal(a, b) {
      EqualOnto(a, b, []);
    }
  }

  /** Keys stay readable inside a longer text: two concatenated keys never run into one another. */
  lemma KeysSelfDelimit(a: Value, b: Value, x: string, y: string)
    requires Valid(a) && Valid(b) && Stops(x) && Stops(y) && Key(a) + x == Key(b) + y
    ensures Equal(a, b) && x == y
  {
    OntoIsKey(a, x);
    OntoIsKey(b, y);
    Readable(a, b, x, y);
  }
}
