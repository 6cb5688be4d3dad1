/**
 A reader of JSON texts (RFC 8259), written from the grammar and independent of how keys are built.
 Reading a canonical key gives the value back, with its members in canonical order.
 */
module JsonReader {
  import opened Common
  import opened Json
  import opened CanonicalKey
  import Decimal

  // ---------- Strings ----------

  datatype StringRead = Text(s: string, rest: string) | NotAString

  function HexValue(c: char): Option<nat> {
    if '0' <= c <= '9' then Some(c as int - '0' as int)
    else if 'a' <= c <= 'f' then Some(c as int - 'a' as int + 10)
    else if 'A' <= c <= 'F' then Some(c as int - 'A' as int + 10)
    else None
  }

  /** The character after a backslash, section 7. */
  function Unescaped(c: char): Option<char> {
    if c == '"' || c == '\\' || c == '/' then Some(c)
    else if c == 'b' then Some(8 as char)
    else if c == 'f' then Some(12 as char)
    else if c == 'n' then Some(10 as char)
    else if c == 'r' then Some(13 as char)
    else if c == 't' then Some(9 as char)
    else None
  }

  /** Four hexadecimal digits, here of a character below U+0100 only. */
  function FourDigits(w: string): Option<char>
    requires |w| >= 4
  {
    var high, low := HexValue(w[2]), HexValue(w[3]);
    if w[0] == '0' && w[1] == '0' && high.Some? && low.Some? then Some((16 * high.value + low.value) as char) else None
  }

  function Prepend(c: char, r: StringRead): StringRead {
    if r.Text? then Text([c] + r.s, r.rest) else NotAString
  }

  /** The rest of a string up to its closing quote; control characters have to be escaped. */
  function ReadString(w: string): (r: StringRead)
    ensures r.Text? ==> |r.rest| < |w|
    decreases |w|
  {
    if w == [] || w[0] as int < 32 then NotAString
    else if w[0] == '"' then Text([], w[1..])
    else if w[0] != '\\' then Prepend(w[0], ReadString(w[1..]))
    else if |w| >= 6 && w[1] == 'u' then
      var c := FourDigits(w[2..6]);
      if c.Some? then Prepend(c.value, ReadString(w[6..])) else NotAString
    else if |w| >= 2 && Unescaped(w[1]).Some? then Prepend(Unescaped(w[1]).value, ReadString(w[2..]))
    else NotAString
  }

  // ---------- Values ----------

  datatype Parsed = Parsed(value: Value, rest: string) | Malformed

  datatype ItemsRead = Items(items: seq<Value>, rest: string) | NoItems

  datatype MembersRead = Members(members: seq<Member>, rest: string) | NoMembers

  /** A number without fraction and exponent is an integer; any other one keeps its text. */
  function NumberOf(lexeme: string): Value {
    if Decimal.IsInteger(lexeme) then Int(Decimal.Reading(lexeme)) else Fraction(lexeme)
  }

  function ReadValue(w: string): (r: Parsed)
    ensures r.Parsed? ==> |r.rest| < |w|
    decreases |w|, 1
  {
    if w == [] then Malformed
    else if "null" <= w then Parsed(Null, w[4..])
    else if "true" <= w then Parsed(Bool(true), w[4..])
    else if "false" <= w then Parsed(Bool(false), w[5..])
    else if w[0] == '"' then
      var s := ReadString(w[1..]);
      if s.Text? then Parsed(Str(s.s), s.rest) else Malformed
    else if w[0] == '[' then
      if |w| > 1 && w[1] == ']' then Parsed(Arr([]), w[2..])
      else
        var items := ReadItems(w[1..]);
        if items.Items? then Parsed(Arr(items.items), items.rest) else Malformed
    else if w[0] == '{' then
      if |w| > 1 && w[1] == '}' then Parsed(Obj([]), w[2..])
      else
        var members := ReadMembers(w[1..]);
        if members.Members? then Parsed(Obj(members.members), members.rest) else Malformed
    else ReadNumber(w)
  }

  function ReadNumber(w: string): (r: Parsed)
    ensures r.Parsed? ==> |r.rest| < |w|
  {
    var n := NumberPrefix(w);
    if 0 < n <= |w| then Parsed(NumberOf(w[..n]), w[n..]) else Malformed
  }

  /** Values separated by commas, up to the closing bracket. */
  function ReadItems(w: string): (r: ItemsRead)
    ensures r.Items? ==> |r.rest| < |w|
    decreases |w|, 2
  {
    var first := ReadValue(w);
    if first.Malformed? || first.rest == [] then NoItems
    else if first.rest[0] == ']' then Items([first.value], first.rest[1..])
    else if first.rest[0] == ',' then
      var more := ReadItems(first.rest[1..]);
      if more.Items? then Items([first.value] + more.items, more.rest) else NoItems
    else NoItems
  }

  /** Named values separated by commas, up to the closing brace. */
  function ReadMembers(w: string): (r: MembersRead)
    ensures r.Members? ==> |r.rest| < |w|
    decreases |w|, 2
  {
    if w == [] || w[0] != '"' then NoMembers
    else
      var name := ReadString(w[1..]);
      if name.NotAString? || name.rest == [] || name.rest[0] != ':' then NoMembers
      else
        var first := ReadValue(name.rest[1..]);
        if first.Malformed? || first.rest == [] then NoMembers
        else if first.rest[0] == '}' then Members([Member(name.s, first.value)], first.rest[1..])
        else if first.rest[0] == ',' then
          var more := ReadMembers(first.rest[1..]);
          if more.Members? then Members([Member(name.s, first.value)] + more.members, more.rest) else NoMembers
        else NoMembers
  }

  // ---------- The value a key stands for ----------

  /** Integers in integer form, and members in canonical order, at every depth. */
  function Canonical(v: Value): Value
    decreases v, 2
  {
    match v
    case IntegralFloat(n) => Int(n)
    case Arr(items) => Arr(CanonicalItems(v, items))
    case Obj(members) =>
      var sorted := Sort(members);
      assert forall i :: 0 <= i < |sorted| ==> sorted[i] in members;
      Obj(CanonicalMembers(v, sorted))
    case _ => v
  }

  function CanonicalItems(context: Value, items: seq<Value>): (r: seq<Value>)
    requires forall i :: 0 <= i < |items| ==> items[i] < context
    ensures |r| == |items| && forall i :: 0 <= i < |items| ==> r[i] == Canonical(items[i])
    decreases context, 1, |items|
  {
    if items == [] then [] else [Canonical(items[0])] + CanonicalItems(context, items[1..])
  }

  function CanonicalMembers(context: Value, ms: seq<Member>): (r: seq<Member>)
    requires forall i :: 0 <= i < |ms| ==> ms[i].value < context
    ensures |r| == |ms| && forall i :: 0 <= i < |ms| ==> r[i] == Member(ms[i].key, Canonical(ms[i].value))
    decreases context, 1, |ms|
  {
    if ms == [] then [] else [Member(ms[0].key, Canonical(ms[0].value))] + CanonicalMembers(context, ms[1..])
  }

  // ---------- Reading what is written ----------

  lemma HexReads(d: nat)
    requires d < 16
    ensures HexValue(HexDigit(d)) == Some(d)
  {
  }

  lemma PlainCharReads(c: char, w: string)
    requires w != [] && w[0] == c && c as int >= 32 && c != '"' && c != '\\'
    ensures ReadString(w) == Prepend(c, ReadString(w[1..]))
  {
  }

  lemma ShortEscapeReads(c: char, w: string)
    requires |w| >= 2 && w[0] == '\\' && w[1] != 'u' && Unescaped(w[1]) == Some(c)
    ensures ReadString(w) == Prepend(c, ReadString(w[2..]))
  {
  }

  lemma LongEscapeReads(c: char, w: string)
    requires |w| >= 6 && w[0] == '\\' && w[1] == 'u' && FourDigits(w[2..6]) == Some(c)
    ensures ReadString(w) == Prepend(c, ReadString(w[6..]))
  {
  }

  lemma CharReads(c: char, rest: string)
    ensures ReadString(EscapeChar(c) + rest) == Prepend(c, ReadString(rest))
  {
    var e := EscapeChar(c);
    var w := e + rest;
    assert w[|e|..] == rest && w[..|e|] == e;
    if |e| == 1 {
      PlainCharReads(c, w);
    } else if |e| == 2 {
      assert w[0] == e[0] && w[1] == e[1];
      ShortEscapeReads(c, w);
    } else {
      HexReads(c as int / 16);
      HexReads(c as int % 16);
      assert w[0] == e[0] && w[1] == e[1] && w[2..6] == e[2..6];
      LongEscapeReads(c, w);
    }
  }

  lemma {:induction false} StringReads(s: string, rest: string)
    ensures ReadString(EscapeOnto(s, ['"'] + rest)) == Text(s, rest)
  {
    if s == [] {
      assert (['"'] + rest)[1..] == rest;
    } else {
      StringReads(s[1..], rest);
      CharReads(s[0], EscapeOnto(s[1..], ['"'] + rest));
      assert s == [s[0]] + s[1..];
    }
  }

  lemma NumberReads(v: Value)
    requires IsNumber(v) && Valid(v)
    ensures NumberOf(NumberText(v)) == Canonical(v)
  {
    if v.Fraction? {
      FractionIsNoInteger(v.lexeme);
    } else {
      Decimal.TextMeansNumber(v.n);
    }
  }

  lemma FractionIsNoInteger(lexeme: string)
    requires IsFractionLexeme(lexeme)
    ensures !Decimal.IsInteger(lexeme)
  {
    var i :| 0 <= i < |lexeme| && (lexeme[i] == '.' || lexeme[i] == 'e');
    assert !Decimal.IsDigit(lexeme[i]) && lexeme[i] != '-';
    assert i > 0 ==> lexeme[1..][i - 1] == lexeme[i];
  }

  lemma NumberStart(c: char)
    requires IsNumberChar(c)
    ensures c !in {'n', 't', 'f', '"', '[', '{'}
  {
  }

  lemma NumberIsRead(w: string)
    requires w != [] && IsNumberChar(w[0])
    ensures ReadValue(w) == ReadNumber(w)
  {
    NumberStart(w[0]);
    NoLiteral(w);
  }

  lemma NumberTextReads(v: Value, text: string, rest: string, w: string)
    requires IsNumber(v) && Valid(v) && Stops(rest) && text == NumberText(v) && w == text + rest
    ensures ReadValue(w) == Parsed(Canonical(v), rest)
  {
    NumberTextIsNumber(v);
    NumberPrefixOf(text, rest);
    NumberReads(v);
    assert w[0] == text[0] && w[..|text|] == text && w[|text|..] == rest;
    NumberIsRead(w);
  }

  lemma LiteralReads(v: Value, rest: string)
    requires v.Null? || v.Bool?
    ensures ReadValue(Onto(v, rest)) == Parsed(v, rest)
  {
    var w := Onto(v, rest);
    if v.Null? {
      assert "null" <= w && w[4..] == rest;
    } else if v.b {
      assert "true" <= w && w[4..] == rest && w[0] == 't';
    } else {
      assert "false" <= w && w[5..] == rest && w[0] == 'f';
    }
  }

  /** A text that starts with a character of its own is read by that branch. */
  lemma NoLiteral(w: string)
    requires w != [] && w[0] !in {'n', 't', 'f'}
    ensures !("null" <= w) && !("true" <= w) && !("false" <= w)
  {
    assert "null"[0] == 'n' && "true"[0] == 't' && "false"[0] == 'f';
  }

  lemma QuotedReads(w: string, tail: string, s: string, rest: string)
    requires w == ['"'] + tail && ReadString(tail) == Text(s, rest)
    ensures ReadValue(w) == Parsed(Str(s), rest)
  {
    assert w[1..] == tail;
    NoLiteral(w);
  }

  lemma BracketedReads(w: string, tail: string, items: seq<Value>, rest: string)
    requires w == ['['] + tail && tail != []
    requires if items == [] then tail == [']'] + rest else tail[0] != ']' && ReadItems(tail) == Items(items, rest)
    ensures ReadValue(w) == Parsed(Arr(items), rest)
  {
    assert w[1..] == tail && w[1] == tail[0];
    assert items == [] ==> w[2..] == rest;
    NoLiteral(w);
  }

  lemma BracedReads(w: string, tail: string, members: seq<Member>, rest: string)
    requires w == ['{'] + tail && tail != []
    requires if members == [] then tail == ['}'] + rest else tail[0] != '}' && ReadMembers(tail) == Members(members, rest)
    ensures ReadValue(w) == Parsed(Obj(members), rest)
  {
    assert w[1..] == tail && w[1] == tail[0];
    assert members == [] ==> w[2..] == rest;
    NoLiteral(w);
  }

  lemma {:induction false} ValueReads(v: Value, rest: string)
    requires Valid(v) && Stops(rest)
    ensures ReadValue(Onto(v, rest)) == Parsed(Canonical(v), rest)
    decreases v, 2
  {
    match v {
      case Str(s) =>
        StringReads(s, rest);
        QuotedReads(Onto(v, rest), EscapeOnto(s, ['"'] + rest), s, rest);
      case Arr(items) =>
        var tail := ItemsOnto(v, items, [']'] + rest);
        EndOfItems(v, items, rest);
        if items != [] {
          ListReads(v, items, rest);
        }
        BracketedReads(Onto(v, rest), tail, CanonicalItems(v, items), rest);
      case Obj(members) => ObjectValueReads(v, members, Sort(members), rest);
      case Null => LiteralReads(v, rest);
      case Bool(_) => LiteralReads(v, rest);
      case _ => NumberTextReads(v, NumberText(v), rest, Onto(v, rest));
    }
  }

  lemma {:induction false} ObjectValueReads(v: Value, members: seq<Member>, sorted: seq<Member>, rest: string)
    requires Valid(v) && Stops(rest) && v == Obj(members) && sorted == Sort(members)
    ensures ReadValue(Onto(v, rest)) == Parsed(Canonical(v), rest)
    decreases v, 1, |sorted| + 1
  {
    assert forall i :: 0 <= i < |sorted| ==> sorted[i] in members;
    var tail := MembersOnto(v, sorted, ['}'] + rest);
    EndOfMembers(v, sorted, rest);
    if sorted != [] {
      ObjectReads(v, sorted, rest);
    }
    BracedReads(Onto(v, rest), tail, CanonicalMembers(v, sorted), rest);
  }

  lemma LastItem(w: string, v: Value, r: string, rest: string)
    requires ReadValue(w) == Parsed(v, r) && r == [']'] + rest
    ensures ReadItems(w) == Items([v], rest)
  {
    assert r[1..] == rest;
  }

  lemma OneMoreItem(w: string, v: Value, r: string, more: string, items: seq<Value>, rest: string)
    requires ReadValue(w) == Parsed(v, r) && r == [','] + more && ReadItems(more) == Items(items, rest)
    ensures ReadItems(w) == Items([v] + items, rest)
  {
    assert r[1..] == more;
  }

  lemma {:induction false} ListReads(context: Value, items: seq<Value>, rest: string)
    requires items != [] && forall i :: 0 <= i < |items| ==> items[i] < context && Valid(items[i])
    ensures ReadItems(ItemsOnto(context, items, [']'] + rest)) == Items(CanonicalItems(context, items), rest)
    decreases context, 1, |items|
  {
    var tail := [']'] + rest;
    var w := ItemsOnto(context, items, tail);
    if |items| == 1 {
      ValueReads(items[0], tail);
      LastItem(w, Canonical(items[0]), tail, rest);
      assert CanonicalItems(context, items) == [Canonical(items[0])];
    } else {
      var more := ItemsOnto(context, items[1..], tail);
      ValueReads(items[0], [','] + more);
      ListReads(context, items[1..], rest);
      OneMoreItem(w, Canonical(items[0]), [','] + more, more, CanonicalItems(context, items[1..]), rest);
    }
  }

  lemma LastMember(w: string, key: string, after: string, v: Value, r: string, rest: string)
    requires w != [] && w[0] == '"' && ReadString(w[1..]) == Text(key, [':'] + after)
    requires ReadValue(after) == Parsed(v, r) && r == ['}'] + rest
    ensures ReadMembers(w) == Members([Member(key, v)], rest)
  {
    assert ([':'] + after)[1..] == after && r[1..] == rest;
  }

  lemma OneMoreMember(w: string, key: string, after: string, v: Value, r: string, more: string,
                      members: seq<Member>, rest: string)
    requires w != [] && w[0] == '"' && ReadString(w[1..]) == Text(key, [':'] + after)
    requires ReadValue(after) == Parsed(v, r) && r == [','] + more && ReadMembers(more) == Members(members, rest)
    ensures ReadMembers(w) == Members([Member(key, v)] + members, rest)
  {
    assert ([':'] + after)[1..] == after && r[1..] == more;
  }

  lemma {:induction false} ObjectReads(context: Value, ms: seq<Member>, rest: string)
    requires ms != [] && forall i :: 0 <= i < |ms| ==> ms[i].value < context && Valid(ms[i].value)
    ensures ReadMembers(MembersOnto(context, ms, ['}'] + rest)) == Members(CanonicalMembers(context, ms), rest)
    decreases context, 1, |ms|
  {
    var tail := ['}'] + rest;
    var w := MembersOnto(context, ms, tail);
    var key, v := ms[0].key, Canonical(ms[0].value);
    var more := if |ms| == 1 then [] else MembersOnto(context, ms[1..], tail);
    var after := if |ms| == 1 then tail else [','] + more;
    MembersHead(context, ms, tail, after);
    ValueReads(ms[0].value, after);
    NameReads(key, Onto(ms[0].value, after), w);
    if |ms| == 1 {
      LastMember(w, key, Onto(ms[0].value, after), v, after, rest);
      assert CanonicalMembers(context, ms) == [Member(key, v)];
    } else {
      ObjectReads(context, ms[1..], rest);
      OneMoreMember(w, key, Onto(ms[0].value, after), v, after, more, CanonicalMembers(context, ms[1..]), rest);
    }
  }

  lemma NameReads(key: string, value: string, w: string)
    requires w == QuoteOnto(key, [':'] + value)
    ensures w != [] && w[0] == '"' && ReadString(w[1..]) == Text(key, [':'] + value)
  {
    StringReads(key, [':'] + value);
    assert w[1..] == EscapeOnto(key, ['"'] + ([':'] + value));
  }

  /** The key of a value is a JSON text of that value, members in canonical order and nothing else. */
  lemma KeyReads(v: Value)
    requires Valid(v)
    ensures ReadValue(Key(v)) == Parsed(Canonical(v), [])
  {
    OntoIsKey(v, []);
    assert Key(v) + [] == Key(v);
    ValueReads(v, []);
  }

  // ---------- The exact form ----------

  /** Integers in integer form, and members in UTF-16 order of their names, at every depth. */
  predicate Ordered(v: Value) {
    match v
    case IntegralFloat(_) => false
    case Arr(items) => forall i :: 0 <= i < |items| ==> Ordered(items[i])
    case Obj(members) => Sorted(members) && forall i :: 0 <= i < |members| ==> Ordered(members[i].value)
    case _ => true
  }

  lemma {:induction false} CanonicalIsOrdered(v: Value)
    requires Valid(v)
    ensures Ordered(Canonical(v)) && Equal(v, Canonical(v))
    decreases v
  {
    match v {
      case Arr(items) =>
        forall i | 0 <= i < |items|
          ensures Ordered(Canonical(items[i])) && Equal(items[i], Canonical(items[i]))
        {
          CanonicalIsOrdered(items[i]);
        }
      case Obj(members) => CanonicalObject(v, members, Sort(members));
      case _ =>
    }
  }

  lemma {:induction false} CanonicalObject(v: Value, members: seq<Member>, sorted: seq<Member>)
    requires Valid(v) && v == Obj(members) && sorted == Sort(members)
    ensures Ordered(Canonical(v)) && Equal(v, Canonical(v))
    decreases v, 0
  {
    assert forall i :: 0 <= i < |sorted| ==> sorted[i] in members;
    var cs := CanonicalMembers(v, sorted);
    SortSorts(members);
    forall i | 0 <= i < |sorted|
      ensures Ordered(cs[i].value) && Equal(sorted[i].value, cs[i].value)
    {
      assert sorted[i] in members;
      CanonicalIsOrdered(sorted[i].value);
    }
    PermutedEqual(members, cs, sorted, cs);
  }

  /** An integer, also one held as a float, is written as an integer that reads as its value. */
  lemma IntegerKeyReads(n: int)
    ensures Key(Int(n)) == Key(IntegralFloat(n))
    ensures Decimal.IsInteger(Key(Int(n))) && Decimal.Reading(Key(Int(n))) == n
  {
    Decimal.TextMeansNumber(n);
  }

  /** The characters with a short escape. */
  predicate HasShortEscape(c: char) {
    c == '"' || c == '\\' || c == '\n' || c == '\r' || c == '\t' || c as int == 8 || c as int == 12
  }

  /**
   Only quotes, backslashes and control characters are escaped, in two characters where there is a
   short form and otherwise as \u00xx with lower-case digits.
   */
  lemma EscapedOnlyWhere(c: char)
    ensures EscapeChar(c) == [c] <==> c as int >= 32 && c != '"' && c != '\\'
    ensures |EscapeChar(c)| == 2 <==> HasShortEscape(c)
    ensures |EscapeChar(c)| in {1, 2, 6}
    ensures forall i :: 0 <= i < |EscapeChar(c)| && |EscapeChar(c)| == 6 ==> !('A' <= EscapeChar(c)[i] <= 'F')
  {
    if |EscapeChar(c)| == 6 {
      LowerCase(c as int / 16);
      LowerCase(c as int % 16);
    }
  }

  lemma LowerCase(d: nat)
    requires d < 16
    ensures !('A' <= HexDigit(d) <= 'F')
  {
  }
}
