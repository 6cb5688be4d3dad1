/**
 JSON values as Python holds them, and their equality as JSON: numbers by value, arrays in order,
 object members in any order.
 */
module Json {
  /**
   A float that is an integer keeps that integer; any other float is identified with its shortest
   rendering, which is assumed to be an injective number lexeme with a fraction or an exponent.
   */
  datatype Value =
    | Null
    | Bool(b: bool)
    | Int(n: int)
    | IntegralFloat(n: int)
    | Fraction(lexeme: string)
    | Str(s: string)
    | Arr(items: seq<Value>)
    | Obj(members: seq<Member>)

  datatype Member = Member(key: string, value: Value)

  predicate IsNumberChar(c: char) {
    c in "0123456789+-.eE"
  }

  predicate IsFractionLexeme(s: string) {
    && (forall i :: 0 <= i < |s| ==> IsNumberChar(s[i]))
    && (exists i :: 0 <= i < |s| && (s[i] == '.' || s[i] == 'e'))
  }

  predicate DistinctKeys(ms: seq<Member>) {
    forall i, j :: 0 <= i < j < |ms| ==> ms[i].key != ms[j].key
  }

  /** A value the parser can produce: distinct member names, number lexemes for fractions. */
  predicate Valid(v: Value) {
    match v
    case Fraction(lexeme) => IsFractionLexeme(lexeme)
    case Arr(items) => forall i :: 0 <= i < |items| ==> Valid(items[i])
    case Obj(members) => DistinctKeys(members) && forall i :: 0 <= i < |members| ==> Valid(members[i].value)
    case _ => true
  }

  /** Equality as JSON. */
  ghost predicate Equal(a: Value, b: Value) {
    match a
    case Null => b.Null?
    case Bool(x) => b == a
    case Int(n) => (b.Int? || b.IntegralFloat?) && b.n == n
    case IntegralFloat(n) => (b.Int? || b.IntegralFloat?) && b.n == n
    case Fraction(_) => b == a
    case Str(_) => b == a
    case Arr(xs) => b.Arr? && |xs| == |b.items| && forall i :: 0 <= i < |xs| ==> Equal(xs[i], b.items[i])
    case Obj(ms) =>
      && b.Obj? && |ms| == |b.members|
      && forall i :: 0 <= i < |ms| ==> HasEqual(ms[i], b.members)
  }

  /** A member of the same name and an equal value is among `ns`. */
  ghost predicate HasEqual(m: Member, ns: seq<Member>) {
    exists j :: 0 <= j < |ns| && m.key == ns[j].key && Equal(m.value, ns[j].value)
  }
}
