/**
 Folding `allOf`: two schema nodes are conjoined into one. The meaning of a schema is the set of
 JSON values it accepts (JSON Schema Validation draft-07, sections 6.1, 6.5 and 6.7.1); keywords
 outside the modelled ones are opaque constraints, each on its own.
 */
module SchemaConjunction {
  import opened Common
  import opened Json
  import CanonicalKey
  import Utf16Order

  /** A keyword that the conjunction does not interpret, with its raw value. */
  datatype Keyword = Keyword(key: string, raw: Value)

  datatype Properties = Undeclared | Declared(schemas: map<string, Schema>)

  datatype Schema =
    | Always(accepts: bool)
    | Node(
        types: Option<seq<string>>,
        enumeration: Option<seq<Value>>,
        constant: Option<Value>,
        required: Option<seq<string>>,
        properties: Properties,
        additional: Option<Schema>,
        allOf: seq<Schema>,
        other: seq<Keyword>)  // in key order
  {
    function Props(): map<string, Schema>
      requires Node?
    {
      if properties.Declared? then properties.schemas else map[]
    }

    function Additional(): Schema
      requires Node?
    {
      if additional.Some? then additional.value else Always(true)
    }
  }

  const EMPTY := Node(None, None, None, None, Undeclared, None, [], [])

  datatype Result<+T> = Ok(value: T) | Unsatisfiable

  // ---------- Meaning ----------

  predicate TypeAccepts(name: string, v: Value) {
    || (name == "null" && v.Null?)
    || (name == "boolean" && v.Bool?)
    || (name == "integer" && (v.Int? || v.IntegralFloat?))
    || (name == "number" && (v.Int? || v.IntegralFloat? || v.Fraction?))
    || (name == "string" && v.Str?)
    || (name == "array" && v.Arr?)
    || (name == "object" && v.Obj?)
  }

  predicate TypesAccept(names: seq<string>, v: Value) {
    exists i :: 0 <= i < |names| && TypeAccepts(names[i], v)
  }

  ghost predicate OneOf(values: seq<Value>, v: Value) {
    exists i :: 0 <= i < |values| && Equal(values[i], v)
  }

  predicate HasMember(v: Value, name: string)
    requires v.Obj?
  {
    exists i :: 0 <= i < |v.members| && v.members[i].key == name
  }

  predicate IsAnnotation(key: string) {
    key == "description" || key == "title" || key == "$comment" || key == "examples"
  }

  /** Whether a value meets an uninterpreted keyword: any fixed judgement. */
  type Oracle = (Keyword, Value) -> bool

  ghost predicate TypePart(s: Schema, v: Value)
    requires s.Node?
  {
    s.types.Some? ==> TypesAccept(s.types.value, v)
  }

  ghost predicate ValuePart(s: Schema, v: Value)
    requires s.Node?
  {
    && (s.enumeration.Some? ==> OneOf(s.enumeration.value, v))
    && (s.constant.Some? ==> Equal(s.constant.value, v))
  }

  ghost predicate RequiredPart(s: Schema, v: Value)
    requires s.Node?
  {
    v.Obj? && s.required.Some? ==> forall i :: 0 <= i < |s.required.value| ==> HasMember(v, s.required.value[i])
  }

  ghost predicate OtherPart(s: Schema, v: Value, oracle: Oracle)
    requires s.Node?
  {
    forall i :: 0 <= i < |s.other| ==> IsAnnotation(s.other[i].key) || oracle(s.other[i], v)
  }

  ghost predicate Accepts(s: Schema, v: Value, oracle: Oracle)
    decreases s, 2
  {
    match s
    case Always(b) => b
    case Node(_, _, _, _, _, _, _, _) =>
      && TypePart(s, v)
      && ValuePart(s, v)
      && RequiredPart(s, v)
      && OtherPart(s, v, oracle)
      && AllOfPart(s, v, oracle)
      && (v.Obj? ==> forall i :: 0 <= i < |v.members| ==> MemberPart(s, v.members[i], oracle))
  }

  ghost predicate AllOfPart(s: Schema, v: Value, oracle: Oracle)
    requires s.Node?
    decreases s, 1
  {
    forall i :: 0 <= i < |s.allOf| ==> Accepts(s.allOf[i], v, oracle)
  }

  ghost predicate MemberPart(s: Schema, m: Member, oracle: Oracle)
    requires s.Node?
    decreases s, 1
  {
    if s.properties.Declared? && m.key in s.properties.schemas then
      Accepts(s.properties.schemas[m.key], m.value, oracle)
    else s.additional.Some? ==> Accepts(s.additional.value, m.value, oracle)
  }

  // ---------- The conjunction ----------

  /** `_type_intersection`: an `integer` and a `number` meet in `integer`. */
  function Meet(left: string, right: string): Option<string> {
    if left == right then Some(left)
    else if (left == "integer" && right == "number") || (left == "number" && right == "integer") then Some("integer")
    else None
  }

  function AddType(types: seq<string>, candidate: Option<string>): seq<string> {
    if candidate.None? || candidate.value in types then types else types + [candidate.value]
  }

  function MeetWithAll(acc: seq<string>, left: string, right: seq<string>): seq<string> {
    if right == [] then acc
    else AddType(MeetWithAll(acc, left, right[..|right| - 1]), Meet(left, right[|right| - 1]))
  }

  function MeetAll(left: seq<string>, right: seq<string>): seq<string> {
    if left == [] then []
    else MeetWithAll(MeetAll(left[..|left| - 1], right), left[|left| - 1], right)
  }

  function RemoveFirst(s: seq<string>, x: string): seq<string> {
    if s == [] then [] else if s[0] == x then s[1..] else [s[0]] + RemoveFirst(s[1..], x)
  }

  function TypeIntersection(left: seq<string>, right: seq<string>): seq<string> {
    var all := MeetAll(left, right);
    if "number" in all && "integer" in all then RemoveFirst(all, "integer") else all
  }

  /** `_value_matches_types`: Python's `isinstance`, so an integral float is not an `integer`. */
  predicate ValueMatchesTypes(v: Value, names: seq<string>) {
    names == [] || exists i :: 0 <= i < |names| && TypeAccepts(names[i], v) && !(names[i] == "integer" && v.IntegralFloat?)
  }

  function KeySet(values: seq<Value>): set<string> {
    set i | 0 <= i < |values| :: CanonicalKey.Key(values[i])
  }

  /** `_unique`: the first value of each key, in order. */
  function Unique(values: seq<Value>): (r: seq<Value>)
    ensures forall x :: x in r ==> x in values
    ensures r == [] ==> values == []
  {
    if values == [] then []
    else
      var n := |values| - 1;
      var before := Unique(values[..n]);
      if CanonicalKey.Key(values[n]) in KeySet(before) then before else before + [values[n]]
  }

  function ConstrainedValues(s: Schema): Result<Option<seq<Value>>>
    requires s.Node?
  {
    var listed := if s.enumeration.Some? then Some(Unique(s.enumeration.value)) else None;
    if s.constant.Some? then
      if listed.Some? && CanonicalKey.Key(s.constant.value) !in KeySet(listed.value) then Unsatisfiable
      else Ok(Some([s.constant.value]))
    else if listed == Some([]) then Unsatisfiable
    else Ok(listed)
  }

  function FilterKeys(values: seq<Value>, keys: set<string>): (r: seq<Value>)
    ensures forall x :: x in r <==> x in values && CanonicalKey.Key(x) in keys
  {
    if values == [] then []
    else if CanonicalKey.Key(values[0]) in keys then [values[0]] + FilterKeys(values[1..], keys)
    else FilterKeys(values[1..], keys)
  }

  function FilterTypes(values: seq<Value>, names: seq<string>): (r: seq<Value>)
    ensures forall x :: x in r <==> x in values && ValueMatchesTypes(x, names)
  {
    if values == [] then []
    else if ValueMatchesTypes(values[0], names) then [values[0]] + FilterTypes(values[1..], names)
    else FilterTypes(values[1..], names)
  }

  function ConjoinTypes(b: Schema, o: Schema): Result<seq<string>>
    requires b.Node? && o.Node?
  {
    var left := if b.types.Some? then b.types.value else [];
    var right := if o.types.Some? then o.types.value else [];
    if b.types == Some([]) || o.types == Some([]) then Unsatisfiable
    else if left != [] && right != [] then
      var types := TypeIntersection(left, right);
      if types == [] then Unsatisfiable else Ok(types)
    else Ok(if left != [] then left else right)
  }

  /** The left values whose key the right side lists too, or the one list there is. */
  function CommonValues(left: Option<seq<Value>>, right: Option<seq<Value>>): Option<seq<Value>> {
    if left.Some? && right.Some? then Some(FilterKeys(left.value, KeySet(right.value)))
    else if left.Some? then left
    else right
  }

  function ConjoinValues(b: Schema, o: Schema, names: seq<string>): Result<Option<seq<Value>>>
    requires b.Node? && o.Node?
  {
    var left, right := ConstrainedValues(b), ConstrainedValues(o);
    if left.Unsatisfiable? || right.Unsatisfiable? then Unsatisfiable
    else
      var values := CommonValues(left.value, right.value);
      if values.None? then Ok(None)
      else
        var kept := FilterTypes(values.value, names);
        if kept == [] then Unsatisfiable else Ok(Some(Unique(kept)))
  }

  function UniqueNames(names: seq<string>): (r: seq<string>)
    ensures forall x :: x in r <==> x in names
  {
    if names == [] then []
    else
      var n := |names| - 1;
      assert names == names[..n] + [names[n]];
      var before := UniqueNames(names[..n]);
      if names[n] in before then before else before + [names[n]]
  }

  function ConjoinRequired(b: Schema, o: Schema): Option<seq<string>>
    requires b.Node? && o.Node?
  {
    var all := (if b.required.Some? then b.required.value else []) + (if o.required.Some? then o.required.value else []);
    if all == [] then None else Some(UniqueNames(all))
  }

  /** Python's order on strings. */
  predicate CodePointLess(s: string, t: string) {
    Utf16Order.Before(seq(|s|, i requires 0 <= i < |s| => s[i] as int), seq(|t|, i requires 0 <= i < |t| => t[i] as int))
  }

  /** The keywords both sides keep, the base winning a conflict, and the overlay's losing keywords. */
  function MergeOther(b: seq<Keyword>, o: seq<Keyword>): (seq<Keyword>, seq<Keyword>)
    decreases |b| + |o|
  {
    if b == [] then (o, [])
    else if o == [] then (b, [])
    else if b[0].key == o[0].key then
      var (merged, lost) := MergeOther(b[1..], o[1..]);
      ([b[0]] + merged, if b[0].raw == o[0].raw || IsAnnotation(b[0].key) then lost else [o[0]] + lost)
    else if CodePointLess(b[0].key, o[0].key) then
      var (merged, lost) := MergeOther(b[1..], o);
      ([b[0]] + merged, lost)
    else
      var (merged, lost) := MergeOther(b, o[1..]);
      ([o[0]] + merged, lost)
  }

  function AsConjuncts(lost: seq<Keyword>): (r: seq<Schema>)
    ensures |r| == |lost|
    ensures forall i :: 0 <= i < |lost| ==> r[i] == EMPTY.(other := [lost[i]])
  {
    if lost == [] then [] else [EMPTY.(other := [lost[0]])] + AsConjuncts(lost[1..])
  }

  /** `_conjoin_schema`. */
  function Conjoin(base: Schema, overlay: Schema): Result<Schema>
    decreases base, 2
  {
    if base == Always(false) || overlay == Always(false) then Unsatisfiable
    else if base.Always? then Ok(if overlay.Node? then overlay else EMPTY)
    else if overlay.Always? then Ok(base)
    else
      var types := ConjoinTypes(base, overlay);
      if types.Unsatisfiable? then Unsatisfiable
      else
        var values := ConjoinValues(base, overlay, types.value);
        if values.Unsatisfiable? then Unsatisfiable
        else
          var properties := ConjoinProperties(base, overlay);
          if properties.Unsatisfiable? then Unsatisfiable
          else
            var additional := ConjoinAdditional(base, overlay);
            if additional.Unsatisfiable? then Unsatisfiable
            else
              var (other, lost) := MergeOther(base.other, overlay.other);
              Ok(Node(if types.value == [] then None else Some(types.value), values.value, None,
                      ConjoinRequired(base, overlay), properties.value, additional.value,
                      base.allOf + overlay.allOf + AsConjuncts(lost), other))
  }

  function ConjoinProperties(base: Schema, overlay: Schema): Result<Properties>
    requires base.Node? && overlay.Node?
    decreases base, 1
  {
    var left, right := base.Props(), overlay.Props();
    if exists name | name in left && name in right :: Conjoin(base.properties.schemas[name], right[name]).Unsatisfiable? then
      Unsatisfiable
    else if base.properties.Undeclared? && overlay.properties.Undeclared? then Ok(Undeclared)
    else
      Ok(Declared(map name | name in left.Keys + right.Keys ::
                if name in left && name in right then Conjoin(base.properties.schemas[name], right[name]).value
                else if name in left then left[name]
                else right[name]))
  }

  function ConjoinAdditional(base: Schema, overlay: Schema): Result<Option<Schema>>
    requires base.Node? && overlay.Node?
    decreases base, 1
  {
    if base.additional.None? && overlay.additional.None? then Ok(None)
    else
      var left, right := base.Additional(), overlay.Additional();
      if left == Always(false) || right == Always(false) then Ok(Some(Always(false)))
      else if left.Always? then Ok(Some(right))
      else if right.Always? then Ok(Some(left))
      else
        var both := Conjoin(base.additional.value, right);
        if both.Unsatisfiable? then Unsatisfiable else Ok(Some(both.value))
  }

  // ---------- Types ----------

  lemma {:induction false} MeetWithAllMeans(acc: seq<string>, left: string, right: seq<string>, v: Value)
    ensures TypesAccept(MeetWithAll(acc, left, right), v)
       <==> TypesAccept(acc, v) || (TypeAccepts(left, v) && TypesAccept(right, v))
  {
    if right != [] {
      var n := |right| - 1;
      var before := MeetWithAll(acc, left, right[..n]);
      MeetWithAllMeans(acc, left, right[..n], v);
      AddTypeMeans(before, Meet(left, right[n]), v);
      SnocTypes(right, v);
    }
  }

  lemma SnocTypes(names: seq<string>, v: Value)
    requires names != []
    ensures TypesAccept(names, v) <==> TypesAccept(names[..|names| - 1], v) || TypeAccepts(names[|names| - 1], v)
  {
    var n := |names| - 1;
    if TypesAccept(names, v) {
      var i :| 0 <= i < |names| && TypeAccepts(names[i], v);
      assert i < n ==> names[..n][i] == names[i];
    }
    if TypesAccept(names[..n], v) {
      var i :| 0 <= i < n && TypeAccepts(names[..n][i], v);
      assert names[i] == names[..n][i];
    }
  }

  lemma AddTypeMeans(types: seq<string>, candidate: Option<string>, v: Value)
    ensures TypesAccept(AddType(types, candidate), v)
       <==> TypesAccept(types, v) || (candidate.Some? && TypeAccepts(candidate.value, v))
  {
    var r := AddType(types, candidate);
    if candidate.Some? {
      if candidate.value in types {
        var i :| 0 <= i < |types| && types[i] == candidate.value;
      } else {
        assert r[..|r| - 1] == types;
        SnocTypes(r, v);
      }
    }
  }

  lemma {:induction false} MeetAllMeans(left: seq<string>, right: seq<string>, v: Value)
    ensures TypesAccept(MeetAll(left, right), v) <==> TypesAccept(left, v) && TypesAccept(right, v)
  {
    if left != [] {
      var n := |left| - 1;
      MeetAllMeans(left[..n], right, v);
      MeetWithAllMeans(MeetAll(left[..n], right), left[n], right, v);
      SnocTypes(left, v);
    }
  }

  lemma {:induction false} RemoveIntegerMeans(names: seq<string>, v: Value)
    requires "number" in names
    ensures TypesAccept(RemoveFirst(names, "integer"), v) <==> TypesAccept(names, v)
  {
    var r := RemoveFirst(names, "integer");
    RemovedMembers(names, "integer");
    if TypesAccept(names, v) {
      var i :| 0 <= i < |names| && TypeAccepts(names[i], v);
      var name := if names[i] == "integer" then "number" else names[i];
      assert name in names && TypeAccepts(name, v) && name in r;
      var j :| 0 <= j < |r| && r[j] == name;
    }
    if TypesAccept(r, v) {
      var i :| 0 <= i < |r| && TypeAccepts(r[i], v);
      assert r[i] in names;
    }
  }

  lemma {:induction false} RemovedMembers(s: seq<string>, x: string)
    ensures forall y :: y in s && y != x ==> y in RemoveFirst(s, x)
    ensures forall y :: y in RemoveFirst(s, x) ==> y in s
  {
    if s != [] {
      assert s == [s[0]] + s[1..];
      if s[0] != x {
        RemovedMembers(s[1..], x);
      }
    }
  }

  /** The type intersection accepts exactly the values both type lists accept. */
  lemma TypeIntersectionMeans(left: seq<string>, right: seq<string>, v: Value)
    ensures TypesAccept(TypeIntersection(left, right), v) <==> TypesAccept(left, v) && TypesAccept(right, v)
  {
    MeetAllMeans(left, right, v);
    var all := MeetAll(left, right);
    if "number" in all && "integer" in all {
      RemoveIntegerMeans(all, v);
    }
  }

  /** Types of the result of a conjunction. */
  ghost predicate NamesAccept(names: seq<string>, v: Value) {
    names == [] || TypesAccept(names, v)
  }

  lemma ConjoinTypesMeans(b: Schema, o: Schema, v: Value)
    requires b.Node? && o.Node?
    ensures var r := ConjoinTypes(b, o);
      (TypePart(b, v) && TypePart(o, v)) <==> (r.Ok? && NamesAccept(r.value, v))
  {
    var left := if b.types.Some? then b.types.value else [];
    var right := if o.types.Some? then o.types.value else [];
    TypeIntersectionMeans(left, right, v);
  }

  // ---------- Enumerated values ----------

  predicate AllJson(values: seq<Value>) {
    forall i :: 0 <= i < |values| ==> Valid(values[i])
  }

  /** The values a schema lists are JSON. */
  predicate ListsJson(s: Schema)
    requires s.Node?
  {
    && (s.enumeration.Some? ==> AllJson(s.enumeration.value))
    && (s.constant.Some? ==> Valid(s.constant.value))
  }

  predicate KeysDistinct(values: seq<Value>) {
    forall i, j :: 0 <= i < j < |values| ==> CanonicalKey.Key(values[i]) != CanonicalKey.Key(values[j])
  }

  /** Being listed is having a listed key. */
  lemma OneOfIsKeyIn(values: seq<Value>, v: Value)
    requires AllJson(values) && Valid(v)
    ensures OneOf(values, v) <==> CanonicalKey.Key(v) in KeySet(values)
  {
    forall i | 0 <= i < |values|
      ensures Equal(values[i], v) <==> CanonicalKey.Key(values[i]) == CanonicalKey.Key(v)
    {
      CanonicalKey.KeyDecidesEquality(values[i], v);
    }
  }

  lemma {:induction false} UniqueKeepsKeys(values: seq<Value>)
    ensures KeySet(Unique(values)) == KeySet(values)
  {
    if values != [] {
      var n := |values| - 1;
      UniqueKeepsKeys(values[..n]);
      var before := Unique(values[..n]);
      SnocKeys(values);
      assert CanonicalKey.Key(values[n]) !in KeySet(before) ==>
        KeySet(before + [values[n]]) == KeySet(before) + {CanonicalKey.Key(values[n])} by {
        var r := before + [values[n]];
        assert r[..|r| - 1] == before;
        SnocKeys(r);
      }
    }
  }

  lemma SnocKeys(values: seq<Value>)
    requires values != []
    ensures KeySet(values) == KeySet(values[..|values| - 1]) + {CanonicalKey.Key(values[|values| - 1])}
  {
    var n := |values| - 1;
    forall k | k in KeySet(values)
      ensures k in KeySet(values[..n]) + {CanonicalKey.Key(values[n])}
    {
      var i :| 0 <= i < |values| && CanonicalKey.Key(values[i]) == k;
      assert i < n ==> values[..n][i] == values[i];
    }
    forall k | k in KeySet(values[..n])
      ensures k in KeySet(values)
    {
      var i :| 0 <= i < n && CanonicalKey.Key(values[..n][i]) == k;
      assert values[i] == values[..n][i];
    }
  }

  lemma {:induction false} UniqueIsDistinct(values: seq<Value>)
    ensures KeysDistinct(Unique(values))
  {
    if values != [] {
      var n := |values| - 1;
      UniqueIsDistinct(values[..n]);
      var before := Unique(values[..n]);
      assert forall i :: 0 <= i < |before| ==> CanonicalKey.Key(before[i]) in KeySet(before);
    }
  }

  lemma {:induction false} FilterKeysDistinct(values: seq<Value>, keys: set<string>)
    requires KeysDistinct(values)
    ensures KeysDistinct(FilterKeys(values, keys))
  {
    if values != [] {
      var rest := FilterKeys(values[1..], keys);
      FilterKeysDistinct(values[1..], keys);
      forall i | 0 <= i < |rest| ensures CanonicalKey.Key(rest[i]) != CanonicalKey.Key(values[0]) {
        assert rest[i] in rest && rest[i] in values[1..];
        var k :| 0 <= k < |values[1..]| && values[1..][k] == rest[i];
        assert values[k + 1] == rest[i];
      }
    }
  }

  lemma SubsetJson(values: seq<Value>, others: seq<Value>)
    requires AllJson(others) && forall x :: x in values ==> x in others
    ensures AllJson(values)
  {
    forall i | 0 <= i < |values|
      ensures Valid(values[i])
    {
      assert values[i] in values && values[i] in others;
    }
  }

  /** The values a node allows: none listed, or exactly those with a listed key. */
  ghost predicate Allowed(values: Option<seq<Value>>, v: Value) {
    values.Some? ==> CanonicalKey.Key(v) in KeySet(values.value)
  }

  lemma ConstrainedValuesMeans(s: Schema, v: Value)
    requires s.Node? && ListsJson(s) && Valid(v)
    ensures var r := ConstrainedValues(s);
      && (ValuePart(s, v) <==> (r.Ok? && Allowed(r.value, v)))
      && (r.Ok? && r.value.Some? ==> AllJson(r.value.value) && KeysDistinct(r.value.value))
  {
    if s.enumeration.Some? {
      var listed := Unique(s.enumeration.value);
      OneOfIsKeyIn(s.enumeration.value, v);
      UniqueKeepsKeys(s.enumeration.value);
      UniqueIsDistinct(s.enumeration.value);
      SubsetJson(listed, s.enumeration.value);
    }
    if s.constant.Some? {
      CanonicalKey.KeyDecidesEquality(s.constant.value, v);
      assert KeySet([s.constant.value]) == {CanonicalKey.Key(s.constant.value)} by {
        assert [s.constant.value][0] == s.constant.value;
      }
    }
  }

  /** A listed float such as 1.0 where the types have `integer` and not `number`. */
  predicate Mistyped(x: Value, names: seq<string>) {
    x.IntegralFloat? && "integer" in names && "number" !in names
  }

  /** Python's type test turns away a value that the types accept exactly when it is mistyped. */
  lemma MistypedIff(x: Value, names: seq<string>)
    ensures NamesAccept(names, x) && !ValueMatchesTypes(x, names) <==> Mistyped(x, names)
    ensures ValueMatchesTypes(x, names) ==> NamesAccept(names, x)
  {
    if Mistyped(x, names) {
      var i :| 0 <= i < |names| && names[i] == "integer";
      assert TypeAccepts(names[i], x);
      assert forall k :: 0 <= k < |names| ==> names[k] in names && names[k] != "number";
    } else if NamesAccept(names, x) && names != [] {
      var i :| 0 <= i < |names| && TypeAccepts(names[i], x);
      if x.IntegralFloat? && "number" in names {
        var k :| 0 <= k < |names| && names[k] == "number";
        assert TypeAccepts(names[k], x);
      }
    }
  }

  /** Equal values have the same types: an integer written as a float is an integer too. */
  lemma EqualTypes(x: Value, v: Value, names: seq<string>)
    requires Valid(x) && Valid(v) && CanonicalKey.Key(x) == CanonicalKey.Key(v)
    ensures NamesAccept(names, x) <==> NamesAccept(names, v)
  {
    CanonicalKey.KeyDecidesEquality(x, v);
    forall i | 0 <= i < |names|
      ensures TypeAccepts(names[i], x) == TypeAccepts(names[i], v)
    {
    }
  }

  /** The listed value that equals v is mistyped. */
  predicate MistypedIn(values: seq<Value>, names: seq<string>, v: Value) {
    exists i :: 0 <= i < |values| && CanonicalKey.Key(values[i]) == CanonicalKey.Key(v) && Mistyped(values[i], names)
  }

  lemma FilterKeysMeans(values: seq<Value>, keys: set<string>)
    ensures KeySet(FilterKeys(values, keys)) == KeySet(values) * keys
  {
    var r := FilterKeys(values, keys);
    forall k | k in KeySet(r)
      ensures k in KeySet(values) * keys
    {
      var i :| 0 <= i < |r| && CanonicalKey.Key(r[i]) == k;
      assert r[i] in r && r[i] in values;
    }
    forall k | k in KeySet(values) * keys
      ensures k in KeySet(r)
    {
      var i :| 0 <= i < |values| && CanonicalKey.Key(values[i]) == k;
      assert values[i] in values && values[i] in r;
    }
  }

  /** Filtering by type keeps what the types accept, except a mistyped listing. */
  lemma FilterTypesMeans(values: seq<Value>, names: seq<string>, v: Value)
    requires AllJson(values) && KeysDistinct(values) && Valid(v)
    ensures CanonicalKey.Key(v) in KeySet(FilterTypes(values, names))
       <==> CanonicalKey.Key(v) in KeySet(values) && NamesAccept(names, v) && !MistypedIn(values, names, v)
  {
    var r, key := FilterTypes(values, names), CanonicalKey.Key(v);
    if key in KeySet(r) {
      var i :| 0 <= i < |r| && CanonicalKey.Key(r[i]) == key;
      assert r[i] in r && r[i] in values;
      var j :| 0 <= j < |values| && values[j] == r[i];
      EqualTypes(values[j], v, names);
      MistypedIff(values[j], names);
    }
    if key in KeySet(values) && NamesAccept(names, v) && !MistypedIn(values, names, v) {
      var i :| 0 <= i < |values| && CanonicalKey.Key(values[i]) == key;
      EqualTypes(values[i], v, names);
      MistypedIff(values[i], names);
      assert values[i] in values && values[i] in r;
      var k :| 0 <= k < |r| && r[k] == values[i];
    }
  }

  predicate ListsValues(s: Schema)
    requires s.Node?
  {
    s.enumeration.Some? || s.constant.Some?
  }

  /** What a schema lists, as it stands there. */
  function OwnList(s: Schema): seq<Value>
    requires s.Node?
  {
    if s.constant.Some? then [s.constant.value] else if s.enumeration.Some? then s.enumeration.value else []
  }

  /** The list whose copies the result takes: the base's, or the overlay's when the base lists none. */
  function Listing(b: Schema, o: Schema): seq<Value>
    requires b.Node? && o.Node?
  {
    if ListsValues(b) then OwnList(b) else OwnList(o)
  }

  /** The first of the equal values in a list. */
  predicate FirstOfKey(values: seq<Value>, i: nat)
    requires i < |values|
  {
    forall j :: 0 <= j < i ==> CanonicalKey.Key(values[j]) != CanonicalKey.Key(values[i])
  }

  /** A copy that counts, of a value that both sides list if they list any. */
  ghost predicate Shared(b: Schema, o: Schema, i: nat)
    requires b.Node? && o.Node? && i < |Listing(b, o)|
  {
    var x := Listing(b, o)[i];
    FirstOfKey(Listing(b, o), i) && ValuePart(b, x) && ValuePart(o, x)
  }

  /** Conjoining drops v: the copy that counts is a float where only integers may stand. */
  ghost predicate DroppedFrom(b: Schema, o: Schema, names: seq<string>, v: Value)
    requires b.Node? && o.Node?
  {
    exists i :: 0 <= i < |Listing(b, o)| && Shared(b, o, i) &&
      CanonicalKey.Key(Listing(b, o)[i]) == CanonicalKey.Key(v) && Mistyped(Listing(b, o)[i], names)
  }

  /** x is the first copy of its key among the first n values. */
  ghost predicate IsFirstCopy(values: seq<Value>, n: nat, x: Value)
    requires n <= |values|
  {
    exists i :: 0 <= i < n && FirstOfKey(values, i) && values[i] == x
  }

  lemma OneMoreCopy(values: seq<Value>, n: nat, x: Value)
    requires n < |values|
    ensures IsFirstCopy(values, n + 1, x) <==> IsFirstCopy(values, n, x) || (FirstOfKey(values, n) && values[n] == x)
  {
  }

  lemma {:induction false} UniqueAreFirst(values: seq<Value>, n: nat, x: Value)
    requires n <= |values|
    ensures x in Unique(values[..n]) <==> IsFirstCopy(values, n, x)
  {
    if n > 0 {
      UniqueAreFirst(values, n - 1, x);
      UniqueKeepsKeys(values[..n - 1]);
      LastIsFirst(values, n - 1);
      OneMoreCopy(values, n - 1, x);
      assert values[..n][..n - 1] == values[..n - 1] && values[..n][n - 1] == values[n - 1];
    }
  }

  lemma LastIsFirst(values: seq<Value>, n: nat)
    requires n < |values|
    ensures FirstOfKey(values, n) <==> CanonicalKey.Key(values[n]) !in KeySet(values[..n])
  {
    if !FirstOfKey(values, n) {
      var j :| 0 <= j < n && CanonicalKey.Key(values[j]) == CanonicalKey.Key(values[n]);
      assert values[..n][j] == values[j];
    }
  }

  /** The values one side allows are the first copies in its own list that it accepts itself. */
  lemma ConstrainedAreFirst(s: Schema, x: Value)
    requires s.Node? && ListsJson(s) && ListsValues(s) && ConstrainedValues(s).Ok?
    ensures ConstrainedValues(s).value.Some?
    ensures x in ConstrainedValues(s).value.value <==>
            exists i :: 0 <= i < |OwnList(s)| && FirstOfKey(OwnList(s), i) && OwnList(s)[i] == x
    ensures x in ConstrainedValues(s).value.value ==> Valid(x) && ValuePart(s, x)
  {
    var values := ConstrainedValues(s).value.value;
    ConstrainedValuesMeans(s, Null);
    if s.constant.Some? {
      assert FirstOfKey(OwnList(s), 0) && OwnList(s)[0] == s.constant.value;
    } else {
      var all := s.enumeration.value;
      UniqueAreFirst(all, |all|, x);
      assert all[..|all|] == all;
    }
    if x in values {
      var i :| 0 <= i < |values| && values[i] == x;
      ConstrainedValuesMeans(s, x);
    }
  }

  /** The values both sides list are the shared copies. */
  lemma CommonAreShared(b: Schema, o: Schema, x: Value)
    requires b.Node? && o.Node? && ListsJson(b) && ListsJson(o) && (ListsValues(b) || ListsValues(o))
    requires ConstrainedValues(b).Ok? && ConstrainedValues(o).Ok?
    ensures var values := CommonValues(ConstrainedValues(b).value, ConstrainedValues(o).value);
      && values.Some?
      && (x in values.value <==> exists i :: 0 <= i < |Listing(b, o)| && Shared(b, o, i) && Listing(b, o)[i] == x)
  {
    var own, other := if ListsValues(b) then b else o, if ListsValues(b) then o else b;
    ConstrainedAreFirst(own, x);
    if Valid(x) {
      ConstrainedValuesMeans(other, x);
    }
    if x in ConstrainedValues(own).value.value && ValuePart(other, x) {
      var i :| 0 <= i < |OwnList(own)| && FirstOfKey(OwnList(own), i) && OwnList(own)[i] == x;
      assert Shared(b, o, i);
    }
  }

  /** The list both sides agree on holds v as a mistyped float. */
  predicate MistypedInCommon(b: Schema, o: Schema, names: seq<string>, v: Value)
    requires b.Node? && o.Node?
  {
    var left, right := ConstrainedValues(b), ConstrainedValues(o);
    && left.Ok? && right.Ok?
    && CommonValues(left.value, right.value).Some?
    && MistypedIn(CommonValues(left.value, right.value).value, names, v)
  }

  lemma DroppedFromCommon(b: Schema, o: Schema, names: seq<string>, v: Value)
    requires b.Node? && o.Node? && ListsJson(b) && ListsJson(o)
    ensures DroppedFrom(b, o, names, v) <==> MistypedInCommon(b, o, names, v)
  {
    if DroppedFrom(b, o, names, v) {
      var i :| 0 <= i < |Listing(b, o)| && Shared(b, o, i) &&
        CanonicalKey.Key(Listing(b, o)[i]) == CanonicalKey.Key(v) && Mistyped(Listing(b, o)[i], names);
      var x := Listing(b, o)[i];
      ListingIsJson(b, o, i);
      ConstrainedValuesMeans(b, x);
      ConstrainedValuesMeans(o, x);
      CommonAreShared(b, o, x);
      var values := CommonValues(ConstrainedValues(b).value, ConstrainedValues(o).value).value;
      var k :| 0 <= k < |values| && values[k] == x;
    }
    if MistypedInCommon(b, o, names, v) {
      var values := CommonValues(ConstrainedValues(b).value, ConstrainedValues(o).value).value;
      var k :| 0 <= k < |values| && CanonicalKey.Key(values[k]) == CanonicalKey.Key(v) && Mistyped(values[k], names);
      CommonAreShared(b, o, values[k]);
    }
  }

  lemma ListingIsJson(b: Schema, o: Schema, i: nat)
    requires b.Node? && o.Node? && ListsJson(b) && ListsJson(o) && i < |Listing(b, o)|
    ensures Valid(Listing(b, o)[i]) && (ListsValues(b) || ListsValues(o))
  {
  }

  lemma ConjoinValuesMeans(b: Schema, o: Schema, names: seq<string>, v: Value)
    requires b.Node? && o.Node? && ListsJson(b) && ListsJson(o) && Valid(v)
    requires NamesAccept(names, v)
    ensures var r := ConjoinValues(b, o, names);
      (ValuePart(b, v) && ValuePart(o, v) && !DroppedFrom(b, o, names, v)) <==> (r.Ok? && Allowed(r.value, v))
  {
    var left, right := ConstrainedValues(b), ConstrainedValues(o);
    DroppedFromCommon(b, o, names, v);
    ConstrainedValuesMeans(b, v);
    ConstrainedValuesMeans(o, v);
    if left.Ok? && right.Ok? {
      ListsMean(left.value, right.value, names, v);
    }
  }

  lemma ListsMean(left: Option<seq<Value>>, right: Option<seq<Value>>, names: seq<string>, v: Value)
    requires left.Some? ==> AllJson(left.value) && KeysDistinct(left.value)
    requires right.Some? ==> AllJson(right.value) && KeysDistinct(right.value)
    requires Valid(v) && NamesAccept(names, v)
    ensures var values := CommonValues(left, right);
      if values.None? then Allowed(left, v) && Allowed(right, v)
      else
        var kept := FilterTypes(values.value, names);
        Allowed(left, v) && Allowed(right, v) && !MistypedIn(values.value, names, v) <==>
          (kept != [] && Allowed(Some(Unique(kept)), v))
  {
    CommonValuesMeans(left, right, v);
    KeptValuesMean(CommonValues(left, right), names, v);
  }

  /** Dropping values of other types, and repetitions, loses only mistyped listings. */
  lemma KeptValuesMean(values: Option<seq<Value>>, names: seq<string>, v: Value)
    requires values.Some? ==> AllJson(values.value) && KeysDistinct(values.value)
    requires Valid(v) && NamesAccept(names, v)
    ensures values.Some? ==>
      var kept := FilterTypes(values.value, names);
      Allowed(values, v) && !MistypedIn(values.value, names, v) <==> (kept != [] && Allowed(Some(Unique(kept)), v))
  {
    if values.Some? {
      FilterTypesMeans(values.value, names, v);
      UniqueKeepsKeys(FilterTypes(values.value, names));
    }
  }

  lemma CommonValuesMeans(left: Option<seq<Value>>, right: Option<seq<Value>>, v: Value)
    requires left.Some? ==> AllJson(left.value) && KeysDistinct(left.value)
    requires right.Some? ==> AllJson(right.value) && KeysDistinct(right.value)
    ensures Allowed(CommonValues(left, right), v) <==> Allowed(left, v) && Allowed(right, v)
    ensures var r := CommonValues(left, right); r.Some? ==> AllJson(r.value) && KeysDistinct(r.value)
  {
    if left.Some? && right.Some? {
      FilterKeysMeans(left.value, KeySet(right.value));
      FilterKeysDistinct(left.value, KeySet(right.value));
      SubsetJson(FilterKeys(left.value, KeySet(right.value)), left.value);
    }
  }

  /** What the conjunction lists is listed by one side. */
  lemma ConjoinValuesJson(b: Schema, o: Schema, names: seq<string>)
    requires b.Node? && o.Node? && ListsJson(b) && ListsJson(o)
    ensures var r := ConjoinValues(b, o, names);
      r.Ok? && r.value.Some? ==> AllJson(r.value.value)
  {
    var left, right := ConstrainedValues(b), ConstrainedValues(o);
    ConstrainedValuesMeans(b, Null);
    ConstrainedValuesMeans(o, Null);
    if left.Ok? && right.Ok? && (left.value.Some? || right.value.Some?) {
      var source := if left.value.Some? then left.value.value else right.value.value;
      var r := ConjoinValues(b, o, names);
      if r.Ok? {
        SubsetJson(r.value.value, source);
      }
    }
  }

  // ---------- Required members and uninterpreted keywords ----------

  lemma ConjoinRequiredMeans(b: Schema, o: Schema, m: Schema, v: Value)
    requires b.Node? && o.Node? && m.Node? && m.required == ConjoinRequired(b, o)
    ensures (RequiredPart(b, v) && RequiredPart(o, v)) <==> RequiredPart(m, v)
  {
    var left := if b.required.Some? then b.required.value else [];
    var right := if o.required.Some? then o.required.value else [];
    if v.Obj? && m.required.Some? {
      var r := m.required.value;
      assert forall name :: name in r <==> name in left || name in right;
      assert RequiredPart(m, v) <==> forall name :: name in r ==> HasMember(v, name);
      assert RequiredPart(b, v) <==> forall name :: name in left ==> HasMember(v, name);
      assert RequiredPart(o, v) <==> forall name :: name in right ==> HasMember(v, name);
    }
  }

  ghost predicate KeywordsHold(ks: seq<Keyword>, v: Value, oracle: Oracle) {
    forall i :: 0 <= i < |ks| ==> IsAnnotation(ks[i].key) || oracle(ks[i], v)
  }

  lemma KeywordsCons(k: Keyword, ks: seq<Keyword>, v: Value, oracle: Oracle)
    ensures KeywordsHold([k] + ks, v, oracle) <==> (IsAnnotation(k.key) || oracle(k, v)) && KeywordsHold(ks, v, oracle)
  {
    assert ([k] + ks)[0] == k;
    assert forall i :: 0 <= i < |ks| ==> ([k] + ks)[i + 1] == ks[i];
  }

  /** No keyword is lost: the kept ones and the ones moved into conjuncts say what both sides said. */
  lemma {:induction false} MergeOtherMeans(b: seq<Keyword>, o: seq<Keyword>, v: Value, oracle: Oracle)
    ensures var (merged, lost) := MergeOther(b, o);
      (KeywordsHold(b, v, oracle) && KeywordsHold(o, v, oracle))
      <==> (KeywordsHold(merged, v, oracle) && KeywordsHold(lost, v, oracle))
    decreases |b| + |o|
  {
    if b != [] && o != [] {
      assert b == [b[0]] + b[1..] && o == [o[0]] + o[1..];
      KeywordsCons(b[0], b[1..], v, oracle);
      KeywordsCons(o[0], o[1..], v, oracle);
      var b', o' := b, o;
      if b[0].key == o[0].key {
        b', o' := b[1..], o[1..];
      } else if CodePointLess(b[0].key, o[0].key) {
        b' := b[1..];
      } else {
        o' := o[1..];
      }
      MergeOtherMeans(b', o', v, oracle);
      var (merged, lost) := MergeOther(b', o');
      KeywordsCons(b[0], merged, v, oracle);
      KeywordsCons(o[0], merged, v, oracle);
      KeywordsCons(o[0], lost, v, oracle);
    }
  }

  lemma ConjunctAccepts(k: Keyword, v: Value, oracle: Oracle)
    ensures Accepts(EMPTY.(other := [k]), v, oracle) <==> IsAnnotation(k.key) || oracle(k, v)
  {
    var s := EMPTY.(other := [k]);
    assert s.other[0] == k;
    if v.Obj? {
      assert forall i :: 0 <= i < |v.members| ==> MemberPart(s, v.members[i], oracle);
    }
  }

  ghost predicate AllAccept(schemas: seq<Schema>, v: Value, oracle: Oracle) {
    forall i :: 0 <= i < |schemas| ==> Accepts(schemas[i], v, oracle)
  }

  lemma ConjunctsAccept(lost: seq<Keyword>, v: Value, oracle: Oracle)
    ensures AllAccept(AsConjuncts(lost), v, oracle) <==> KeywordsHold(lost, v, oracle)
  {
    forall i | 0 <= i < |lost|
      ensures Accepts(AsConjuncts(lost)[i], v, oracle) <==> IsAnnotation(lost[i].key) || oracle(lost[i], v)
    {
      ConjunctAccepts(lost[i], v, oracle);
    }
  }

  lemma AllAcceptConcat(xs: seq<Schema>, ys: seq<Schema>, v: Value, oracle: Oracle)
    ensures AllAccept(xs + ys, v, oracle) <==> AllAccept(xs, v, oracle) && AllAccept(ys, v, oracle)
  {
    assert forall i :: 0 <= i < |xs| ==> (xs + ys)[i] == xs[i];
    assert forall i :: 0 <= i < |ys| ==> (xs + ys)[|xs| + i] == ys[i];
  }

  /** Opaque keywords and `allOf` branches together: kept exactly. */
  lemma ConjoinOtherMeans(b: Schema, o: Schema, m: Schema, v: Value, oracle: Oracle)
    requires b.Node? && o.Node? && m.Node?
    requires m.other == MergeOther(b.other, o.other).0
    requires m.allOf == b.allOf + o.allOf + AsConjuncts(MergeOther(b.other, o.other).1)
    ensures (OtherPart(b, v, oracle) && OtherPart(o, v, oracle) && AllOfPart(b, v, oracle) && AllOfPart(o, v, oracle))
       <==> (OtherPart(m, v, oracle) && AllOfPart(m, v, oracle))
  {
    var lost := MergeOther(b.other, o.other).1;
    MergeOtherMeans(b.other, o.other, v, oracle);
    BranchesMean(b.allOf, o.allOf, lost, v, oracle);
    AllOfIsAllAccept(b, v, oracle);
    AllOfIsAllAccept(o, v, oracle);
    AllOfIsAllAccept(m, v, oracle);
  }

  lemma AllOfIsAllAccept(s: Schema, v: Value, oracle: Oracle)
    requires s.Node?
    ensures AllOfPart(s, v, oracle) <==> AllAccept(s.allOf, v, oracle)
  {
  }

  lemma BranchesMean(xs: seq<Schema>, ys: seq<Schema>, lost: seq<Keyword>, v: Value, oracle: Oracle)
    ensures AllAccept(xs + ys + AsConjuncts(lost), v, oracle) <==>
            AllAccept(xs, v, oracle) && AllAccept(ys, v, oracle) && KeywordsHold(lost, v, oracle)
  {
    ConjunctsAccept(lost, v, oracle);
    AllAcceptConcat(xs, ys, v, oracle);
    AllAcceptConcat(xs + ys, AsConjuncts(lost), v, oracle);
  }

  // ---------- What a conjunction may lose or let through ----------

  /** Listed values are JSON at every depth that a conjunction compares. */
  predicate WellFormed(s: Schema) {
    s.Node? ==>
      && ListsJson(s)
      && (s.properties.Declared? ==> forall name :: name in s.properties.schemas ==> WellFormed(s.properties.schemas[name]))
      && (s.additional.Some? ==> WellFormed(s.additional.value))
  }

  /** The two nodes' own lists and types drop v. */
  ghost predicate Dropped(b: Schema, o: Schema, v: Value) {
    && b.Node? && o.Node? && ConjoinTypes(b, o).Ok?
    && DroppedFrom(b, o, ConjoinTypes(b, o).value, v)
  }

  /** Some value inside v is dropped where two schemas meet. */
  ghost predicate Drops(b: Schema, o: Schema, v: Value)
    decreases b, 2
  {
    && b.Node? && o.Node?
    && (Dropped(b, o, v) || (v.Obj? && exists i :: 0 <= i < |v.members| && MemberDrops(b, o, v.members[i])))
  }

  ghost predicate MemberDrops(b: Schema, o: Schema, m: Member)
    requires b.Node? && o.Node?
    decreases b, 1
  {
    if b.properties.Declared? && m.key in b.properties.schemas then
      m.key in o.Props() && Drops(b.properties.schemas[m.key], o.Props()[m.key], m.value)
    else m.key !in o.Props() && b.additional.Some? && Drops(b.additional.value, o.Additional(), m.value)
  }

  /**
   A member escapes when only one side declares it and the other side's `additionalProperties`
   rejects its value, here or at a greater depth: the conjunction then checks it against the
   declaring side only.
   */
  ghost predicate Escapes(b: Schema, o: Schema, v: Value, oracle: Oracle)
    decreases b, 2
  {
    && b.Node? && o.Node? && v.Obj?
    && exists i :: 0 <= i < |v.members| && MemberEscapes(b, o, v.members[i], oracle)
  }

  ghost predicate MemberEscapes(b: Schema, o: Schema, m: Member, oracle: Oracle)
    requires b.Node? && o.Node?
    decreases b, 1
  {
    if b.properties.Declared? && m.key in b.properties.schemas then
      if m.key in o.Props() then Escapes(b.properties.schemas[m.key], o.Props()[m.key], m.value, oracle)
      else !Accepts(o.Additional(), m.value, oracle)
    else if m.key in o.Props() then !Accepts(b.Additional(), m.value, oracle)
    else b.additional.Some? && Escapes(b.additional.value, o.Additional(), m.value, oracle)
  }

  lemma EmptyAcceptsAll(v: Value, oracle: Oracle)
    ensures Accepts(EMPTY, v, oracle)
  {
  }

  lemma MemberAsAdditional(s: Schema, m: Member, oracle: Oracle)
    requires s.Node? && m.key !in s.Props()
    ensures MemberPart(s, m, oracle) <==> Accepts(s.Additional(), m.value, oracle)
  {
  }

  lemma MemberAsDeclared(s: Schema, m: Member, oracle: Oracle)
    requires s.Node? && m.key in s.Props()
    ensures MemberPart(s, m, oracle) <==> Accepts(s.Props()[m.key], m.value, oracle)
  {
  }

  // ---------- Conflicts ----------

  /** One side names no type at all, or no type of one side meets a type of the other. */
  ghost predicate NoCommonType(b: Schema, o: Schema)
    requires b.Node? && o.Node?
  {
    || b.types == Some([])
    || o.types == Some([])
    || (b.types.Some? && o.types.Some? && NothingMeets(b.types.value, o.types.value))
  }

  ghost predicate NothingMeets(left: seq<string>, right: seq<string>) {
    forall l, r :: l in left && r in right ==> Meet(l, r).None?
  }

  /** The types and the listed values of both sides allow v. */
  ghost predicate BothAllow(b: Schema, o: Schema, v: Value)
    requires b.Node? && o.Node?
  {
    TypePart(b, v) && TypePart(o, v) && ValuePart(b, v) && ValuePart(o, v)
  }

  /** Values are listed, but none that both sides allow survives. */
  ghost predicate NoCommonValue(b: Schema, o: Schema)
    requires b.Node? && o.Node?
  {
    && (ListsValues(b) || ListsValues(o))
    && forall v :: Valid(v) && BothAllow(b, o, v) ==> Dropped(b, o, v)
  }

  /** A conflict of the two schemas themselves: a `false` schema, types or listed values. */
  ghost predicate OwnConflict(b: Schema, o: Schema) {
    || b == Always(false)
    || o == Always(false)
    || (b.Node? && o.Node? && (NoCommonType(b, o) || NoCommonValue(b, o)))
  }

  /** Two schemas conflict themselves, in a property both declare, or in what both say of other members. */
  ghost predicate Conflict(b: Schema, o: Schema)
    decreases b
  {
    || OwnConflict(b, o)
    || (b.Node? && o.Node? &&
        (|| (b.properties.Declared? &&
             exists name :: name in b.properties.schemas && name in o.Props() &&
               Conflict(b.properties.schemas[name], o.Props()[name]))
         || (b.additional.Some? && b.additional.value.Node? && o.Additional().Node? &&
             Conflict(b.additional.value, o.Additional()))))
  }

  lemma {:induction false} MeetWithAllEmpty(acc: seq<string>, left: string, right: seq<string>)
    ensures MeetWithAll(acc, left, right) == [] <==> acc == [] && forall r :: r in right ==> Meet(left, r).None?
  {
    if right != [] {
      var n := |right| - 1;
      MeetWithAllEmpty(acc, left, right[..n]);
      assert right == right[..n] + [right[n]];
    }
  }

  lemma {:induction false} MeetAllEmpty(left: seq<string>, right: seq<string>)
    ensures MeetAll(left, right) == [] <==> NothingMeets(left, right)
  {
    if left != [] {
      var n := |left| - 1;
      MeetAllEmpty(left[..n], right);
      MeetWithAllEmpty(MeetAll(left[..n], right), left[n], right);
      assert left == left[..n] + [left[n]];
    }
  }

  lemma {:induction false} RemovingKeepsOthers(names: seq<string>, x: string, y: string)
    requires y in names && x != y
    ensures y in RemoveFirst(names, x)
  {
    assert names == [names[0]] + names[1..];
    if names[0] != x && names[0] != y {
      RemovingKeepsOthers(names[1..], x, y);
    }
  }

  lemma TypesRefusedIff(b: Schema, o: Schema)
    requires b.Node? && o.Node?
    ensures ConjoinTypes(b, o).Unsatisfiable? <==> NoCommonType(b, o)
  {
    var left := if b.types.Some? then b.types.value else [];
    var right := if o.types.Some? then o.types.value else [];
    MeetAllEmpty(left, right);
    var all := MeetAll(left, right);
    if "number" in all && "integer" in all {
      RemovingKeepsOthers(all, "integer", "number");
    }
  }

  lemma ValuesRefusedIff(b: Schema, o: Schema)
    requires b.Node? && o.Node? && ListsJson(b) && ListsJson(o) && ConjoinTypes(b, o).Ok?
    ensures ConjoinValues(b, o, ConjoinTypes(b, o).value).Unsatisfiable? <==> NoCommonValue(b, o)
  {
    var names := ConjoinTypes(b, o).value;
    var r := ConjoinValues(b, o, names);
    if r.Unsatisfiable? {
      forall v | Valid(v) && BothAllow(b, o, v) ensures Dropped(b, o, v) {
        ConjoinTypesMeans(b, o, v);
        ConjoinValuesMeans(b, o, names, v);
      }
    } else if ListsValues(b) || ListsValues(o) {
      KeptValueIsAllowed(b, o, r.value.value[0]);
    }
  }

  /** A value that the conjunction lists is allowed by both sides and not dropped. */
  lemma KeptValueIsAllowed(b: Schema, o: Schema, x: Value)
    requires b.Node? && o.Node? && ListsJson(b) && ListsJson(o) && ConjoinTypes(b, o).Ok?
    requires var r := ConjoinValues(b, o, ConjoinTypes(b, o).value); r.Ok? && r.value.Some? && x in r.value.value
    ensures Valid(x) && BothAllow(b, o, x) && !Dropped(b, o, x)
  {
    var names := ConjoinTypes(b, o).value;
    var values := ConjoinValues(b, o, names).value.value;
    ConjoinValuesJson(b, o, names);
    var i :| 0 <= i < |values| && values[i] == x;
    MistypedIff(x, names);
    ConjoinTypesMeans(b, o, x);
    ConjoinValuesMeans(b, o, names, x);
  }

  lemma OwnConflictIff(b: Schema, o: Schema)
    requires b.Node? && o.Node? && ListsJson(b) && ListsJson(o)
    ensures OwnConflict(b, o) <==>
            ConjoinTypes(b, o).Unsatisfiable? || ConjoinValues(b, o, ConjoinTypes(b, o).value).Unsatisfiable?
  {
    TypesRefusedIff(b, o);
    if ConjoinTypes(b, o).Ok? {
      ValuesRefusedIff(b, o);
    }
  }

  /** Conjoining refuses exactly when the schemas conflict, at whatever depth. */
  lemma {:induction false} RefusedIffConflict(b: Schema, o: Schema)
    requires WellFormed(b) && WellFormed(o)
    ensures Conjoin(b, o).Unsatisfiable? <==> Conflict(b, o)
    decreases b
  {
    if b.Node? && o.Node? {
      OwnConflictIff(b, o);
      if b.properties.Declared? {
        forall name | name in b.properties.schemas && name in o.Props()
          ensures Conjoin(b.properties.schemas[name], o.Props()[name]).Unsatisfiable? <==>
                  Conflict(b.properties.schemas[name], o.Props()[name])
        {
          RefusedIffConflict(b.properties.schemas[name], o.Props()[name]);
        }
      }
      if b.additional.Some? && b.additional.value.Node? && o.Additional().Node? {
        RefusedIffConflict(b.additional.value, o.Additional());
      }
    }
  }

  // ---------- The meaning of a conjunction ----------

  /** The conjunction that never refuses: conflicting schemas become `false` where they meet. */
  ghost function Total(b: Schema, o: Schema): Schema
    decreases b, 2
  {
    if OwnConflict(b, o) then Always(false)
    else if b.Always? then if o.Node? then o else EMPTY
    else if o.Always? then b
    else
      var types := ConjoinTypes(b, o);
      var names := if types.Ok? then types.value else [];
      var values := ConjoinValues(b, o, names);
      var (other, lost) := MergeOther(b.other, o.other);
      Node(if names == [] then None else Some(names), if values.Ok? then values.value else None, None,
           ConjoinRequired(b, o), TotalProperties(b, o), TotalAdditional(b, o),
           b.allOf + o.allOf + AsConjuncts(lost), other)
  }

  ghost function TotalProperties(b: Schema, o: Schema): Properties
    requires b.Node? && o.Node?
    decreases b, 1
  {
    var left, right := b.Props(), o.Props();
    if b.properties.Undeclared? && o.properties.Undeclared? then Undeclared
    else
      Declared(map name | name in left.Keys + right.Keys ::
        if name in left && name in right then Total(b.properties.schemas[name], right[name])
        else if name in left then left[name]
        else right[name])
  }

  ghost function TotalAdditional(b: Schema, o: Schema): Option<Schema>
    requires b.Node? && o.Node?
    decreases b, 1
  {
    if b.additional.None? && o.additional.None? then None
    else
      var left, right := b.Additional(), o.Additional();
      if left == Always(false) || right == Always(false) then Some(Always(false))
      else if left.Always? then Some(right)
      else if right.Always? then Some(left)
      else Some(Total(b.additional.value, right))
  }

  /** When conjoining does not refuse, its result is the total conjunction. */
  lemma {:induction false} ConjoinIsTotal(b: Schema, o: Schema)
    requires WellFormed(b) && WellFormed(o) && Conjoin(b, o).Ok?
    ensures Conjoin(b, o).value == Total(b, o)
    decreases b, 2
  {
    if b.Node? && o.Node? {
      OwnConflictIff(b, o);
      PropertiesAreTotal(b, o);
      if b.Additional().Node? && o.Additional().Node? {
        ConjoinIsTotal(b.additional.value, o.Additional());
      }
    }
  }

  lemma {:induction false} PropertiesAreTotal(b: Schema, o: Schema)
    requires b.Node? && o.Node? && WellFormed(b) && WellFormed(o) && ConjoinProperties(b, o).Ok?
    ensures ConjoinProperties(b, o).value == TotalProperties(b, o)
    decreases b, 1
  {
    var left, right := b.Props(), o.Props();
    forall name | name in left && name in right
      ensures Conjoin(b.properties.schemas[name], right[name]) == Ok(Total(b.properties.schemas[name], right[name]))
    {
      ConjoinIsTotal(b.properties.schemas[name], right[name]);
    }
    var m, t := ConjoinProperties(b, o).value, TotalProperties(b, o);
    if m.Declared? {
      assert m.schemas == t.schemas;
    }
  }

  /** No value meets an own conflict, except one that is dropped. */
  lemma OwnConflictIsUnsatisfiable(b: Schema, o: Schema, v: Value, oracle: Oracle)
    requires WellFormed(b) && WellFormed(o) && Valid(v) && OwnConflict(b, o)
    requires Accepts(b, v, oracle) && Accepts(o, v, oracle)
    ensures Dropped(b, o, v)
  {
    TypesRefusedIff(b, o);
    ConjoinTypesMeans(b, o, v);
  }

  /**
   The exact meaning, for all schemas and values at every depth: both sides accept a value, and none
   of its parts is dropped, exactly when the total conjunction accepts it and no member escapes.
   */
  lemma {:induction false} TotalMeans(b: Schema, o: Schema, v: Value, oracle: Oracle)
    requires WellFormed(b) && WellFormed(o) && Valid(v)
    ensures (Accepts(b, v, oracle) && Accepts(o, v, oracle) && !Drops(b, o, v)) <==>
            (Accepts(Total(b, o), v, oracle) && !Escapes(b, o, v, oracle))
    decreases b, 2
  {
    if OwnConflict(b, o) {
      if Accepts(b, v, oracle) && Accepts(o, v, oracle) {
        OwnConflictIsUnsatisfiable(b, o, v, oracle);
      }
    } else if b.Node? && o.Node? {
      TotalMerges(b, o);
      TotalMembers(b, o);
      NodeMeans(b, o, Total(b, o), v, oracle);
      if v.Obj? {
        forall i | 0 <= i < |v.members|
          ensures (MemberPart(b, v.members[i], oracle) && MemberPart(o, v.members[i], oracle) && !MemberDrops(b, o, v.members[i]))
             <==> (MemberPart(Total(b, o), v.members[i], oracle) && !MemberEscapes(b, o, v.members[i], oracle))
        {
          TotalMemberMeans(b, o, Total(b, o), v.members[i], oracle);
        }
      }
    } else {
      EmptyAcceptsAll(v, oracle);
    }
  }

  /** All keywords but those about members. */
  ghost predicate NodePart(s: Schema, v: Value, oracle: Oracle)
    requires s.Node?
  {
    TypePart(s, v) && ValuePart(s, v) && RequiredPart(s, v) && OtherPart(s, v, oracle) && AllOfPart(s, v, oracle)
  }

  /** The merged keywords of a node other than those about members. */
  predicate Merged(b: Schema, o: Schema, m: Schema)
    requires b.Node? && o.Node?
  {
    && m.Node? && ConjoinTypes(b, o).Ok?
    && m.types == (if ConjoinTypes(b, o).value == [] then None else Some(ConjoinTypes(b, o).value))
    && m.constant.None? && ConjoinValues(b, o, ConjoinTypes(b, o).value) == Ok(m.enumeration)
    && m.required == ConjoinRequired(b, o)
    && m.other == MergeOther(b.other, o.other).0
    && m.allOf == b.allOf + o.allOf + AsConjuncts(MergeOther(b.other, o.other).1)
  }

  lemma TotalMerges(b: Schema, o: Schema)
    requires b.Node? && o.Node? && WellFormed(b) && WellFormed(o) && !OwnConflict(b, o)
    ensures Merged(b, o, Total(b, o))
  {
    OwnConflictIff(b, o);
  }

  lemma NodeMeans(b: Schema, o: Schema, m: Schema, v: Value, oracle: Oracle)
    requires b.Node? && o.Node? && WellFormed(b) && WellFormed(o) && Valid(v) && Merged(b, o, m)
    ensures (NodePart(b, v, oracle) && NodePart(o, v, oracle) && !Dropped(b, o, v)) <==> NodePart(m, v, oracle)
  {
    var names := ConjoinTypes(b, o).value;
    ConjoinTypesMeans(b, o, v);
    if NamesAccept(names, v) {
      MergedListMeans(b, o, m, names, v);
      ConjoinRequiredMeans(b, o, m, v);
      ConjoinOtherMeans(b, o, m, v, oracle);
    }
  }

  lemma MergedListMeans(b: Schema, o: Schema, m: Schema, names: seq<string>, v: Value)
    requires b.Node? && o.Node? && m.Node? && ListsJson(b) && ListsJson(o) && Valid(v) && NamesAccept(names, v)
    requires m.constant.None? && ConjoinValues(b, o, names) == Ok(m.enumeration)
    ensures (ValuePart(b, v) && ValuePart(o, v) && !DroppedFrom(b, o, names, v)) <==> ValuePart(m, v)
  {
    ConjoinValuesMeans(b, o, names, v);
    ConjoinValuesJson(b, o, names);
    MergedValues(m, v);
  }

  lemma MergedValues(m: Schema, v: Value)
    requires m.Node? && m.constant.None? && Valid(v) && (m.enumeration.Some? ==> AllJson(m.enumeration.value))
    ensures ValuePart(m, v) <==> Allowed(m.enumeration, v)
  {
    if m.enumeration.Some? {
      OneOfIsKeyIn(m.enumeration.value, v);
    }
  }

  lemma TotalMembers(b: Schema, o: Schema)
    requires b.Node? && o.Node? && !OwnConflict(b, o)
    ensures Total(b, o).Node?
    ensures Total(b, o).properties == TotalProperties(b, o) && Total(b, o).additional == TotalAdditional(b, o)
  {
  }

  ghost function TotalProperty(b: Schema, o: Schema, name: string): Schema
    requires b.Node? && o.Node? && (name in b.Props() || name in o.Props())
  {
    if name in b.Props() && name in o.Props() then Total(b.properties.schemas[name], o.Props()[name])
    else if name in b.Props() then b.Props()[name]
    else o.Props()[name]
  }

  lemma TotalNames(b: Schema, o: Schema, m: Schema)
    requires b.Node? && o.Node? && m.Node? && m.properties == TotalProperties(b, o)
    ensures m.Props().Keys == b.Props().Keys + o.Props().Keys
    ensures forall name :: name in m.Props() ==> m.Props()[name] == TotalProperty(b, o, name)
  {
  }

  lemma {:induction false} TotalMemberMeans(b: Schema, o: Schema, m: Schema, member: Member, oracle: Oracle)
    requires b.Node? && o.Node? && WellFormed(b) && WellFormed(o) && Valid(member.value) && !OwnConflict(b, o)
    requires m == Total(b, o)
    ensures m.Node?
    ensures (MemberPart(b, member, oracle) && MemberPart(o, member, oracle) && !MemberDrops(b, o, member))
       <==> (MemberPart(m, member, oracle) && !MemberEscapes(b, o, member, oracle))
    decreases b, 1
  {
    var name := member.key;
    TotalMembers(b, o);
    TotalNames(b, o, m);
    if name in b.Props() && name in o.Props() {
      TotalMeans(b.properties.schemas[name], o.Props()[name], member.value, oracle);
      MemberAsDeclared(m, member, oracle);
    } else if name in b.Props() || name in o.Props() {
      MemberAsDeclared(m, member, oracle);
      if name in b.Props() {
        MemberAsDeclared(b, member, oracle);
        MemberAsAdditional(o, member, oracle);
      } else {
        MemberAsDeclared(o, member, oracle);
        MemberAsAdditional(b, member, oracle);
      }
    } else {
      MemberAsAdditional(b, member, oracle);
      MemberAsAdditional(o, member, oracle);
      MemberAsAdditional(m, member, oracle);
      if b.Additional().Node? && o.Additional().Node? {
        TotalMeans(b.additional.value, o.Additional(), member.value, oracle);
      }
    }
  }

  /** So this is what a conjunction that is not refused means. */
  lemma ConjoinMeans(b: Schema, o: Schema, m: Schema, v: Value, oracle: Oracle)
    requires WellFormed(b) && WellFormed(o) && Valid(v) && Conjoin(b, o) == Ok(m)
    ensures (Accepts(b, v, oracle) && Accepts(o, v, oracle) && !Drops(b, o, v)) <==>
            (Accepts(m, v, oracle) && !Escapes(b, o, v, oracle))
  {
    ConjoinIsTotal(b, o);
    TotalMeans(b, o, v, oracle);
  }

  /** Whatever both sides accept, the conjunction accepts, except exactly what it drops. */
  lemma ConjoinAcceptsWhatBothAccept(b: Schema, o: Schema, m: Schema, v: Value, oracle: Oracle)
    requires WellFormed(b) && WellFormed(o) && Valid(v) && Conjoin(b, o) == Ok(m)
    requires Accepts(b, v, oracle) && Accepts(o, v, oracle)
    ensures Accepts(m, v, oracle) <==> !Drops(b, o, v)
    ensures !Escapes(b, o, v, oracle)
  {
    ConjoinMeans(b, o, m, v, oracle);
    AcceptedDoesNotEscape(b, o, v, oracle);
  }

  lemma {:induction false} AcceptedDoesNotEscape(b: Schema, o: Schema, v: Value, oracle: Oracle)
    requires Accepts(b, v, oracle) && Accepts(o, v, oracle)
    ensures !Escapes(b, o, v, oracle)
    decreases b
  {
    if b.Node? && o.Node? && v.Obj? {
      forall i | 0 <= i < |v.members|
        ensures !MemberEscapes(b, o, v.members[i], oracle)
      {
        var m := v.members[i];
        assert MemberPart(b, m, oracle) && MemberPart(o, m, oracle);
        if m.key in b.Props() && m.key in o.Props() {
          AcceptedDoesNotEscape(b.properties.schemas[m.key], o.Props()[m.key], m.value, oracle);
        } else if m.key !in b.Props() && m.key !in o.Props() && b.additional.Some? {
          AcceptedDoesNotEscape(b.additional.value, o.Additional(), m.value, oracle);
        }
      }
    }
  }

  /**
   What a caller can check: no list that two schemas share holds an integer as a float where the
   merged types have `integer` and not `number`, at any depth where schemas meet.
   */
  ghost predicate ListsFit(b: Schema, o: Schema)
    decreases b
  {
    b.Node? && o.Node? ==>
      && NoneMistyped(b, o)
      && (b.properties.Declared? ==>
            forall name :: name in b.properties.schemas && name in o.Props() ==>
              ListsFit(b.properties.schemas[name], o.Props()[name]))
      && (b.additional.Some? ==> ListsFit(b.additional.value, o.Additional()))
  }

  ghost predicate NoneMistyped(b: Schema, o: Schema)
    requires b.Node? && o.Node?
  {
    ConjoinTypes(b, o).Ok? ==>
      forall i :: 0 <= i < |Listing(b, o)| && Shared(b, o, i) ==> !Mistyped(Listing(b, o)[i], ConjoinTypes(b, o).value)
  }

  lemma {:induction false} FittingListsDropNothing(b: Schema, o: Schema, v: Value)
    requires ListsFit(b, o)
    ensures !Drops(b, o, v)
    decreases b
  {
    if b.Node? && o.Node? && v.Obj? {
      forall i | 0 <= i < |v.members|
        ensures !MemberDrops(b, o, v.members[i])
      {
        var m := v.members[i];
        if b.properties.Declared? && m.key in b.properties.schemas && m.key in o.Props() {
          FittingListsDropNothing(b.properties.schemas[m.key], o.Props()[m.key], m.value);
        } else if m.key !in b.Props() && m.key !in o.Props() && b.additional.Some? {
          FittingListsDropNothing(b.additional.value, o.Additional(), m.value);
        }
      }
    }
  }

  /** Whenever the copy that counts is mistyped, both sides' types and lists allow it and the conjunction does not. */
  lemma MistypedIsLost(b: Schema, o: Schema, m: Schema, i: nat, v: Value, oracle: Oracle)
    requires b.Node? && o.Node? && WellFormed(b) && WellFormed(o) && Valid(v) && Conjoin(b, o) == Ok(m)
    requires i < |Listing(b, o)| && Shared(b, o, i) && Mistyped(Listing(b, o)[i], ConjoinTypes(b, o).value)
    requires CanonicalKey.Key(Listing(b, o)[i]) == CanonicalKey.Key(v)
    ensures BothAllow(b, o, v) && !Accepts(m, v, oracle)
  {
    var names := ConjoinTypes(b, o).value;
    var x := Listing(b, o)[i];
    ListingIsJson(b, o, i);
    ConstrainedValuesMeans(b, x);
    ConstrainedValuesMeans(o, x);
    ConstrainedValuesMeans(b, v);
    ConstrainedValuesMeans(o, v);
    MistypedIff(x, names);
    EqualTypes(x, v, names);
    ConjoinTypesMeans(b, o, v);
    ConjoinIsTotal(b, o);
    ConjoinValuesMeans(b, o, names, v);
    ConjoinValuesJson(b, o, names);
    MergedValues(m, v);
  }

  predicate IsOpen(s: Schema)
    requires s.Node?
  {
    s.additional.None? || s.additional == Some(Always(true))
  }

  /**
   What a caller can check: on each side additional members are open, or the other side declares
   no member of its own; and so at every depth where two schemas meet.
   */
  predicate NamesAgree(b: Schema, o: Schema)
    decreases b
  {
    b.Node? && o.Node? ==>
      && (IsOpen(b) || o.Props().Keys <= b.Props().Keys)
      && (IsOpen(o) || b.Props().Keys <= o.Props().Keys)
      && (b.properties.Declared? ==>
            forall name :: name in b.properties.schemas && name in o.Props() ==>
              NamesAgree(b.properties.schemas[name], o.Props()[name]))
      && (b.additional.Some? ==> NamesAgree(b.additional.value, o.Additional()))
  }

  lemma {:induction false} NamesAgreeLetsNothingEscape(b: Schema, o: Schema, v: Value, oracle: Oracle)
    requires NamesAgree(b, o)
    ensures !Escapes(b, o, v, oracle)
    decreases b, 2
  {
    if b.Node? && o.Node? && v.Obj? {
      forall i | 0 <= i < |v.members|
        ensures !MemberEscapes(b, o, v.members[i], oracle)
      {
        var m := v.members[i];
        if b.properties.Declared? && m.key in b.properties.schemas && m.key in o.Props() {
          NamesAgreeLetsNothingEscape(b.properties.schemas[m.key], o.Props()[m.key], m.value, oracle);
        } else if m.key !in b.Props() && m.key !in o.Props() && b.additional.Some? {
          NamesAgreeLetsNothingEscape(b.additional.value, o.Additional(), m.value, oracle);
        }
      }
    }
  }

  /** When the declared names agree and the lists fit, the conjunction means exactly the conjunction. */
  lemma ConjoinIsConjunction(b: Schema, o: Schema, m: Schema, v: Value, oracle: Oracle)
    requires WellFormed(b) && WellFormed(o) && Valid(v) && Conjoin(b, o) == Ok(m) && NamesAgree(b, o) && ListsFit(b, o)
    ensures Accepts(m, v, oracle) <==> Accepts(b, v, oracle) && Accepts(o, v, oracle)
  {
    NamesAgreeLetsNothingEscape(b, o, v, oracle);
    FittingListsDropNothing(b, o, v);
    ConjoinMeans(b, o, m, v, oracle);
  }

  /** Without that agreement it can mean less: a closed side no longer rejects the other's names. */
  lemma ClosedSideIsWeakened(oracle: Oracle)
    ensures var b, o := EMPTY.(properties := Declared(map["a" := EMPTY])), EMPTY.(additional := Some(Always(false)));
      var v := Obj([Member("a", Null)]);
      && Conjoin(b, o).Ok? && Accepts(Conjoin(b, o).value, v, oracle)
      && Accepts(b, v, oracle) && !Accepts(o, v, oracle)
  {
    var b, o := EMPTY.(properties := Declared(map["a" := EMPTY])), EMPTY.(additional := Some(Always(false)));
    var v := Obj([Member("a", Null)]);
    assert ConjoinTypes(b, o) == Ok([]);
    assert ConstrainedValues(b) == Ok(None) && ConstrainedValues(o) == Ok(None);
    assert b.Props().Keys + o.Props().Keys == {"a"};
    assert ConjoinProperties(b, o).Ok? && ConjoinProperties(b, o).value.schemas == map["a" := EMPTY];
    assert ConjoinAdditional(b, o) == Ok(Some(Always(false)));
    var m := Conjoin(b, o).value;
    EmptyAcceptsAll(Null, oracle);
    assert v.members[0].key == "a";
    assert m.Props()["a"] == EMPTY;
    assert MemberPart(b, v.members[0], oracle) && MemberPart(m, v.members[0], oracle) && !MemberPart(o, v.members[0], oracle);
  }

  // ---------- Refusals ----------

  /** v reaches an own conflict through its own members. */
  ghost predicate Meets(b: Schema, o: Schema, v: Value)
    decreases b, 2
  {
    || OwnConflict(b, o)
    || (b.Node? && o.Node? && v.Obj? && exists i :: 0 <= i < |v.members| && MemberMeets(b, o, v.members[i]))
  }

  ghost predicate MemberMeets(b: Schema, o: Schema, m: Member)
    requires b.Node? && o.Node?
    decreases b, 1
  {
    if b.properties.Declared? && m.key in b.properties.schemas then
      m.key in o.Props() && Meets(b.properties.schemas[m.key], o.Props()[m.key], m.value)
    else
      m.key !in o.Props() && b.additional.Some? && b.additional.value.Node? && o.Additional().Node? &&
      Meets(b.additional.value, o.Additional(), m.value)
  }

  /** A refusal is right about every value that reaches a conflict: both sides accept none, but for dropped ones. */
  lemma {:induction false} MeetingIsUnsatisfiable(b: Schema, o: Schema, v: Value, oracle: Oracle)
    requires WellFormed(b) && WellFormed(o) && Valid(v) && Meets(b, o, v)
    ensures Accepts(b, v, oracle) && Accepts(o, v, oracle) ==> Drops(b, o, v)
    decreases b
  {
    if Accepts(b, v, oracle) && Accepts(o, v, oracle) {
      if OwnConflict(b, o) {
        OwnConflictIsUnsatisfiable(b, o, v, oracle);
      } else {
        var i :| 0 <= i < |v.members| && MemberMeets(b, o, v.members[i]);
        var m := v.members[i];
        assert MemberPart(b, m, oracle) && MemberPart(o, m, oracle);
        if b.properties.Declared? && m.key in b.properties.schemas {
          MeetingIsUnsatisfiable(b.properties.schemas[m.key], o.Props()[m.key], m.value, oracle);
        } else {
          MeetingIsUnsatisfiable(b.additional.value, o.Additional(), m.value, oracle);
        }
        assert MemberDrops(b, o, m);
      }
    }
  }

  /** No refusal without a conflict on the way: a value both sides accept is lost only by a conflict it does not reach. */
  lemma LostByRefusal(b: Schema, o: Schema, v: Value, oracle: Oracle)
    requires WellFormed(b) && WellFormed(o) && Valid(v) && Conjoin(b, o).Unsatisfiable?
    ensures Conflict(b, o)
    ensures (Accepts(b, v, oracle) && Accepts(o, v, oracle) && !Drops(b, o, v)) <==>
            (Accepts(Total(b, o), v, oracle) && !Escapes(b, o, v, oracle))
    ensures Accepts(b, v, oracle) && Accepts(o, v, oracle) && !Drops(b, o, v) ==> !Meets(b, o, v)
  {
    RefusedIffConflict(b, o);
    TotalMeans(b, o, v, oracle);
    if Meets(b, o, v) {
      MeetingIsUnsatisfiable(b, o, v, oracle);
    }
  }

  predicate Requires(b: Schema, o: Schema, name: string)
    requires b.Node? && o.Node?
  {
    (b.required.Some? && name in b.required.value) || (o.required.Some? && name in o.required.value)
  }

  predicate OnlyObjects(s: Schema)
    requires s.Node?
  {
    s.types == Some(["object"])
  }

  /** A conflict that no value can avoid: an own one, or one inside a required member of an object. */
  ghost predicate Unavoidable(b: Schema, o: Schema)
    decreases b
  {
    || OwnConflict(b, o)
    || (b.Node? && o.Node? && (OnlyObjects(b) || OnlyObjects(o)) && b.properties.Declared? &&
        exists name :: name in b.properties.schemas && name in o.Props() && Requires(b, o, name) &&
          Unavoidable(b.properties.schemas[name], o.Props()[name]))
  }

  /** Refusing such a conflict is right: no value is accepted by both sides, but for dropped ones. */
  lemma {:induction false} UnavoidableIsUnsatisfiable(b: Schema, o: Schema, v: Value, oracle: Oracle)
    requires WellFormed(b) && WellFormed(o) && Valid(v) && Unavoidable(b, o)
    ensures Accepts(b, v, oracle) && Accepts(o, v, oracle) ==> Drops(b, o, v)
    decreases b
  {
    if Accepts(b, v, oracle) && Accepts(o, v, oracle) {
      if OwnConflict(b, o) {
        OwnConflictIsUnsatisfiable(b, o, v, oracle);
      } else {
        var name :| name in b.properties.schemas && name in o.Props() && Requires(b, o, name) &&
          Unavoidable(b.properties.schemas[name], o.Props()[name]);
        ObjectsOnly(b, o, v);
        RequiredIsThere(b, o, name, v);
        var i :| 0 <= i < |v.members| && v.members[i].key == name;
        assert MemberPart(b, v.members[i], oracle) && MemberPart(o, v.members[i], oracle);
        UnavoidableIsUnsatisfiable(b.properties.schemas[name], o.Props()[name], v.members[i].value, oracle);
        assert MemberDrops(b, o, v.members[i]);
      }
    }
  }

  lemma ObjectsOnly(b: Schema, o: Schema, v: Value)
    requires b.Node? && o.Node? && (OnlyObjects(b) || OnlyObjects(o)) && TypePart(b, v) && TypePart(o, v)
    ensures v.Obj?
  {
  }

  lemma RequiredIsThere(b: Schema, o: Schema, name: string, v: Value)
    requires b.Node? && o.Node? && v.Obj? && Requires(b, o, name) && RequiredPart(b, v) && RequiredPart(o, v)
    ensures HasMember(v, name)
  {
  }

  /** A refusal for a nested conflict need not be: an object without the member satisfies both sides. */
  lemma NestedConflictMayBeSatisfiable(oracle: Oracle)
    ensures var b := EMPTY.(properties := Declared(map["a" := EMPTY.(types := Some(["string"]))]));
      var o := EMPTY.(properties := Declared(map["a" := EMPTY.(types := Some(["integer"]))]));
      Conjoin(b, o).Unsatisfiable? && Accepts(b, Obj([]), oracle) && Accepts(o, Obj([]), oracle)
  {
    var p, q := EMPTY.(types := Some(["string"])), EMPTY.(types := Some(["integer"]));
    var b, o := EMPTY.(properties := Declared(map["a" := p])), EMPTY.(properties := Declared(map["a" := q]));
    assert Meet("string", "integer") == None;
    assert ["integer"][..0] == [] && ["string"][..0] == [];
    assert MeetWithAll([], "string", []) == [];
    assert MeetWithAll([], "string", ["integer"]) == [];
    assert MeetAll(["string"], ["integer"]) == [];
    assert Conjoin(p, q).Unsatisfiable?;
    assert "a" in b.Props() && "a" in o.Props() && Conjoin(b.properties.schemas["a"], o.Props()["a"]).Unsatisfiable?;
  }

  /** Listing an integer as a float makes the conjunction refuse a value that both sides accept. */
  lemma IntegralFloatIsRefused(oracle: Oracle)
    ensures var b, o := EMPTY.(enumeration := Some([IntegralFloat(1)])), EMPTY.(types := Some(["integer"]));
      Conjoin(b, o).Unsatisfiable? && Accepts(b, Int(1), oracle) && Accepts(o, Int(1), oracle)
  {
    var b, o := EMPTY.(enumeration := Some([IntegralFloat(1)])), EMPTY.(types := Some(["integer"]));
    var values := [IntegralFloat(1)];
    assert values[..0] == [];
    assert Unique(values) == values;
    assert !ValueMatchesTypes(IntegralFloat(1), ["integer"]);
    assert FilterTypes(values, ["integer"]) == [];
    assert Equal(values[0], Int(1));
    assert TypeAccepts(["integer"][0], Int(1));
  }

  // ---------- Folding allOf ----------

  lemma {:induction false} ConjoinWellFormed(b: Schema, o: Schema, m: Schema)
    requires WellFormed(b) && WellFormed(o) && Conjoin(b, o) == Ok(m)
    ensures WellFormed(m)
    decreases b
  {
    if b.Node? && o.Node? {
      ConjoinValuesJson(b, o, ConjoinTypes(b, o).value);
      if m.properties.Declared? {
        forall name | name in m.properties.schemas
          ensures WellFormed(m.properties.schemas[name])
        {
          if name in b.Props() && name in o.Props() {
            ConjoinWellFormed(b.properties.schemas[name], o.Props()[name], m.properties.schemas[name]);
          }
        }
      }
      if b.Additional().Node? && o.Additional().Node? && m.additional.Some? && b.additional.Some? {
        ConjoinWellFormed(b.additional.value, o.Additional(), m.additional.value);
      }
    }
  }

  function WithoutAllOf(s: Schema): Schema
    requires s.Node?
  {
    s.(allOf := [])
  }

  /** `_resolve_node` on a node without `$ref`: resolve each branch, fold them, then the node itself. */
  function Resolve(s: Schema): Result<Schema>
    decreases s, 1
  {
    if s.Always? || s.allOf == [] then Ok(s)
    else
      var merged := FoldBranches(s, |s.allOf|);
      if merged.Unsatisfiable? then Unsatisfiable else Conjoin(merged.value, WithoutAllOf(s))
  }

  function FoldBranches(s: Schema, count: nat): Result<Schema>
    requires s.Node? && count <= |s.allOf|
    decreases s, 0, count
  {
    if count == 0 then Ok(EMPTY)
    else
      var merged := FoldBranches(s, count - 1);
      var branch := Resolve(s.allOf[count - 1]);
      if merged.Unsatisfiable? || branch.Unsatisfiable? then Unsatisfiable
      else Conjoin(merged.value, branch.value)
  }

  /** Well-formed along `allOf` too. */
  predicate WellFormedTree(s: Schema) {
    WellFormed(s) && (s.Node? ==> forall i :: 0 <= i < |s.allOf| ==> WellFormedTree(s.allOf[i]))
  }

  /** Where the fold meets two schemas from which a member of the value escapes. */
  ghost predicate FoldEscapes(s: Schema, v: Value, oracle: Oracle)
    decreases s, 1
  {
    && s.Node? && s.allOf != []
    && (BranchEscapes(s, |s.allOf|, v, oracle)
        || (FoldBranches(s, |s.allOf|).Ok?
            && Escapes(FoldBranches(s, |s.allOf|).value, WithoutAllOf(s), v, oracle)))
  }

  ghost predicate BranchEscapes(s: Schema, count: nat, v: Value, oracle: Oracle)
    requires s.Node? && count <= |s.allOf|
    decreases s, 0, count
  {
    && count > 0
    && (|| BranchEscapes(s, count - 1, v, oracle)
        || FoldEscapes(s.allOf[count - 1], v, oracle)
        || (FoldBranches(s, count - 1).Ok? && Resolve(s.allOf[count - 1]).Ok?
            && Escapes(FoldBranches(s, count - 1).value, Resolve(s.allOf[count - 1]).value, v, oracle)))
  }

  /** Where the fold meets two schemas that drop something inside the value. */
  ghost predicate FoldDrops(s: Schema, v: Value)
    decreases s, 1
  {
    && s.Node? && s.allOf != []
    && (BranchDrops(s, |s.allOf|, v)
        || (FoldBranches(s, |s.allOf|).Ok? && Drops(FoldBranches(s, |s.allOf|).value, WithoutAllOf(s), v)))
  }

  ghost predicate BranchDrops(s: Schema, count: nat, v: Value)
    requires s.Node? && count <= |s.allOf|
    decreases s, 0, count
  {
    && count > 0
    && (|| BranchDrops(s, count - 1, v)
        || FoldDrops(s.allOf[count - 1], v)
        || (FoldBranches(s, count - 1).Ok? && Resolve(s.allOf[count - 1]).Ok?
            && Drops(FoldBranches(s, count - 1).value, Resolve(s.allOf[count - 1]).value, v)))
  }

  /** Folding `allOf` keeps the meaning, up to what is dropped and what escapes, for every value. */
  lemma {:induction false} ResolveMeans(s: Schema, r: Schema, v: Value, oracle: Oracle)
    requires WellFormedTree(s) && Valid(v) && Resolve(s) == Ok(r)
    ensures WellFormed(r)
    ensures Accepts(s, v, oracle) && !FoldDrops(s, v) <==> Accepts(r, v, oracle) && !FoldEscapes(s, v, oracle)
    decreases s, 1
  {
    if s.Node? && s.allOf != [] {
      var merged, own := FoldBranches(s, |s.allOf|), WithoutAllOf(s);
      FoldMeans(s, |s.allOf|, v, oracle);
      assert s.allOf[..|s.allOf|] == s.allOf;
      WithoutAllOfMeans(s, v, oracle);
      ConjoinMeans(merged.value, own, r, v, oracle);
      ConjoinWellFormed(merged.value, own, r);
    }
  }

  lemma WithoutAllOfMeans(s: Schema, v: Value, oracle: Oracle)
    requires s.Node?
    ensures Accepts(s, v, oracle) <==> Accepts(WithoutAllOf(s), v, oracle) && AllOfPart(s, v, oracle)
    ensures WellFormed(s) ==> WellFormed(WithoutAllOf(s))
  {
    var own := WithoutAllOf(s);
    assert AllOfPart(own, v, oracle);
    if v.Obj? {
      assert forall i :: 0 <= i < |v.members| ==>
        (MemberPart(s, v.members[i], oracle) <==> MemberPart(own, v.members[i], oracle));
    }
  }

  lemma {:induction false} FoldMeans(s: Schema, count: nat, v: Value, oracle: Oracle)
    requires s.Node? && WellFormedTree(s) && Valid(v) && count <= |s.allOf| && FoldBranches(s, count).Ok?
    ensures WellFormed(FoldBranches(s, count).value)
    ensures AllAccept(s.allOf[..count], v, oracle) && !BranchDrops(s, count, v)
       <==> Accepts(FoldBranches(s, count).value, v, oracle) && !BranchEscapes(s, count, v, oracle)
    decreases s, 0, count
  {
    if count == 0 {
      EmptyAcceptsAll(v, oracle);
    } else {
      var merged, branch := FoldBranches(s, count - 1).value, Resolve(s.allOf[count - 1]).value;
      FoldMeans(s, count - 1, v, oracle);
      ResolveMeans(s.allOf[count - 1], branch, v, oracle);
      ConjoinMeans(merged, branch, FoldBranches(s, count).value, v, oracle);
      ConjoinWellFormed(merged, branch, FoldBranches(s, count).value);
      SnocAccept(s.allOf, count, v, oracle);
    }
  }

  lemma SnocAccept(schemas: seq<Schema>, count: nat, v: Value, oracle: Oracle)
    requires 0 < count <= |schemas|
    ensures AllAccept(schemas[..count], v, oracle)
       <==> AllAccept(schemas[..count - 1], v, oracle) && Accepts(schemas[count - 1], v, oracle)
  {
    assert schemas[..count] == schemas[..count - 1] + [schemas[count - 1]];
    AllAcceptConcat(schemas[..count - 1], [schemas[count - 1]], v, oracle);
    assert [schemas[count - 1]][0] == schemas[count - 1];
  }

  // ---------- The loops of the source ----------

  method ComputeTypeIntersection(left: seq<string>, right: seq<string>) returns (intersection: seq<string>)
    ensures intersection == TypeIntersection(left, right)
  {
    intersection := [];
    for i := 0 to |left|
      invariant intersection == MeetAll(left[..i], right)
    {
      ghost var before := intersection;
      for j := 0 to |right|
        invariant intersection == MeetWithAll(before, left[i], right[..j])
      {
        assert right[..j + 1][..j] == right[..j];
        var candidate := Meet(left[i], right[j]);
        if candidate.Some? && candidate.value !in intersection {
          intersection := intersection + [candidate.value];
        }
      }
      assert right[..|right|] == right && left[..i + 1][..i] == left[..i];
    }
    assert left[..|left|] == left;
    if "number" in intersection && "integer" in intersection {
      intersection := RemoveFirst(intersection, "integer");
    }
  }

  method ComputeUnique(values: seq<Value>) returns (unique: seq<Value>)
    ensures unique == Unique(values)
  {
    var seen: set<string> := {};
    unique := [];
    assert KeySet([]) == {};
    for i := 0 to |values|
      invariant unique == Unique(values[..i]) && seen == KeySet(unique)
    {
      assert values[..i + 1][..i] == values[..i];
      var key := CanonicalKey.Key(values[i]);
      if key !in seen {
        seen := seen + {key};
        unique := unique + [values[i]];
        assert unique[..|unique| - 1] == Unique(values[..i]);
        SnocKeys(unique);
      }
    }
    assert values[..|values|] == values;
  }

  /** The result does not depend on the order in which the loop takes the names. */
  method ComputeProperties(base: Schema, overlay: Schema) returns (r: Result<Properties>)
    requires base.Node? && overlay.Node?
    ensures r == ConjoinProperties(base, overlay)
    decreases base, 1
  {
    var left, right := base.Props(), overlay.Props();
    var names := left.Keys + right.Keys;
    var merged: map<string, Schema> := map[];
    while names != {}
      invariant names <= left.Keys + right.Keys
      invariant merged.Keys == left.Keys + right.Keys - names
      invariant forall name | name in merged ::
        if name in left && name in right then Conjoin(left[name], right[name]) == Ok(merged[name])
        else merged[name] == if name in left then left[name] else right[name]
      decreases names
    {
      var name :| name in names;
      names := names - {name};
      if name in left && name in right {
        var both := ComputeConjunction(base.properties.schemas[name], right[name]);
        if both.Unsatisfiable? {
          return Unsatisfiable;
        }
        merged := merged[name := both.value];
      } else if name in left {
        merged := merged[name := left[name]];
      } else {
        merged := merged[name := right[name]];
      }
    }
    r := if base.properties.Undeclared? && overlay.properties.Undeclared? then Ok(Undeclared) else Ok(Declared(merged));
    ghost var want := ConjoinProperties(base, overlay);
    assert want.Ok? by {
      forall name | name in left && name in right
        ensures Conjoin(base.properties.schemas[name], right[name]).Ok?
      {
        assert name in merged;
      }
    }
    if want.value.Declared? {
      assert want.value.schemas.Keys == merged.Keys;
      forall name | name in merged
        ensures merged[name] == want.value.schemas[name]
      {
      }
      assert merged == want.value.schemas;
    }
  }

  method ComputeConjunction(base: Schema, overlay: Schema) returns (r: Result<Schema>)
    ensures r == Conjoin(base, overlay)
    decreases base, 2
  {
    if base == Always(false) || overlay == Always(false) {
      return Unsatisfiable;
    }
    if base.Always? {
      return Ok(if overlay.Node? then overlay else EMPTY);
    }
    if overlay.Always? {
      return Ok(base);
    }
    var types := ConjoinTypes(base, overlay);
    if types.Unsatisfiable? {
      return Unsatisfiable;
    }
    var values := ConjoinValues(base, overlay, types.value);
    if values.Unsatisfiable? {
      return Unsatisfiable;
    }
    var properties := ComputeProperties(base, overlay);
    if properties.Unsatisfiable? {
      return Unsatisfiable;
    }
    var additional := ConjoinAdditional(base, overlay);
    if additional.Unsatisfiable? {
      return Unsatisfiable;
    }
    var (other, lost) := MergeOther(base.other, overlay.other);
    return Ok(Node(if types.value == [] then None else Some(types.value), values.value, None,
                   ConjoinRequired(base, overlay), properties.value, additional.value,
                   base.allOf + overlay.allOf + AsConjuncts(lost), other));
  }

  method ComputeResolution(s: Schema) returns (r: Result<Schema>)
    ensures r == Resolve(s)
    decreases s
  {
    if s.Always? || s.allOf == [] {
      return Ok(s);
    }
    var merged := EMPTY;
    for i := 0 to |s.allOf|
      invariant FoldBranches(s, i) == Ok(merged)
    {
      var branch := ComputeResolution(s.allOf[i]);
      if branch.Unsatisfiable? {
        StuckFold(s, i + 1, |s.allOf|);
        return Unsatisfiable;
      }
      var both := ComputeConjunction(merged, branch.value);
      if both.Unsatisfiable? {
        StuckFold(s, i + 1, |s.allOf|);
        return Unsatisfiable;
      }
      merged := both.value;
    }
    r := ComputeConjunction(merged, WithoutAllOf(s));
  }

  lemma {:induction false} StuckFold(s: Schema, at: nat, count: nat)
    requires s.Node? && at <= count <= |s.allOf| && FoldBranches(s, at).Unsatisfiable?
    ensures FoldBranches(s, count).Unsatisfiable?
    decreases count
  {
    if at < count {
      StuckFold(s, at, count - 1);
    }
  }
}
