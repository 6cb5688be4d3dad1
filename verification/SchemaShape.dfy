/**
 The form of a conjunction, keyword by keyword: which copies it lists and in which order, where
 types and required names come from, which members and branches it has. Together they say what the
 merged node is, not only what it means.
 */
module SchemaShape {
  import opened Common
  import opened Json
  import opened SchemaConjunction
  import opened SchemaConditions
  import CanonicalKey

  /** The elements at the kept positions among the first n, in order. */
  function Selected<T>(xs: seq<T>, keep: set<int>, n: nat): seq<T>
    requires n <= |xs|
  {
    if n == 0 then [] else Selected(xs, keep, n - 1) + if n - 1 in keep then [xs[n - 1]] else []
  }

  lemma {:induction false} SelectedAlike<T>(xs: seq<T>, keep: set<int>, same: set<int>, n: nat)
    requires n <= |xs| && forall i :: 0 <= i < n ==> (i in keep <==> i in same)
    ensures Selected(xs, keep, n) == Selected(xs, same, n)
  {
    if n > 0 {
      SelectedAlike(xs, keep, same, n - 1);
    }
  }

  // ---------- Listed values ----------

  lemma {:induction false} FilterKeysConcat(a: seq<Value>, b: seq<Value>, keys: set<string>)
    ensures FilterKeys(a + b, keys) == FilterKeys(a, keys) + FilterKeys(b, keys)
    decreases |a|
  {
    if a == [] {
      assert a + b == b;
    } else {
      assert (a + b)[1..] == a[1..] + b;
      FilterKeysConcat(a[1..], b, keys);
    }
  }

  lemma {:induction false} FilterTypesConcat(a: seq<Value>, b: seq<Value>, names: seq<string>)
    ensures FilterTypes(a + b, names) == FilterTypes(a, names) + FilterTypes(b, names)
    decreases |a|
  {
    if a == [] {
      assert a + b == b;
    } else {
      assert (a + b)[1..] == a[1..] + b;
      FilterTypesConcat(a[1..], b, names);
    }
  }

  /** A list filtered by the other side's keys, when that side lists any. */
  function Narrowed(values: seq<Value>, keys: Option<set<string>>): seq<Value> {
    if keys.Some? then FilterKeys(values, keys.value) else values
  }

  /** The positions of a list whose copies survive. */
  function Surviving(own: seq<Value>, keys: Option<set<string>>, names: seq<string>): set<int> {
    set i | 0 <= i < |own| && FirstOfKey(own, i) && ValueMatchesTypes(own[i], names)
            && (keys.Some? ==> CanonicalKey.Key(own[i]) in keys.value)
  }

  lemma OneSurvives(x: Value, keys: Option<set<string>>, names: seq<string>)
    ensures FilterTypes(Narrowed([x], keys), names) ==
      if ValueMatchesTypes(x, names) && (keys.Some? ==> CanonicalKey.Key(x) in keys.value) then [x] else []
  {
    assert [x][1..] == [];
    if keys.Some? {
      assert FilterKeys([], keys.value) == [];
    }
    assert FilterTypes([], names) == [];
  }

  lemma UniqueStep(own: seq<Value>, n: nat)
    requires n < |own|
    ensures Unique(own[..n + 1]) == if FirstOfKey(own, n) then Unique(own[..n]) + [own[n]] else Unique(own[..n])
  {
    UniqueKeepsKeys(own[..n]);
    LastIsFirst(own, n);
    assert own[..n + 1][..n] == own[..n] && own[..n + 1][n] == own[n];
  }

  lemma SurvivingStep(own: seq<Value>, keys: Option<set<string>>, names: seq<string>, n: nat, before: seq<Value>, tail: seq<Value>)
    requires n < |own| && before == Unique(own[..n])
    requires tail == if n in Surviving(own, keys, names) then [own[n]] else []
    ensures FilterTypes(Narrowed(Unique(own[..n + 1]), keys), names) == FilterTypes(Narrowed(before, keys), names) + tail
  {
    UniqueStep(own, n);
    SnocSurvives(before, own[n], keys, names);
  }

  lemma {:induction false} UniqueSurviving(
    own: seq<Value>, keys: Option<set<string>>, names: seq<string>, at: set<int>, n: nat)
    requires n <= |own| && at == Surviving(own, keys, names)
    ensures FilterTypes(Narrowed(Unique(own[..n]), keys), names) == Selected(own, at, n)
  {
    if n > 0 {
      UniqueSurviving(own, keys, names, at, n - 1);
      SurvivingStep(own, keys, names, n - 1, Unique(own[..n - 1]), if n - 1 in at then [own[n - 1]] else []);
    } else {
      assert own[..0] == [];
      assert keys.Some? ==> FilterKeys([], keys.value) == [];
    }
  }

  lemma SnocSurvives(before: seq<Value>, x: Value, keys: Option<set<string>>, names: seq<string>)
    ensures FilterTypes(Narrowed(before + [x], keys), names) ==
      FilterTypes(Narrowed(before, keys), names) + FilterTypes(Narrowed([x], keys), names)
    ensures FilterTypes(Narrowed([x], keys), names) ==
      if ValueMatchesTypes(x, names) && (keys.Some? ==> CanonicalKey.Key(x) in keys.value) then [x] else []
  {
    OneSurvives(x, keys, names);
    if keys.Some? {
      FilterKeysConcat(before, [x], keys.value);
    }
    FilterTypesConcat(Narrowed(before, keys), Narrowed([x], keys), names);
  }

  lemma {:induction false} UniqueOfDistinct(values: seq<Value>)
    requires KeysDistinct(values)
    ensures Unique(values) == values
  {
    if values != [] {
      var n := |values| - 1;
      UniqueOfDistinct(values[..n]);
      forall i | 0 <= i < n
        ensures CanonicalKey.Key(values[..n][i]) != CanonicalKey.Key(values[n])
      {
        assert values[..n][i] == values[i];
      }
      assert values == values[..n] + [values[n]];
    }
  }

  lemma {:induction false} FilterTypesDistinct(values: seq<Value>, names: seq<string>)
    requires KeysDistinct(values)
    ensures KeysDistinct(FilterTypes(values, names))
  {
    if values != [] {
      var rest := FilterTypes(values[1..], names);
      FilterTypesDistinct(values[1..], names);
      forall i | 0 <= i < |rest|
        ensures CanonicalKey.Key(rest[i]) != CanonicalKey.Key(values[0])
      {
        assert rest[i] in rest && rest[i] in values[1..];
        var k :| 0 <= k < |values[1..]| && values[1..][k] == rest[i];
        assert values[k + 1] == rest[i];
      }
    }
  }

  /** A copy that the result lists: shared, of an accepted type, and not a mistyped float. */
  ghost predicate Listed(b: Schema, o: Schema, names: seq<string>, i: nat)
    requires b.Node? && o.Node? && i < |Listing(b, o)|
  {
    Shared(b, o, i) && NamesAccept(names, Listing(b, o)[i]) && !Mistyped(Listing(b, o)[i], names)
  }

  ghost function ListedAt(b: Schema, o: Schema, names: seq<string>): set<int>
    requires b.Node? && o.Node?
  {
    set i | 0 <= i < |Listing(b, o)| && Listed(b, o, names, i)
  }

  /** The keys that the other side asks for, when both sides list values. */
  function AskedKeys(b: Schema, o: Schema): Option<set<string>>
    requires b.Node? && o.Node? && ConstrainedValues(o).Ok?
  {
    if ListsValues(b) && ListsValues(o) && ConstrainedValues(o).value.Some?
    then Some(KeySet(ConstrainedValues(o).value.value)) else None
  }

  lemma ListedSurvive(b: Schema, o: Schema, names: seq<string>, i: nat)
    requires b.Node? && o.Node? && ListsJson(b) && ListsJson(o)
    requires ConstrainedValues(b).Ok? && ConstrainedValues(o).Ok? && i < |Listing(b, o)|
    ensures Listed(b, o, names, i) <==> i in Surviving(Listing(b, o), AskedKeys(b, o), names)
  {
    var x := Listing(b, o)[i];
    ListingIsJson(b, o, i);
    MistypedIff(x, names);
    ConstrainedValuesMeans(o, x);
    OwnCopyIsAllowed(b, o, i);
  }

  lemma OwnCopyIsAllowed(b: Schema, o: Schema, i: nat)
    requires b.Node? && o.Node? && ListsJson(b) && ListsJson(o)
    requires ConstrainedValues(b).Ok? && ConstrainedValues(o).Ok? && i < |Listing(b, o)|
    ensures ListsValues(b) ==> ValuePart(b, Listing(b, o)[i])
    ensures !ListsValues(b) ==> ValuePart(b, Listing(b, o)[i]) && ValuePart(o, Listing(b, o)[i])
  {
    var own, x := if ListsValues(b) then b else o, Listing(b, o)[i];
    ListingIsJson(b, o, i);
    ConstrainedValuesMeans(own, x);
    if own.constant.None? {
      UniqueKeepsKeys(own.enumeration.value);
    } else {
      assert KeySet([own.constant.value]) == {CanonicalKey.Key(own.constant.value)} by {
        assert [own.constant.value][0] == own.constant.value;
      }
    }
  }

  lemma CommonIsNarrowed(b: Schema, o: Schema, own: seq<Value>)
    requires b.Node? && o.Node? && own == Listing(b, o) && (ListsValues(b) || ListsValues(o))
    requires ConstrainedValues(b).Ok? && ConstrainedValues(o).Ok?
    ensures CommonValues(ConstrainedValues(b).value, ConstrainedValues(o).value)
         == Some(Narrowed(Unique(own), AskedKeys(b, o)))
  {
    var s := if ListsValues(b) then b else o;
    if s.constant.Some? {
      assert own[..0] == [] && Unique([]) == [];
      assert Unique(own) == own;
    }
  }

  /**
   The listed values of a conjunction are those copies of its own side's list, in that list's order;
   it is refused exactly when values are listed and none is left.
   */
  lemma ListedExactly(b: Schema, o: Schema, names: seq<string>, own: seq<Value>, at: set<int>)
    requires b.Node? && o.Node? && ListsJson(b) && ListsJson(o)
    requires own == Listing(b, o) && at == ListedAt(b, o, names)
    ensures ConjoinValues(b, o, names) ==
      if !ListsValues(b) && !ListsValues(o) then Ok(None)
      else if at == {} then Unsatisfiable
      else Ok(Some(Selected(own, at, |own|)))
  {
    if (ListsValues(b) || ListsValues(o)) && ConstrainedValues(b).Ok? && ConstrainedValues(o).Ok? {
      var keys := AskedKeys(b, o);
      var kept := FilterTypes(Narrowed(Unique(own), keys), names);
      CommonIsNarrowed(b, o, own);
      forall i | 0 <= i < |own|
        ensures i in at <==> i in Surviving(own, keys, names)
      {
        ListedSurvive(b, o, names, i);
      }
      UniqueSurviving(own, keys, names, Surviving(own, keys, names), |own|);
      assert own[..|own|] == own;
      SelectedAlike(own, at, Surviving(own, keys, names), |own|);
      SelectedEmpty(own, at, |own|);
      KeptIsDistinct(own, keys, names);
      UniqueOfDistinct(kept);
    } else if ListsValues(b) || ListsValues(o) {
      NothingListed(b, o, names);
    }
  }

  lemma KeptIsDistinct(own: seq<Value>, keys: Option<set<string>>, names: seq<string>)
    ensures KeysDistinct(FilterTypes(Narrowed(Unique(own), keys), names))
  {
    UniqueIsDistinct(own);
    if keys.Some? {
      FilterKeysDistinct(Unique(own), keys.value);
    }
    FilterTypesDistinct(Narrowed(Unique(own), keys), names);
  }

  lemma {:induction false} SelectedEmpty<T>(xs: seq<T>, keep: set<int>, n: nat)
    requires n <= |xs|
    ensures Selected(xs, keep, n) == [] <==> forall i :: 0 <= i < n ==> i !in keep
  {
    if n > 0 {
      SelectedEmpty(xs, keep, n - 1);
    }
  }

  /** A side whose own list and constant contradict each other accepts nothing. */
  lemma NothingListed(b: Schema, o: Schema, names: seq<string>)
    requires b.Node? && o.Node? && ListsJson(b) && ListsJson(o)
    requires ConstrainedValues(b).Unsatisfiable? || ConstrainedValues(o).Unsatisfiable?
    ensures ListedAt(b, o, names) == {}
  {
    forall i | 0 <= i < |Listing(b, o)|
      ensures !Shared(b, o, i)
    {
      ListingIsJson(b, o, i);
      ConstrainedValuesMeans(b, Listing(b, o)[i]);
      ConstrainedValuesMeans(o, Listing(b, o)[i]);
    }
  }

  // ---------- Types and required names ----------

  predicate FirstName(names: seq<string>, i: nat)
    requires i < |names|
  {
    forall j :: 0 <= j < i ==> names[j] != names[i]
  }

  function FirstNames(names: seq<string>): set<int> {
    set i | 0 <= i < |names| && FirstName(names, i)
  }

  lemma UniqueNamesStep(names: seq<string>, n: nat)
    requires n < |names|
    ensures UniqueNames(names[..n + 1]) ==
      if FirstName(names, n) then UniqueNames(names[..n]) + [names[n]] else UniqueNames(names[..n])
  {
    assert names[..n + 1][..n] == names[..n] && names[..n + 1][n] == names[n];
    if !FirstName(names, n) {
      var j :| 0 <= j < n && names[j] == names[n];
      assert names[..n][j] == names[n];
    }
  }

  lemma FirstNameStep(names: seq<string>, n: nat, before: seq<string>, tail: seq<string>)
    requires n < |names| && before == UniqueNames(names[..n])
    requires tail == if n in FirstNames(names) then [names[n]] else []
    ensures UniqueNames(names[..n + 1]) == before + tail
  {
    UniqueNamesStep(names, n);
    assert before + [] == before;
  }

  /** Names without repetition: the first occurrence of each, in order. */
  lemma {:induction false} UniqueNamesAre(names: seq<string>, firsts: set<int>, n: nat)
    requires n <= |names| && firsts == FirstNames(names)
    ensures UniqueNames(names[..n]) == Selected(names, firsts, n)
  {
    if n == 0 {
      assert names[..n] == [];
    } else {
      UniqueNamesAre(names, firsts, n - 1);
      FirstNameStep(names, n - 1, UniqueNames(names[..n - 1]), if n - 1 in firsts then [names[n - 1]] else []);
    }
  }

  /** What the types of one side make of one type of the other, one after the other. */
  function RowMeets(left: string, right: seq<string>): seq<string> {
    if right == [] then []
    else
      var met := Meet(left, right[|right| - 1]);
      RowMeets(left, right[..|right| - 1]) + if met.Some? then [met.value] else []
  }

  function AllMeets(left: seq<string>, right: seq<string>): seq<string> {
    if left == [] then [] else AllMeets(left[..|left| - 1], right) + RowMeets(left[|left| - 1], right)
  }

  lemma UniqueNamesSnoc(names: seq<string>, x: string)
    ensures UniqueNames(names + [x]) == AddType(UniqueNames(names), Some(x))
  {
    assert (names + [x])[..|names|] == names;
  }

  lemma {:induction false} MeetWithAllIsUnique(met: seq<string>, left: string, right: seq<string>)
    ensures MeetWithAll(UniqueNames(met), left, right) == UniqueNames(met + RowMeets(left, right))
  {
    if right == [] {
      assert met + [] == met;
    } else {
      var n := |right| - 1;
      var row := RowMeets(left, right[..n]);
      MeetWithAllIsUnique(met, left, right[..n]);
      if Meet(left, right[n]).Some? {
        UniqueNamesSnoc(met + row, Meet(left, right[n]).value);
        assert met + (row + [Meet(left, right[n]).value]) == met + row + [Meet(left, right[n]).value];
      } else {
        assert row + [] == row;
      }
    }
  }

  lemma {:induction false} MeetAllIsUnique(left: seq<string>, right: seq<string>)
    ensures MeetAll(left, right) == UniqueNames(AllMeets(left, right))
  {
    if left != [] {
      var n := |left| - 1;
      MeetAllIsUnique(left[..n], right);
      MeetWithAllIsUnique(AllMeets(left[..n], right), left[n], right);
    }
  }

  lemma {:induction false} RemoveFromSnoc(names: seq<string>, y: string, x: string)
    ensures RemoveFirst(names + [y], x) ==
      if x in names then RemoveFirst(names, x) + [y] else if y == x then names else names + [y]
  {
    if names == [] {
      assert names + [y] == [y] && [y][1..] == [];
    } else {
      assert (names + [y])[1..] == names[1..] + [y] && names == [names[0]] + names[1..];
      RemoveFromSnoc(names[1..], y, x);
    }
  }

  function FirstNamesBut(names: seq<string>, x: string): set<int> {
    set i | 0 <= i < |names| && FirstName(names, i) && names[i] != x
  }

  function Without(names: seq<string>, x: string): seq<string> {
    if x in names then RemoveFirst(names, x) else names
  }

  lemma WithoutStep(before: seq<string>, y: string, first: bool, x: string, next: seq<string>)
    requires (first ==> y !in before) && next == if first then before + [y] else before
    ensures Without(next, x) == Without(before, x) + if first && y != x then [y] else []
  {
    RemoveFromSnoc(before, y, x);
  }

  lemma FirstIsNew(names: seq<string>, n: nat)
    requires n < |names|
    ensures FirstName(names, n) <==> names[n] !in UniqueNames(names[..n])
  {
    if !FirstName(names, n) {
      var j :| 0 <= j < n && names[j] == names[n];
      assert names[..n][j] == names[n];
    }
  }

  lemma {:induction false} RemovedNames(names: seq<string>, x: string, n: nat)
    requires n <= |names|
    ensures Without(UniqueNames(names[..n]), x) == Selected(names, FirstNamesBut(names, x), n)
  {
    if n > 0 {
      RemovedNames(names, x, n - 1);
      UniqueNamesStep(names, n - 1);
      FirstIsNew(names, n - 1);
      WithoutStep(UniqueNames(names[..n - 1]), names[n - 1], FirstName(names, n - 1), x, UniqueNames(names[..n]));
    }
  }

  /** The positions of the meets that the result keeps: an `integer` goes when there is a `number`. */
  function KeptMeets(all: seq<string>): set<int> {
    if "number" in all && "integer" in all then FirstNamesBut(all, "integer") else FirstNames(all)
  }

  lemma TypeIntersectionExactly(left: seq<string>, right: seq<string>, all: seq<string>)
    requires all == AllMeets(left, right)
    ensures TypeIntersection(left, right) == Selected(all, KeptMeets(all), |all|)
    ensures TypeIntersection(left, right) == [] <==> all == []
  {
    MeetAllIsUnique(left, right);
    assert all[..|all|] == all;
    UniqueNamesAre(all, FirstNames(all), |all|);
    RemovedNames(all, "integer", |all|);
    if "number" in all && "integer" in all {
      RemovingKeepsOthers(UniqueNames(all), "integer", "number");
    } else if all != [] {
      assert all[0] in UniqueNames(all);
    }
  }

  /** The types of a conjunction: the meets in row order, or the types of the one side that has some. */
  lemma TypesExactly(b: Schema, o: Schema, all: seq<string>)
    requires b.Node? && o.Node?
    requires all == if b.types.Some? && o.types.Some? then AllMeets(b.types.value, o.types.value) else []
    ensures ConjoinTypes(b, o) ==
      if b.types == Some([]) || o.types == Some([]) then Unsatisfiable
      else if b.types.Some? && o.types.Some? then
        if all == [] then Unsatisfiable else Ok(Selected(all, KeptMeets(all), |all|))
      else if b.types.Some? then Ok(b.types.value)
      else if o.types.Some? then Ok(o.types.value)
      else Ok([])
  {
    if b.types.Some? && o.types.Some? {
      TypeIntersectionExactly(b.types.value, o.types.value, all);
    }
  }

  function Names(required: Option<seq<string>>): seq<string> {
    if required.Some? then required.value else []
  }

  lemma RequiredExactly(b: Schema, o: Schema, all: seq<string>)
    requires b.Node? && o.Node? && all == Names(b.required) + Names(o.required)
    ensures ConjoinRequired(b, o) == if all == [] then None else Some(Selected(all, FirstNames(all), |all|))
  {
    UniqueNamesAre(all, FirstNames(all), |all|);
    assert all[..|all|] == all;
  }

  // ---------- Members ----------

  /** A property that only one side declares is taken over, one that both declare is conjoined. */
  predicate TakesProperties(b: Schema, o: Schema, p: Properties)
    requires b.Node? && o.Node?
  {
    && (p.Declared? <==> b.properties.Declared? || o.properties.Declared?)
    && (p.Declared? ==>
          && p.schemas.Keys == b.Props().Keys + o.Props().Keys
          && forall name :: name in p.schemas ==>
               if name !in o.Props() then p.schemas[name] == b.Props()[name]
               else if name !in b.Props() then p.schemas[name] == o.Props()[name]
               else Conjoin(b.Props()[name], o.Props()[name]) == Ok(p.schemas[name]))
  }

  lemma PropertiesExactly(b: Schema, o: Schema, p: Properties)
    requires b.Node? && o.Node? && ConjoinProperties(b, o) == Ok(p)
    ensures TakesProperties(b, o, p)
  {
  }

  /** Additional members: closed when one side is closed, the other side's schema when one is open. */
  predicate TakesAdditional(b: Schema, o: Schema, a: Option<Schema>)
    requires b.Node? && o.Node?
  {
    && (a.Some? <==> b.additional.Some? || o.additional.Some?)
    && (a.Some? ==>
          if b.Additional() == Always(false) || o.Additional() == Always(false) then a == Some(Always(false))
          else if b.Additional() == Always(true) then a == Some(o.Additional())
          else if o.Additional() == Always(true) then a == Some(b.Additional())
          else Conjoin(b.Additional(), o.Additional()) == Ok(a.value))
  }

  lemma AdditionalExactly(b: Schema, o: Schema, a: Option<Schema>)
    requires b.Node? && o.Node? && ConjoinAdditional(b, o) == Ok(a)
    ensures TakesAdditional(b, o, a)
  {
  }

  // ---------- Uninterpreted keywords ----------

  /** The overlay's keyword loses when the base has another one under its key that is no annotation. */
  ghost predicate LosesToBase(b: seq<Keyword>, k: Keyword) {
    exists i :: 0 <= i < |b| && b[i].key == k.key && b[i].raw != k.raw && !Describes(k.key)
  }

  /** The keywords that only describe a schema. */
  predicate Describes(key: string) {
    key in {"description", "title", "$comment", "examples"}
  }

  ghost function LosingAt(b: seq<Keyword>, o: seq<Keyword>): set<int> {
    set i | 0 <= i < |o| && LosesToBase(b, o[i])
  }

  lemma {:induction false} SelectedBehind<T>(all: seq<T>, xs: seq<T>, keep: set<int>, rest: set<int>, n: nat)
    requires |all| == |xs| + 1 && xs == all[1..] && n <= |xs|
    requires forall i :: 0 <= i < |xs| ==> (i in rest <==> i + 1 in keep)
    ensures Selected(all, keep, n + 1) == (if 0 in keep then [all[0]] else []) + Selected(xs, rest, n)
  {
    if n > 0 {
      SelectedBehind(all, xs, keep, rest, n - 1);
    } else {
      assert Selected(all, keep, 0) == [];
    }
  }

  lemma LosesToHead(b: seq<Keyword>, k: Keyword)
    requires b != []
    ensures LosesToBase(b, k) <==>
            (b[0].key == k.key && b[0].raw != k.raw && !Describes(k.key)) || LosesToBase(b[1..], k)
  {
    if LosesToBase(b, k) {
      var i :| 0 <= i < |b| && b[i].key == k.key && b[i].raw != k.raw && !Describes(k.key);
      assert i > 0 ==> b[1..][i - 1] == b[i];
    }
    if LosesToBase(b[1..], k) {
      var i :| 0 <= i < |b[1..]| && b[1..][i].key == k.key && b[1..][i].raw != k.raw && !Describes(k.key);
      assert b[i + 1] == b[1..][i];
    }
  }

  lemma NoKeyNoLoss(b: seq<Keyword>, k: Keyword)
    requires !HasKey(b, k.key)
    ensures !LosesToBase(b, k)
  {
  }

  /** Keywords behind the head have other keys than anything up to it. */
  lemma TailKeysDiffer(o: seq<Keyword>, key: string, i: nat)
    requires Ordered(o) && o != [] && (key == o[0].key || CodePointLess(key, o[0].key)) && i < |o[1..]|
    ensures o[1..][i].key != key
  {
    LessIsStrict(key, o[0].key, o[i + 1].key);
    LessIsStrict(o[i + 1].key, o[0].key, o[i + 1].key);
  }

  /** The losing keywords are exactly those of the overlay, in its order. */
  lemma {:induction false} LosingExactly(b: seq<Keyword>, o: seq<Keyword>, at: set<int>)
    requires Ordered(b) && Ordered(o) && at == LosingAt(b, o)
    ensures MergeOther(b, o).1 == Selected(o, at, |o|)
    decreases |b| + |o|
  {
    if b == [] || o == [] {
      SelectedEmpty(o, at, |o|);
    } else {
      RestIsBehind(b);
      RestIsBehind(o);
      if b[0].key == o[0].key {
        LosingSameKey(b, o, at);
        LosingExactly(b[1..], o[1..], LosingAt(b[1..], o[1..]));
      } else if CodePointLess(b[0].key, o[0].key) {
        LosingBaseFirst(b, o);
        LosingExactly(b[1..], o, LosingAt(b[1..], o));
      } else {
        LosingOverlayFirst(b, o, at);
        LosingExactly(b, o[1..], LosingAt(b, o[1..]));
      }
    }
  }

  lemma LosingSameKey(b: seq<Keyword>, o: seq<Keyword>, at: set<int>)
    requires Ordered(b) && Ordered(o) && b != [] && o != [] && b[0].key == o[0].key && at == LosingAt(b, o)
    ensures Selected(o, at, |o|) ==
      (if b[0].raw == o[0].raw || IsAnnotation(b[0].key) then [] else [o[0]])
      + Selected(o[1..], LosingAt(b[1..], o[1..]), |o| - 1)
  {
    RestIsBehind(b);
    NoKeyNoLoss(b[1..], o[0]);
    LosesToHead(b, o[0]);
    forall i | 0 <= i < |o[1..]|
      ensures i in LosingAt(b[1..], o[1..]) <==> i + 1 in at
    {
      LosesToHead(b, o[i + 1]);
      TailKeysDiffer(o, b[0].key, i);
    }
    SelectedBehind(o, o[1..], at, LosingAt(b[1..], o[1..]), |o| - 1);
  }

  lemma LosingBaseFirst(b: seq<Keyword>, o: seq<Keyword>)
    requires Ordered(b) && Ordered(o) && b != [] && o != [] && CodePointLess(b[0].key, o[0].key)
    ensures LosingAt(b, o) == LosingAt(b[1..], o)
  {
    AllBehind(o, b[0].key);
    forall i | 0 <= i < |o|
      ensures LosesToBase(b, o[i]) <==> LosesToBase(b[1..], o[i])
    {
      LosesToHead(b, o[i]);
    }
  }

  lemma LosingOverlayFirst(b: seq<Keyword>, o: seq<Keyword>, at: set<int>)
    requires Ordered(b) && Ordered(o) && b != [] && o != [] && at == LosingAt(b, o)
    requires b[0].key != o[0].key && !CodePointLess(b[0].key, o[0].key)
    ensures Selected(o, at, |o|) == Selected(o[1..], LosingAt(b, o[1..]), |o| - 1)
  {
    LessIsTotal(b[0].key, o[0].key);
    AllBehind(b, o[0].key);
    NoKeyNoLoss(b, o[0]);
    SelectedBehind(o, o[1..], at, LosingAt(b, o[1..]), |o| - 1);
  }

  lemma {:induction false} MergeIsOrdered(b: seq<Keyword>, o: seq<Keyword>)
    requires Ordered(b) && Ordered(o)
    ensures Ordered(MergeOther(b, o).0)
    decreases |b| + |o|
  {
    if b != [] && o != [] {
      RestIsBehind(b);
      RestIsBehind(o);
      var b', o' := b, o;
      var head := b[0];
      if b[0].key == o[0].key {
        b', o' := b[1..], o[1..];
      } else if CodePointLess(b[0].key, o[0].key) {
        b' := b[1..];
      } else {
        o', head := o[1..], o[0];
        LessIsTotal(b[0].key, o[0].key);
      }
      MergeIsOrdered(b', o');
      var rest := MergeOther(b', o').0;
      forall i | 0 <= i < |rest|
        ensures CodePointLess(head.key, rest[i].key)
      {
        MergeHolds(b', o', rest[i]);
        BehindHead(b, o, b', o', head, rest[i]);
      }
      assert MergeOther(b, o).0 == [head] + rest;
    }
  }

  lemma BehindHead(b: seq<Keyword>, o: seq<Keyword>, b': seq<Keyword>, o': seq<Keyword>, head: Keyword, k: Keyword)
    requires Ordered(b) && Ordered(o) && b != [] && o != [] && (k in b' || k in o')
    requires (b' == b[1..] && (head.key == b[0].key)) || (b' == b && CodePointLess(head.key, b[0].key))
    requires (o' == o[1..] && (head.key == o[0].key)) || (o' == o && CodePointLess(head.key, o[0].key))
    ensures CodePointLess(head.key, k.key)
  {
    if k in b' {
      BehindIn(b, b', head.key, k);
    } else {
      BehindIn(o, o', head.key, k);
    }
  }

  lemma BehindIn(ks: seq<Keyword>, ks': seq<Keyword>, key: string, k: Keyword)
    requires Ordered(ks) && ks != [] && k in ks'
    requires (ks' == ks[1..] && key == ks[0].key) || (ks' == ks && CodePointLess(key, ks[0].key))
    ensures CodePointLess(key, k.key)
  {
    var i :| 0 <= i < |ks'| && ks'[i] == k;
    if ks' == ks[1..] && key == ks[0].key {
      assert ks[i + 1] == k;
    } else {
      LessIsStrict(key, ks[0].key, ks[i].key);
    }
  }

  // ---------- The whole node ----------

  /** The types of the result: the meets in row order, or the types of the one side that has some. */
  predicate TakesTypes(b: Schema, o: Schema, types: Option<seq<string>>)
    requires b.Node? && o.Node?
  {
    types ==
    if b.types.Some? && o.types.Some? then
      var all := AllMeets(b.types.value, o.types.value);
      Some(Selected(all, KeptMeets(all), |all|))
    else if b.types.Some? then b.types
    else o.types
  }

  /** The listed values of the result: the copies of one side that count, in its order. */
  ghost predicate TakesValues(b: Schema, o: Schema, names: seq<string>, values: Option<seq<Value>>)
    requires b.Node? && o.Node?
  {
    values ==
    if ListsValues(b) || ListsValues(o) then
      Some(Selected(Listing(b, o), ListedAt(b, o, names), |Listing(b, o)|))
    else None
  }

  /** The required names of the result: those of both sides, each where it comes first. */
  predicate TakesRequired(b: Schema, o: Schema, required: Option<seq<string>>)
    requires b.Node? && o.Node?
  {
    var all := Names(b.required) + Names(o.required);
    required == if all == [] then None else Some(Selected(all, FirstNames(all), |all|))
  }

  /** The branches of the result: both sides' branches, and a conjunct for each losing keyword. */
  ghost predicate TakesBranches(b: Schema, o: Schema, allOf: seq<Schema>)
    requires b.Node? && o.Node?
  {
    var lost := Selected(o.other, LosingAt(b.other, o.other), |o.other|);
    && |allOf| == |b.allOf| + |o.allOf| + |lost|
    && b.allOf + o.allOf <= allOf
    && forall k :: 0 <= k < |lost| ==> allOf[|b.allOf| + |o.allOf| + k] == EMPTY.(other := [lost[k]])
  }

  /** The uninterpreted keywords of the result: the base's, and the overlay's under other keys, in key order. */
  ghost predicate TakesKeywords(b: Schema, o: Schema, other: seq<Keyword>)
    requires b.Node? && o.Node?
  {
    Ordered(other) && forall k :: k in other <==> InMerge(b.other, o.other, k)
  }

  lemma TypesOf(b: Schema, o: Schema, m: Schema)
    requires b.Node? && o.Node? && Conjoin(b, o) == Ok(m)
    ensures m.Node? && ConjoinTypes(b, o).Ok? && Names(m.types) == ConjoinTypes(b, o).value
    ensures TakesTypes(b, o, m.types)
  {
    var all := if b.types.Some? && o.types.Some? then AllMeets(b.types.value, o.types.value) else [];
    TypesExactly(b, o, all);
    if b.types.Some? && o.types.Some? {
      TypeIntersectionExactly(b.types.value, o.types.value, all);
    }
  }

  lemma ValuesOf(b: Schema, o: Schema, m: Schema, names: seq<string>)
    requires b.Node? && o.Node? && Conjoin(b, o) == Ok(m) && ListsJson(b) && ListsJson(o)
    requires ConjoinTypes(b, o) == Ok(names)
    ensures m.Node? && m.constant.None? && TakesValues(b, o, names, m.enumeration)
  {
    ListedExactly(b, o, names, Listing(b, o), ListedAt(b, o, names));
  }

  lemma RequiredOf(b: Schema, o: Schema, m: Schema)
    requires b.Node? && o.Node? && Conjoin(b, o) == Ok(m)
    ensures m.Node? && TakesRequired(b, o, m.required)
  {
    RequiredExactly(b, o, Names(b.required) + Names(o.required));
  }

  lemma MembersOf(b: Schema, o: Schema, m: Schema)
    requires b.Node? && o.Node? && Conjoin(b, o) == Ok(m)
    ensures m.Node? && TakesProperties(b, o, m.properties) && TakesAdditional(b, o, m.additional)
  {
    PropertiesExactly(b, o, m.properties);
    AdditionalExactly(b, o, m.additional);
  }

  lemma BranchesOf(b: Schema, o: Schema, m: Schema, lost: seq<Keyword>)
    requires b.Node? && o.Node? && m.Node? && m.allOf == b.allOf + o.allOf + AsConjuncts(lost)
    requires lost == Selected(o.other, LosingAt(b.other, o.other), |o.other|)
    ensures TakesBranches(b, o, m.allOf)
  {
    BranchesAre(b.allOf + o.allOf, lost, m.allOf);
  }

  lemma KeywordsOf(b: Schema, o: Schema, m: Schema)
    requires b.Node? && o.Node? && m.Node? && m.other == MergeOther(b.other, o.other).0
    requires Ordered(b.other) && Ordered(o.other)
    ensures TakesKeywords(b, o, m.other)
  {
    MergeIsOrdered(b.other, o.other);
    forall k
      ensures k in m.other <==> InMerge(b.other, o.other, k)
    {
      MergeHolds(b.other, o.other, k);
    }
  }

  lemma BranchesAre(before: seq<Schema>, lost: seq<Keyword>, allOf: seq<Schema>)
    requires allOf == before + AsConjuncts(lost)
    ensures |allOf| == |before| + |lost| && before <= allOf
    ensures forall k :: 0 <= k < |lost| ==> allOf[|before| + k] == EMPTY.(other := [lost[k]])
  {
    forall k | 0 <= k < |lost|
      ensures allOf[|before| + k] == EMPTY.(other := [lost[k]])
    {
      assert allOf[|before| + k] == AsConjuncts(lost)[k];
    }
  }

  /** The merged node in full. */
  lemma ConjunctionExactly(b: Schema, o: Schema, m: Schema)
    requires b.Node? && o.Node? && Conjoin(b, o) == Ok(m)
    requires ListsJson(b) && ListsJson(o) && Ordered(b.other) && Ordered(o.other)
    ensures m.Node? && TakesTypes(b, o, m.types)
    ensures m.constant.None? && TakesValues(b, o, Names(m.types), m.enumeration)
    ensures TakesRequired(b, o, m.required)
    ensures TakesProperties(b, o, m.properties) && TakesAdditional(b, o, m.additional)
    ensures TakesBranches(b, o, m.allOf) && TakesKeywords(b, o, m.other)
  {
    TypesOf(b, o, m);
    ValuesOf(b, o, m, Names(m.types));
    RequiredOf(b, o, m);
    MembersOf(b, o, m);
    ConjoinedKeywords(b, o, m);
    KeywordsOf(b, o, m);
    LosingExactly(b.other, o.other, LosingAt(b.other, o.other));
    BranchesOf(b, o, m, MergeOther(b.other, o.other).1);
  }

  /** `true` changes nothing: the other side is the result, or the empty node when both are `true`. */
  lemma TrueIsNeutral(s: Schema)
    requires s != Always(false)
    ensures Conjoin(Always(true), s) == Conjoin(s, Always(true)) == Ok(if s.Node? then s else EMPTY)
  {
  }
}
