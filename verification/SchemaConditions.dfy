/**
 `if`, `then` and `else` say something only next to each other (JSON Schema Validation draft-07,
 section 6.6), while a conjunction merges keywords one by one. Here they are judged together, and
 the pairs of schemas whose merge keeps what they say are characterised.
 */
module SchemaConditions {
  import opened Common
  import opened Json
  import opened SchemaConjunction
  import Utf16Order

  predicate IsConsequence(key: string) {
    key == "then" || key == "else"
  }

  /** Each `then` where each `if` holds, and each `else` where it does not; a half alone says nothing. */
  ghost predicate ConditionsHold(ks: seq<Keyword>, v: Value, oracle: Oracle) {
    forall i, j :: 0 <= i < |ks| && 0 <= j < |ks| && ks[i].key == "if" ==>
      && (ks[j].key == "then" && oracle(ks[i], v) ==> oracle(ks[j], v))
      && (ks[j].key == "else" && !oracle(ks[i], v) ==> oracle(ks[j], v))
  }

  // ---------- What a list of keywords says is its set of rules ----------

  datatype Rule = Rule(condition: Keyword, consequence: Keyword)

  ghost predicate IsRule(ks: seq<Keyword>, r: Rule) {
    r.condition in ks && r.consequence in ks && r.condition.key == "if" && IsConsequence(r.consequence.key)
  }

  ghost predicate RuleHolds(r: Rule, v: Value, oracle: Oracle) {
    oracle(r.consequence, v) || oracle(r.condition, v) == (r.consequence.key == "else")
  }

  lemma ConditionsAreRules(ks: seq<Keyword>, v: Value, oracle: Oracle)
    ensures ConditionsHold(ks, v, oracle) <==> forall r :: IsRule(ks, r) ==> RuleHolds(r, v, oracle)
  {
    if ConditionsHold(ks, v, oracle) {
      forall r | IsRule(ks, r)
        ensures RuleHolds(r, v, oracle)
      {
        var i :| 0 <= i < |ks| && ks[i] == r.condition;
        var j :| 0 <= j < |ks| && ks[j] == r.consequence;
      }
    }
    if forall r :: IsRule(ks, r) ==> RuleHolds(r, v, oracle) {
      forall i, j | 0 <= i < |ks| && 0 <= j < |ks| && ks[i].key == "if" && IsConsequence(ks[j].key)
        ensures RuleHolds(Rule(ks[i], ks[j]), v, oracle)
      {
        assert IsRule(ks, Rule(ks[i], ks[j]));
      }
    }
  }

  /** A judgement under which this rule fails and every other one holds. */
  function Against(r: Rule): Oracle {
    (k: Keyword, v: Value) =>
      if k.key == "if" then (k == r.condition) == (r.consequence.key == "then") else k != r.consequence
  }

  lemma OnlyThisFails(ks: seq<Keyword>, r: Rule, s: Rule, v: Value)
    requires IsRule(ks, r) && s.condition.key == "if" && IsConsequence(s.consequence.key)
    ensures RuleHolds(s, v, Against(r)) <==> s != r
  {
  }

  /** Two lists of keywords, or one. */
  ghost predicate BothHold(b: seq<Keyword>, o: seq<Keyword>, v: Value, oracle: Oracle) {
    ConditionsHold(b, v, oracle) && ConditionsHold(o, v, oracle)
  }

  ghost predicate FromASide(b: seq<Keyword>, o: seq<Keyword>, r: Rule) {
    IsRule(b, r) || IsRule(o, r)
  }

  /** Both sides together say at least what a third list says exactly when its rules are theirs. */
  lemma NotStricterIff(b: seq<Keyword>, o: seq<Keyword>, m: seq<Keyword>)
    ensures (forall v, oracle :: BothHold(b, o, v, oracle) ==> ConditionsHold(m, v, oracle))
       <==> (forall r :: IsRule(m, r) ==> FromASide(b, o, r))
  {
    if r :| IsRule(m, r) && !FromASide(b, o, r) {
      FailsOnlyOn(b, r, m);
      FailsOnlyOn(o, r, m);
      FailsOnlyOn(m, r, m);
      assert BothHold(b, o, Null, Against(r)) && !ConditionsHold(m, Null, Against(r));
    } else {
      forall v, oracle | BothHold(b, o, v, oracle)
        ensures ConditionsHold(m, v, oracle)
      {
        ConditionsAreRules(b, v, oracle);
        ConditionsAreRules(o, v, oracle);
        ConditionsAreRules(m, v, oracle);
        forall r | IsRule(m, r)
          ensures RuleHolds(r, v, oracle)
        {
          assert FromASide(b, o, r);
        }
      }
    }
  }

  lemma FailsOnlyOn(ks: seq<Keyword>, r: Rule, m: seq<Keyword>)
    requires IsRule(m, r)
    ensures ConditionsHold(ks, Null, Against(r)) <==> !IsRule(ks, r)
  {
    ConditionsAreRules(ks, Null, Against(r));
    forall s | IsRule(ks, s)
      ensures RuleHolds(s, Null, Against(r)) <==> s != r
    {
      OnlyThisFails(m, r, s, Null);
    }
  }

  /** A third list says at least what both sides say exactly when it has all their rules. */
  lemma NotWeakerIff(b: seq<Keyword>, o: seq<Keyword>, m: seq<Keyword>)
    ensures (forall v, oracle :: ConditionsHold(m, v, oracle) ==> BothHold(b, o, v, oracle))
       <==> (forall r :: FromASide(b, o, r) ==> IsRule(m, r))
  {
    if r :| FromASide(b, o, r) && !IsRule(m, r) {
      var side := if IsRule(b, r) then b else o;
      FailsOnlyOn(m, r, side);
      FailsOnlyOn(side, r, side);
      assert ConditionsHold(m, Null, Against(r)) && !BothHold(b, o, Null, Against(r));
    } else {
      forall v, oracle | ConditionsHold(m, v, oracle)
        ensures BothHold(b, o, v, oracle)
      {
        ConditionsAreRules(b, v, oracle);
        ConditionsAreRules(o, v, oracle);
        ConditionsAreRules(m, v, oracle);
        assert forall r :: IsRule(b, r) || IsRule(o, r) ==> FromASide(b, o, r);
      }
    }
  }

  // ---------- What a merge holds ----------

  /** Keywords in key order, each key once. */
  ghost predicate Ordered(ks: seq<Keyword>) {
    forall i, j :: 0 <= i < j < |ks| ==> CodePointLess(ks[i].key, ks[j].key)
  }

  ghost predicate HasKey(ks: seq<Keyword>, key: string) {
    exists i :: 0 <= i < |ks| && ks[i].key == key
  }

  function Codes(s: string): (r: seq<int>)
    ensures |r| == |s| && forall i :: 0 <= i < |s| ==> r[i] == s[i] as int
  {
    seq(|s|, i requires 0 <= i < |s| => s[i] as int)
  }

  lemma LessIsBefore(s: string, t: string)
    ensures CodePointLess(s, t) <==> Utf16Order.Before(Codes(s), Codes(t))
  {
  }

  lemma LessIsStrict(s: string, t: string, u: string)
    ensures !CodePointLess(s, s)
    ensures CodePointLess(s, t) && CodePointLess(t, u) ==> CodePointLess(s, u)
  {
    LessIsBefore(s, s);
    LessIsBefore(s, t);
    LessIsBefore(t, u);
    LessIsBefore(s, u);
    Utf16Order.BeforeIrreflexive(Codes(s));
    if CodePointLess(s, t) && CodePointLess(t, u) {
      Utf16Order.BeforeTransitive(Codes(s), Codes(t), Codes(u));
    }
  }

  lemma CodesInjective(s: string, t: string)
    requires Codes(s) == Codes(t)
    ensures s == t
  {
    assert |s| == |t|;
    forall i | 0 <= i < |s|
      ensures s[i] == t[i]
    {
      assert Codes(s)[i] == Codes(t)[i];
    }
  }

  lemma LessIsTotal(s: string, t: string)
    requires s != t
    ensures CodePointLess(s, t) || CodePointLess(t, s)
  {
    LessIsBefore(s, t);
    LessIsBefore(t, s);
    if Codes(s) == Codes(t) {
      CodesInjective(s, t);
    } else {
      Utf16Order.BeforeTotal(Codes(s), Codes(t));
    }
  }

  lemma RestIsBehind(ks: seq<Keyword>)
    requires Ordered(ks) && ks != []
    ensures Ordered(ks[1..]) && !HasKey(ks[1..], ks[0].key)
  {
    LessIsStrict(ks[0].key, ks[0].key, ks[0].key);
    assert forall i :: 0 <= i < |ks[1..]| ==> ks[1..][i] == ks[i + 1];
  }

  lemma AllBehind(ks: seq<Keyword>, key: string)
    requires Ordered(ks) && (ks != [] ==> CodePointLess(key, ks[0].key))
    ensures !HasKey(ks, key)
  {
    LessIsStrict(key, key, key);
    forall i | 0 <= i < |ks|
      ensures ks[i].key != key
    {
      if i > 0 {
        LessIsStrict(key, ks[0].key, ks[i].key);
      }
    }
  }

  ghost predicate InMerge(b: seq<Keyword>, o: seq<Keyword>, k: Keyword) {
    k in b || (k in o && !HasKey(b, k.key))
  }

  lemma HeadOrRest(ks: seq<Keyword>, k: Keyword)
    requires ks != []
    ensures k in ks <==> k == ks[0] || k in ks[1..]
    ensures HasKey(ks, k.key) <==> k.key == ks[0].key || HasKey(ks[1..], k.key)
  {
    assert ks == [ks[0]] + ks[1..];
    if HasKey(ks[1..], k.key) {
      var i :| 0 <= i < |ks[1..]| && ks[1..][i].key == k.key;
      assert ks[i + 1].key == k.key;
    }
    if HasKey(ks, k.key) && k.key != ks[0].key {
      var i :| 0 <= i < |ks| && ks[i].key == k.key;
      assert ks[1..][i - 1].key == k.key;
    }
  }

  lemma InHasKey(ks: seq<Keyword>, k: Keyword)
    requires k in ks
    ensures HasKey(ks, k.key)
  {
  }

  /** A merge holds all of the base and, for the keys it lacks, what the overlay has. */
  lemma {:induction false} MergeHolds(b: seq<Keyword>, o: seq<Keyword>, k: Keyword)
    requires Ordered(b) && Ordered(o)
    ensures k in MergeOther(b, o).0 <==> InMerge(b, o, k)
    decreases |b| + |o|
  {
    if b != [] && o != [] {
      HeadOrRest(b, k);
      HeadOrRest(o, k);
      RestIsBehind(b);
      RestIsBehind(o);
      if b[0].key == o[0].key {
        MergeHolds(b[1..], o[1..], k);
        if k in o[1..] { InHasKey(o[1..], k); }
      } else if CodePointLess(b[0].key, o[0].key) {
        MergeHolds(b[1..], o, k);
        AllBehind(o, b[0].key);
        if k in o { InHasKey(o, k); }
      } else {
        MergeHolds(b, o[1..], k);
        LessIsTotal(b[0].key, o[0].key);
        AllBehind(b, o[0].key);
      }
    }
  }

  // ---------- Which merges keep what the sides say ----------

  /** The keyword under a key, if there is one. */
  function Find(ks: seq<Keyword>, key: string): Option<Keyword> {
    if ks == [] then None else if ks[0].key == key then Some(ks[0]) else Find(ks[1..], key)
  }

  lemma {:induction false} FindIs(ks: seq<Keyword>, k: Keyword)
    requires Ordered(ks)
    ensures k in ks <==> Find(ks, k.key) == Some(k)
    ensures HasKey(ks, k.key) <==> Find(ks, k.key).Some?
  {
    if ks != [] {
      HeadOrRest(ks, k);
      RestIsBehind(ks);
      FindIs(ks[1..], k);
      if k in ks[1..] { InHasKey(ks[1..], k); }
    }
  }

  /** One side has only one half, and takes the other half from the other side. */
  predicate Joins(b: seq<Keyword>, o: seq<Keyword>, second: string) {
    var bi, bt, oi, ot := Find(b, "if"), Find(b, second), Find(o, "if"), Find(o, second);
    || (bi.Some? && bt.None? && ot.Some? && oi != bi)
    || (bi.None? && bt.Some? && oi.Some? && ot != bt)
  }

  /** The overlay has both halves, and the base has another keyword for one of them. */
  predicate Loses(b: seq<Keyword>, o: seq<Keyword>, second: string) {
    var bi, bt, oi, ot := Find(b, "if"), Find(b, second), Find(o, "if"), Find(o, second);
    oi.Some? && ot.Some? && ((bi.Some? && bi != oi) || (bt.Some? && bt != ot))
  }

  predicate JoinsHalves(b: seq<Keyword>, o: seq<Keyword>) {
    Joins(b, o, "then") || Joins(b, o, "else")
  }

  predicate LosesHalves(b: seq<Keyword>, o: seq<Keyword>) {
    Loses(b, o, "then") || Loses(b, o, "else")
  }

  lemma FindKey(ks: seq<Keyword>, key: string)
    ensures Find(ks, key).Some? ==> Find(ks, key).value.key == key
  {
  }

  function Either(x: Option<Keyword>, y: Option<Keyword>): Option<Keyword> {
    if x.Some? then x else y
  }

  /** The rules of ordered lists and of their merge, by what the sides have under each key. */
  lemma RulesFound(b: seq<Keyword>, o: seq<Keyword>, r: Rule)
    requires Ordered(b) && Ordered(o) && r.condition.key == "if" && IsConsequence(r.consequence.key)
    ensures var (i, t) := (Some(r.condition), Some(r.consequence));
      var second := r.consequence.key;
      && (IsRule(b, r) <==> Find(b, "if") == i && Find(b, second) == t)
      && (IsRule(o, r) <==> Find(o, "if") == i && Find(o, second) == t)
      && (IsRule(MergeOther(b, o).0, r) <==>
            Either(Find(b, "if"), Find(o, "if")) == i && Either(Find(b, second), Find(o, second)) == t)
  {
    FindIs(b, r.condition);
    FindIs(b, r.consequence);
    FindIs(o, r.condition);
    FindIs(o, r.consequence);
    MergeHolds(b, o, r.condition);
    MergeHolds(b, o, r.consequence);
  }

  lemma MergedRulesIff(b: seq<Keyword>, o: seq<Keyword>)
    requires Ordered(b) && Ordered(o)
    ensures (forall r :: IsRule(MergeOther(b, o).0, r) ==> FromASide(b, o, r)) <==> !JoinsHalves(b, o)
  {
    var m := MergeOther(b, o).0;
    forall r | IsRule(m, r)
      ensures FromASide(b, o, r) || Joins(b, o, r.consequence.key)
    {
      RulesFound(b, o, r);
    }
    if JoinsHalves(b, o) {
      var second := if Joins(b, o, "then") then "then" else "else";
      var r := JoinedRule(b, o, second);
      assert IsRule(m, r) && !FromASide(b, o, r);
    }
  }

  lemma JoinedRule(b: seq<Keyword>, o: seq<Keyword>, second: string) returns (r: Rule)
    requires Ordered(b) && Ordered(o) && IsConsequence(second) && Joins(b, o, second)
    ensures IsRule(MergeOther(b, o).0, r) && !FromASide(b, o, r)
  {
    FindKey(b, "if");
    FindKey(b, second);
    FindKey(o, "if");
    FindKey(o, second);
    r := Rule(Either(Find(b, "if"), Find(o, "if")).value, Either(Find(b, second), Find(o, second)).value);
    RulesFound(b, o, r);
  }

  lemma SideRulesIff(b: seq<Keyword>, o: seq<Keyword>)
    requires Ordered(b) && Ordered(o)
    ensures (forall r :: FromASide(b, o, r) ==> IsRule(MergeOther(b, o).0, r)) <==> !LosesHalves(b, o)
  {
    var m := MergeOther(b, o).0;
    forall r | FromASide(b, o, r)
      ensures IsRule(m, r) || Loses(b, o, r.consequence.key)
    {
      RulesFound(b, o, r);
    }
    if LosesHalves(b, o) {
      var second := if Loses(b, o, "then") then "then" else "else";
      var r := LostRule(b, o, second);
      assert FromASide(b, o, r) && !IsRule(m, r);
    }
  }

  lemma LostRule(b: seq<Keyword>, o: seq<Keyword>, second: string) returns (r: Rule)
    requires Ordered(b) && Ordered(o) && IsConsequence(second) && Loses(b, o, second)
    ensures FromASide(b, o, r) && !IsRule(MergeOther(b, o).0, r)
  {
    FindKey(o, "if");
    FindKey(o, second);
    r := Rule(Find(o, "if").value, Find(o, second).value);
    RulesFound(b, o, r);
  }

  // ---------- Conjoining two nodes ----------

  ghost predicate SidesSay(b: Schema, o: Schema, v: Value, oracle: Oracle)
    requires b.Node? && o.Node?
  {
    BothHold(b.other, o.other, v, oracle)
  }

  /** What the merged node says itself and in the conjuncts that the merge added to `before`. */
  ghost predicate MergeSays(m: Schema, before: nat, v: Value, oracle: Oracle)
    requires m.Node?
  {
    && ConditionsHold(m.other, v, oracle)
    && forall i :: before <= i < |m.allOf| ==> m.allOf[i].Node? && ConditionsHold(m.allOf[i].other, v, oracle)
  }

  lemma HalfSaysNothing(k: Keyword, v: Value, oracle: Oracle)
    ensures ConditionsHold([k], v, oracle)
  {
  }

  lemma ConjoinedKeywords(b: Schema, o: Schema, m: Schema)
    requires b.Node? && o.Node? && Conjoin(b, o) == Ok(m)
    ensures m.Node? && m.other == MergeOther(b.other, o.other).0
    ensures m.allOf == b.allOf + o.allOf + AsConjuncts(MergeOther(b.other, o.other).1)
  {
  }

  /** The conjuncts that a merge adds hold one keyword each, so they say nothing. */
  lemma OnlyTheNodeSays(m: Schema, before: seq<Schema>, lost: seq<Keyword>, v: Value, oracle: Oracle)
    requires m.Node? && m.allOf == before + AsConjuncts(lost)
    ensures MergeSays(m, |before|, v, oracle) <==> ConditionsHold(m.other, v, oracle)
  {
    forall i | |before| <= i < |m.allOf|
      ensures m.allOf[i].Node? && ConditionsHold(m.allOf[i].other, v, oracle)
    {
      assert m.allOf[i] == AsConjuncts(lost)[i - |before|];
      HalfSaysNothing(lost[i - |before|], v, oracle);
    }
  }

  /**
   Judged together, the merged node rejects nothing that the sides' conditions allow exactly when it
   joins no halves from different sides, and allows nothing that they reject exactly when no half of
   a pair loses: conditions on what each side has under `if`, `then` and `else`.
   */
  lemma ConjoinKeepsConditionsIff(b: Schema, o: Schema, m: Schema, before: nat)
    requires b.Node? && o.Node? && Conjoin(b, o) == Ok(m) && Ordered(b.other) && Ordered(o.other)
    requires before == |b.allOf| + |o.allOf|
    ensures m.Node?
    ensures (forall v, oracle :: SidesSay(b, o, v, oracle) ==> MergeSays(m, before, v, oracle))
       <==> !JoinsHalves(b.other, o.other)
    ensures (forall v, oracle :: MergeSays(m, before, v, oracle) ==> SidesSay(b, o, v, oracle))
       <==> !LosesHalves(b.other, o.other)
  {
    ConjoinedKeywords(b, o, m);
    forall v, oracle
      ensures MergeSays(m, before, v, oracle) <==> ConditionsHold(m.other, v, oracle)
    {
      OnlyTheNodeSays(m, b.allOf + o.allOf, MergeOther(b.other, o.other).1, v, oracle);
    }
    NotStricterIff(b.other, o.other, m.other);
    NotWeakerIff(b.other, o.other, m.other);
    MergedRulesIff(b.other, o.other);
    SideRulesIff(b.other, o.other);
  }

  // ---------- Three ways to go wrong ----------

  lemma IfThen(condition: Keyword, consequence: Keyword, v: Value, oracle: Oracle)
    requires condition.key == "if" && consequence.key == "then"
    ensures ConditionsHold([condition, consequence], v, oracle) <==> (oracle(condition, v) ==> oracle(consequence, v))
  {
    var ks := [condition, consequence];
    assert ks[0] == condition && ks[1] == consequence;
  }

  lemma IfBeforeThen()
    ensures CodePointLess("if", "then")
  {
    LessIsBefore("if", "then");
    assert Codes("if")[0] == 'i' as int && Codes("then")[0] == 't' as int;
  }

  lemma MergeEnds(k: Keyword, other: Keyword)
    requires !IsAnnotation(k.key) && other.key == k.key
    ensures MergeOther([k], [other]) == ([k], if k.raw == other.raw then [] else [other])
  {
    assert [k][1..] == [] && [other][1..] == [];
    assert MergeOther([], []) == ([], []);
    assert [k] + [] == [k] && [other] + [] == [other];
  }

  lemma MergeHeads(k: Keyword, other: Keyword, rest: Keyword, last: Keyword)
    requires !IsAnnotation(k.key) && other.key == k.key && !IsAnnotation(rest.key) && last.key == rest.key
    ensures MergeOther([k, rest], [other, last]) ==
      ([k, rest], (if k.raw == other.raw then [] else [other]) + (if rest.raw == last.raw then [] else [last]))
  {
    assert [k, rest][1..] == [rest] && [other, last][1..] == [last] && [k] + [rest] == [k, rest];
    MergeEnds(rest, last);
    var lost := if rest.raw == last.raw then [] else [last];
    assert MergeOther([rest], [last]) == ([rest], lost);
    assert [] + lost == lost;
  }

  /** An `if` on one side and a `then` on the other say nothing, and are joined into a rule. */
  lemma JoinedHalvesSayMore(condition: Keyword, consequence: Keyword, v: Value, oracle: Oracle)
    requires condition.key == "if" && consequence.key == "then"
    ensures MergeOther([condition], [consequence]) == ([condition, consequence], [])
    ensures BothHold([condition], [consequence], v, oracle)
    ensures ConditionsHold([condition, consequence], v, oracle) <==> (oracle(condition, v) ==> oracle(consequence, v))
  {
    IfBeforeThen();
    assert [condition][1..] == [];
    assert MergeOther([], [consequence]) == ([consequence], []);
    assert [condition] + [consequence] == [condition, consequence];
    IfThen(condition, consequence, v, oracle);
  }

  /** A losing `if` is kept without its `then`, and what it demanded is gone. */
  lemma LosingIfSaysNothing(kept: Keyword, losing: Keyword, consequence: Keyword, v: Value, oracle: Oracle)
    requires kept.key == "if" && losing.key == "if" && consequence.key == "then" && kept.raw != losing.raw
    ensures MergeOther([kept, consequence], [losing, consequence]) == ([kept, consequence], [losing])
    ensures BothHold([kept, consequence], [losing, consequence], v, oracle) <==>
            (oracle(kept, v) || oracle(losing, v) ==> oracle(consequence, v))
    ensures BothHold([kept, consequence], [losing], v, oracle) <==> (oracle(kept, v) ==> oracle(consequence, v))
  {
    MergeHeads(kept, losing, consequence, consequence);
    assert [losing] + [] == [losing];
    IfThen(kept, consequence, v, oracle);
    IfThen(losing, consequence, v, oracle);
  }

  /** So is a losing `then` without its `if`. */
  lemma LosingThenSaysNothing(condition: Keyword, kept: Keyword, losing: Keyword, v: Value, oracle: Oracle)
    requires condition.key == "if" && kept.key == "then" && losing.key == "then" && kept.raw != losing.raw
    ensures MergeOther([condition, kept], [condition, losing]) == ([condition, kept], [losing])
    ensures BothHold([condition, kept], [condition, losing], v, oracle) <==>
            (oracle(condition, v) ==> oracle(kept, v) && oracle(losing, v))
    ensures BothHold([condition, kept], [losing], v, oracle) <==> (oracle(condition, v) ==> oracle(kept, v))
  {
    MergeHeads(condition, condition, kept, losing);
    assert [] + [losing] == [losing];
    IfThen(condition, kept, v, oracle);
    IfThen(condition, losing, v, oracle);
  }
}
