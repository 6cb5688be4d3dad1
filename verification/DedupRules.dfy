/**
 The deduper's rules, each stated on its own: which entry a record belongs to, what merging keeps of
 both, what stays in the window and among the active calls, and what an id is made of.
 */
module DedupRules {
  import opened Common
  import opened Dedup
  import Decimal
  import Text
  import TextLines

  // ---------- Reading a record ----------

  /** A record's two texts are normalised, each on its own, and nothing else about it changes. */
  lemma RecordIsNormalised(raw: Entry)
    ensures var c := Normalized(raw);
      && c == raw.(primary := c.primary, secondary := c.secondary)
      && Text.Normal(c.primary) && TextLines.NonBlank(c.primary) == TextLines.NonBlank(raw.primary)
      && Text.Normal(c.secondary) && TextLines.NonBlank(c.secondary) == TextLines.NonBlank(raw.secondary)
  {
    Text.NormalizeIsNormal(raw.primary);
    Text.NormalizeIsNormal(raw.secondary);
    TextLines.CharactersAreKept(raw.primary);
    TextLines.CharactersAreKept(raw.secondary);
  }

  // ---------- Merging ----------

  /** A completed item is the best source, then a presented event, a response item and a derived entry. */
  predicate BetterSource(c: Origin, e: Origin) {
    match c
    case ItemCompleted => !e.ItemCompleted?
    case EventPresentation => e.ResponseItem? || e.Derived?
    case ResponseItem => e.Derived?
    case Derived => false
  }

  /** The references of a record that are not there yet and do not come earlier in it. */
  function NewRefs(existing: seq<string>, more: seq<string>): seq<string> {
    if more == [] then []
    else
      var n := |more| - 1;
      NewRefs(existing, more[..n]) + if more[n] !in existing && more[n] !in more[..n] then [more[n]] else []
  }

  lemma {:induction false} MergeRefsSnoc(existing: seq<string>, more: seq<string>, ref: string)
    ensures MergeRefs(existing, more + [ref]) ==
      var before := MergeRefs(existing, more); if ref in before then before else before + [ref]
    decreases |more|
  {
    if more == [] {
      assert [] + [ref] == [ref] && [ref][1..] == [];
    } else {
      assert (more + [ref])[1..] == more[1..] + [ref];
      MergeRefsSnoc(if more[0] in existing then existing else existing + [more[0]], more[1..], ref);
    }
  }

  lemma RefStep(existing: seq<string>, upTo: seq<string>, ref: string, before: seq<string>, added: seq<string>)
    requires before == existing + added && (ref in before <==> ref in existing || ref in upTo)
    ensures (if ref in before then before else before + [ref]) ==
            existing + (added + if ref !in existing && ref !in upTo then [ref] else [])
  {
  }

  lemma NewRefsSnoc(existing: seq<string>, upTo: seq<string>, ref: string)
    ensures NewRefs(existing, upTo + [ref]) ==
            NewRefs(existing, upTo) + if ref !in existing && ref !in upTo then [ref] else []
  {
    assert (upTo + [ref])[..|upTo|] == upTo;
  }

  ghost predicate Appended(existing: seq<string>, more: seq<string>) {
    MergeRefs(existing, more) == existing + NewRefs(existing, more)
  }

  lemma RefsSnoc(existing: seq<string>, upTo: seq<string>, ref: string, more: seq<string>)
    requires Appended(existing, upTo) && more == upTo + [ref]
    ensures Appended(existing, more)
  {
    MergeRefsSnoc(existing, upTo, ref);
    NewRefsSnoc(existing, upTo, ref);
    RefStep(existing, upTo, ref, MergeRefs(existing, upTo), NewRefs(existing, upTo));
  }

  lemma NoRefs(existing: seq<string>)
    ensures Appended(existing, [])
  {
    assert existing + [] == existing;
  }

  /** Merging appends exactly the new references, each once, in the record's order. */
  lemma {:induction false} RefsAreAppended(existing: seq<string>, more: seq<string>)
    ensures Appended(existing, more)
  {
    if more == [] {
      NoRefs(existing);
    } else {
      var n := |more| - 1;
      RefsAreAppended(existing, more[..n]);
      RefsSnoc(existing, more[..n], more[n], more);
    }
  }

  /** A text continues another one that is not empty. */
  predicate Continues(text: string, before: string) {
    before != [] && before <= text && |text| > |before|
  }

  predicate IsAround(text: string, before: string, part: string, after: string) {
    text == before + part + after
  }

  ghost predicate Contains(text: string, part: string) {
    exists before, after :: IsAround(text, before, part, after)
  }

  lemma HoldsIffContains(text: string, part: string)
    ensures Holds(text, part) <==> Contains(text, part)
  {
    if Holds(text, part) {
      var i :| 0 <= i <= |text| && OccursAt(text, part, i);
      assert text == text[..i] + text[i..i + |part|] + text[i + |part|..];
      assert IsAround(text, text[..i], part, text[i + |part|..]);
    }
    if Contains(text, part) {
      var before, after :| IsAround(text, before, part, after);
      assert text[|before|..|before| + |part|] == part;
      assert OccursAt(text, part, |before|);
    }
  }

  /** The secondary text of the result: nothing is added twice, and what is added goes on its own line. */
  ghost predicate SecondaryJoined(existing: string, candidate: string, joined: string) {
    if candidate == [] then joined == existing
    else if existing == [] then joined == candidate
    else if Contains(existing, candidate) then joined == existing
    else joined == existing + "\n" + candidate
  }

  lemma SecondaryIsJoined(existing: string, candidate: string)
    ensures SecondaryJoined(existing, candidate, MergeSecondary(existing, candidate))
  {
    HoldsIffContains(existing, candidate);
  }

  lemma JoinedWithItself(text: string, joined: string)
    requires SecondaryJoined(text, text, joined)
    ensures joined == text
  {
    assert text == [] + text + [];
    assert IsAround(text, [], text, []);
  }

  lemma MergedPlainFields(e: Entry, c: Entry)
    ensures var r := Merge(e, c);
      var better := BetterSource(c.origin, e.origin);
      && r.id == e.id && r.sessionId == e.sessionId && r.sequence == e.sequence && r.idBasis == e.idBasis
      && r.timestamp == e.timestamp && r.rawRefs == MergeRefs(e.rawRefs, c.rawRefs)
      && r.status == (if c.status.Some? || better then c.status else e.status)
      && r.title == (if better || e.title == [] then c.title else e.title)
      && (r.kind, r.role, r.phase) == (if better then (c.kind, c.role, c.phase) else (e.kind, e.role, e.phase))
      && (r.callId, r.display, r.origin) ==
           (if better then (c.callId, c.display, c.origin) else (e.callId, e.display, e.origin))
      && r.secondary == MergeSecondary(if better then c.secondary else e.secondary, c.secondary)
  {
  }

  lemma MergedText(e: Entry, c: Entry)
    ensures Merge(e, c).primary ==
      if BetterSource(c.origin, e.origin) || e.primary == [] || Continues(c.primary, e.primary)
      then c.primary else e.primary
  {
  }

  /**
   What each field of a merged entry is: a record's status always wins, its texts, title and kind when
   its source is better or there is nothing else, and its text also when it continues the entry's.
   */
  lemma MergedFields(e: Entry, c: Entry)
    ensures var r := Merge(e, c);
      var better := BetterSource(c.origin, e.origin);
      && r.id == e.id && r.sessionId == e.sessionId && r.sequence == e.sequence && r.idBasis == e.idBasis
      && r.timestamp == e.timestamp
      && r.rawRefs == e.rawRefs + NewRefs(e.rawRefs, c.rawRefs)
      && r.status == (if c.status.Some? || better then c.status else e.status)
      && r.primary == (if better || e.primary == [] || Continues(c.primary, e.primary) then c.primary else e.primary)
      && r.title == (if better || e.title == [] then c.title else e.title)
      && (r.kind, r.role, r.phase) == (if better then (c.kind, c.role, c.phase) else (e.kind, e.role, e.phase))
      && (r.callId, r.display, r.origin) ==
           (if better then (c.callId, c.display, c.origin) else (e.callId, e.display, e.origin))
      && (if better then r.secondary == c.secondary else SecondaryJoined(e.secondary, c.secondary, r.secondary))
  {
    MergedPlainFields(e, c);
    MergedText(e, c);
    RefsAreAppended(e.rawRefs, c.rawRefs);
    SecondaryIsJoined(if BetterSource(c.origin, e.origin) then c.secondary else e.secondary, c.secondary);
    if BetterSource(c.origin, e.origin) {
      JoinedWithItself(c.secondary, Merge(e, c).secondary);
    }
  }

  /** A number of attachments, 0 when it is not given as one. */
  function Attachments(m: map<string, Meta>, key: string): nat {
    if key in m && m[key].NumberValue? then m[key].number else 0
  }

  /** Attachment counts become the larger one, unless that is 0; any other key of a record replaces the entry's. */
  lemma MergedMetadata(e: Entry, c: Entry, key: string)
    ensures var m := Merge(e, c).metadata;
      var count := if Attachments(e.metadata, key) > Attachments(c.metadata, key)
                   then Attachments(e.metadata, key) else Attachments(c.metadata, key);
      if key in c.metadata && key in {"attachmentCount", "imageAttachmentCount", "audioAttachmentCount"} && count > 0
      then key in m && m[key] == NumberValue(count)
      else if key in c.metadata && key !in {"attachmentCount", "imageAttachmentCount", "audioAttachmentCount"}
      then key in m && m[key] == c.metadata[key]
      else (key in m <==> key in e.metadata) && (key in m ==> m[key] == e.metadata[key])
  {
  }

  // ---------- Which entry a record belongs to ----------

  /** The source item a record names in its metadata. */
  predicate NamesItem(e: Entry, item: string) {
    "sourceItemId" in e.metadata && e.metadata["sourceItemId"] == TextValue(item)
  }

  predicate SameItem(e: Entry, c: Entry) {
    SourceItem(c).Some? && NamesItem(c, SourceItem(c).value) && NamesItem(e, SourceItem(c).value)
  }

  lemma ItemIsNamed(e: Entry, item: string)
    ensures SourceItem(e) == Some(item) <==> NamesItem(e, item)
  {
  }

  /** At most ten lines later. */
  predicate WithinLines(t: Tracked, line: nat) {
    line <= t.line + 10
  }

  /** At most two seconds apart, when both have a time. */
  predicate WithinTime(e: Entry, c: Entry) {
    && e.timestamp.Some? && c.timestamp.Some?
    && -2000000 <= e.timestamp.value - c.timestamp.value <= 2000000
  }

  /** The same text, the same plan but for blanks around it, or one that continues the other. */
  predicate Repeats(e: Entry, c: Entry) {
    if e.primary == [] && c.primary == [] then e.secondary == c.secondary && c.secondary != []
    else
      || e.primary == c.primary
      || (c.kind.Plan? && Text.Trim(e.primary) == Text.Trim(c.primary))
      || (e.primary != [] && c.primary != [] && (e.primary <= c.primary || c.primary <= e.primary))
  }

  predicate SaysAgain(t: Tracked, c: Entry, line: nat) {
    && t.entry.kind == c.kind && t.entry.role == c.role && t.entry.phase == c.phase
    && (WithinLines(t, line) || WithinTime(t.entry, c))
    && Repeats(t.entry, c)
  }

  lemma SaysAgainIff(t: Tracked, c: Entry, line: nat)
    ensures TextDuplicate(t, c, line) <==> SaysAgain(t, c, line)
  {
  }

  /** The last position of the window with the record's source item. */
  ghost predicate LastSameItem(recent: seq<Tracked>, c: Entry, i: nat) {
    && i < |recent| && SameItem(recent[i].entry, c)
    && forall k :: i < k < |recent| ==> !SameItem(recent[k].entry, c)
  }

  ghost predicate NoSameItem(recent: seq<Tracked>, c: Entry) {
    forall k :: 0 <= k < |recent| ==> !SameItem(recent[k].entry, c)
  }

  /** The first position of the window with the record's call, within ten lines. */
  ghost predicate FirstSameCall(recent: seq<Tracked>, call: string, line: nat, i: nat) {
    && i < |recent| && recent[i].entry.callId == Some(call) && WithinLines(recent[i], line)
    && forall k :: 0 <= k < i ==> !(recent[k].entry.callId == Some(call) && WithinLines(recent[k], line))
  }

  ghost predicate NoSameCall(recent: seq<Tracked>, call: string, line: nat) {
    forall k :: 0 <= k < |recent| ==> !(recent[k].entry.callId == Some(call) && WithinLines(recent[k], line))
  }

  /** The last position of the window whose text the record says again. */
  ghost predicate LastSaid(recent: seq<Tracked>, c: Entry, line: nat, i: nat) {
    && i < |recent| && SaysAgain(recent[i], c, line)
    && forall k :: i < k < |recent| ==> !SaysAgain(recent[k], c, line)
  }

  ghost predicate NoneSaid(recent: seq<Tracked>, c: Entry, line: nat) {
    forall k :: 0 <= k < |recent| ==> !SaysAgain(recent[k], c, line)
  }

  lemma SourcedIff(recent: seq<Tracked>, c: Entry)
    ensures var found := if SourceItem(c).Some? then LastSource(recent, SourceItem(c).value, |recent|) else None;
      if found.Some? then LastSameItem(recent, c, found.value) else NoSameItem(recent, c)
  {
    forall k | 0 <= k < |recent| && SourceItem(c).Some?
      ensures SameItem(recent[k].entry, c) <==> SourceItem(recent[k].entry) == SourceItem(c)
    {
      ItemIsNamed(recent[k].entry, SourceItem(c).value);
      ItemIsNamed(c, SourceItem(c).value);
    }
  }

  /**
   The source item decides first; then a record of a call belongs to the call's unfinished entry, or
   to its first one within ten lines; a record without a call belongs to the last entry of its kind,
   role and phase, within ten lines or two seconds, that says the same. Otherwise it is a new entry.
   */
  lemma ChoosesExactly(s: State, c: Entry, line: nat)
    ensures match Choose(s, c, line)
      case BySource(i) => LastSameItem(s.recent, c, i)
      case ByActive(call) => NoSameItem(s.recent, c) && c.callId == Some(call) && call in s.activeTools
      case ByCall(i, call) =>
        NoSameItem(s.recent, c) && c.callId == Some(call) && call !in s.activeTools && FirstSameCall(s.recent, call, line, i)
      case ByText(i) => NoSameItem(s.recent, c) && c.callId.None? && LastSaid(s.recent, c, line, i)
      case Fresh =>
        && NoSameItem(s.recent, c)
        && (c.callId.Some? ==> c.callId.value !in s.activeTools && NoSameCall(s.recent, c.callId.value, line))
        && (c.callId.None? ==> NoneSaid(s.recent, c, line))
  {
    SourcedIff(s.recent, c);
    forall k | 0 <= k < |s.recent|
      ensures TextDuplicate(s.recent[k], c, line) <==> SaysAgain(s.recent[k], c, line)
      ensures c.callId.Some? ==> (CallNearby(s.recent[k], c.callId.value, line) <==>
                s.recent[k].entry.callId == c.callId && WithinLines(s.recent[k], line))
    {
      SaysAgainIff(s.recent[k], c, line);
    }
  }

  // ---------- The window and the active calls ----------

  predicate Unfinished(e: Entry) {
    e.callId.Some? && e.status !in {Some(Succeeded), Some(Failed), Some(Interrupted)}
  }

  /** The call's entry is active while it is unfinished. */
  function ActiveWhile(active: map<string, Tracked>, call: string, t: Tracked): map<string, Tracked> {
    if t.entry.status in {Some(Succeeded), Some(Failed), Some(Interrupted)} then active - {call} else active[call := t]
  }

  /** A new entry is numbered, tracked, and active when it is an unfinished call. */
  lemma FreshExactly(s: State, c: Entry, line: nat)
    requires Choose(s, c, line).Fresh?
    ensures var (s', e) := Accept(s, c, line);
      var t := Tracked(line, e);
      && e == Issue(s, c, line) && s'.recent == TrackRecent(s.recent, t) && s'.nextSequence == s.nextSequence + 1
      && s'.activeTools == if Unfinished(e) then s.activeTools[e.callId.value := t] else s.activeTools
  {
  }

  /** The entry a record is merged into, and the window without it. */
  function Target(s: State, choice: Choice, c: Entry): (Entry, seq<Tracked>)
    requires Merges(s, choice, c)
  {
    if choice.ByActive? then (s.activeTools[choice.call].entry, s.recent)
    else (s.recent[choice.index].entry, s.recent[..choice.index] + s.recent[choice.index + 1..])
  }

  /** A merge yields the merged entry, tracks it as the newest, and keeps the active calls up to date. */
  lemma MergeExactly(s: State, c: Entry, line: nat)
    requires !Choose(s, c, line).Fresh?
    ensures var (s', e) := Accept(s, c, line);
      var choice := Choose(s, c, line);
      var (before, others) := Target(s, choice, c);
      && e == Merge(before, c) && s'.recent == TrackRecent(others, Tracked(line, e)) && s'.nextSequence == s.nextSequence
  {
  }

  lemma ActiveExactly(s: State, c: Entry, line: nat, e: Entry)
    requires Tidy(s) && !Choose(s, c, line).Fresh? && e == Accept(s, c, line).1
    ensures var active := Accept(s, c, line).0.activeTools;
      var t := Tracked(line, e);
      match Choose(s, c, line)
      case BySource(i) =>
        var call := s.recent[i].entry.callId;
        var others := if call.Some? then s.activeTools - {call.value} else s.activeTools;
        active == if Unfinished(e) then others[e.callId.value := t] else others
      case ByActive(call) => active == ActiveWhile(s.activeTools, call, t)
      case ByCall(_, call) => active == ActiveWhile(s.activeTools, call, t)
      case ByText(_) => active == s.activeTools
  {
  }

  /** Out of the window: more than ten lines back and, when both have a time, more than two seconds apart. */
  predicate Stale(u: Tracked, t: Tracked) {
    && t.line > u.line + 10
    && (t.entry.timestamp.Some? && u.entry.timestamp.Some? ==>
          !(-2000000 <= t.entry.timestamp.value - u.entry.timestamp.value <= 2000000))
  }

  lemma {:induction false} PrunedExactly(all: seq<Tracked>, t: Tracked) returns (k: nat)
    ensures k <= |all| && Prune(all, t.line, t.entry.timestamp) == all[k..]
    ensures (forall i :: 0 <= i < k ==> Stale(all[i], t)) && (k < |all| ==> !Stale(all[k], t))
  {
    k := 0;
    if all != [] && Stale(all[0], t) {
      var rest := PrunedExactly(all[1..], t);
      k := rest + 1;
      forall i | 0 <= i < k
        ensures Stale(all[i], t)
      {
        assert i > 0 ==> all[i] == all[1..][i - 1];
      }
      assert all[1..][rest..] == all[k..];
    }
  }

  ghost predicate FirstWithId(recent: seq<Tracked>, id: Option<Id>, i: nat) {
    && i <= |recent| && (forall k :: 0 <= k < i ==> recent[k].entry.id != id)
    && (i < |recent| ==> recent[i].entry.id == id)
  }

  function WithoutAt(recent: seq<Tracked>, i: nat): seq<Tracked> {
    if i < |recent| then recent[..i] + recent[i + 1..] else recent
  }

  lemma OneBehind(first: Tracked, rest: seq<Tracked>, id: Option<Id>, i: nat)
    requires first.entry.id != id && FirstWithId(rest, id, i)
    ensures FirstWithId([first] + rest, id, i + 1) && WithoutAt([first] + rest, i + 1) == [first] + WithoutAt(rest, i)
  {
    var all := [first] + rest;
    assert forall k :: 0 < k < |all| ==> all[k] == rest[k - 1];
    if i < |rest| {
      assert all[..i + 1] == [first] + rest[..i] && all[i + 2..] == rest[i + 1..];
      assert [first] + rest[..i] + rest[i + 1..] == [first] + (rest[..i] + rest[i + 1..]);
    }
  }

  /** One entry leaves the window when a newer copy comes: the first with its id. */
  lemma {:induction false} DroppedExactly(recent: seq<Tracked>, id: Option<Id>) returns (i: nat)
    ensures FirstWithId(recent, id, i) && DropId(recent, id) == WithoutAt(recent, i)
  {
    i := 0;
    if recent != [] && recent[0].entry.id != id {
      var rest := DroppedExactly(recent[1..], id);
      OneBehind(recent[0], recent[1..], id, rest);
      assert recent == [recent[0]] + recent[1..];
      i := rest + 1;
    }
  }

  /** The window after a copy came: without its older copy, the new one last, less what is stale in front. */
  lemma WindowExactly(recent: seq<Tracked>, t: Tracked) returns (k: nat)
    ensures var others := DropId(recent, t.entry.id);
      && k <= |others| && TrackRecent(recent, t) == others[k..] + [t]
      && (forall i :: 0 <= i < k ==> Stale(others[i], t))
      && (k < |others| ==> !Stale(others[k], t))
  {
    var others := DropId(recent, t.entry.id);
    var all := others + [t];
    assert all[|others|] == t && !Stale(t, t);
    k := PrunedExactly(all, t);
    assert all[k..] == others[k..] + [t];
    assert forall i :: 0 <= i < |others| ==> all[i] == others[i];
  }

  /** Resuming tracks each stored entry as if it had just come. */
  lemma {:induction false} SeedTracksEach(s: State, recent: seq<Tracked>, t: Tracked)
    ensures FromSeed(s, recent + [t]) ==
      FromSeed(s, recent).(recent := TrackRecent(FromSeed(s, recent).recent, t),
                           activeTools := if Unfinished(t.entry) then FromSeed(s, recent).activeTools[t.entry.callId.value := t]
                                          else FromSeed(s, recent).activeTools)
    decreases |recent|
  {
    if recent == [] {
      assert [] + [t] == [t] && [t][1..] == [];
      assert FromSeed(Remember(s, t), []) == Remember(s, t);
    } else {
      assert (recent + [t])[1..] == recent[1..] + [t];
      SeedTracksEach(Remember(s, recent[0]), recent[1..], t);
    }
  }

  // ---------- What an id is made of ----------

  /** How often a basis was used on this line: not at all on a new line, and once more by each new entry. */
  lemma OccurrencesCount(s: State, c: Entry, line: nat, basis: string)
    ensures s.occurrenceLine != Some(line) || basis !in s.lineOccurrences ==> OccurrenceOf(s, line, basis) == 0
    ensures Choose(s, c, line).Fresh? ==>
      OccurrenceOf(Accept(s, c, line).0, line, basis) ==
      OccurrenceOf(s, line, basis) + if basis == CandidateBasis(s, c) then 1 else 0
  {
    CounterAdvances(s, c, line, basis);
  }

  /** The session's name can be set until an entry has been issued under it. */
  lemma SessionIsFixedOnce(s: State, id: string)
    ensures SetSessionId(s, id) == s.(sessionId := if s.nextSequence == 0 then id else s.sessionId)
  {
  }

  /** The fields of a text between its NUL characters. */
  function Fields(s: string): (r: seq<string>)
    ensures r != []
  {
    if s == [] then [[]]
    else
      var rest := Fields(s[1..]);
      if s[0] == NUL then [[]] + rest else [[s[0]] + rest[0]] + rest[1..]
  }

  lemma {:induction false} FieldFirst(field: string, rest: string)
    requires NulFree(field)
    ensures Fields(field + ([NUL] + rest)) == [field] + Fields(rest)
    ensures Fields(field) == [field]
    decreases |field|
  {
    if field == [] {
      assert field + ([NUL] + rest) == [NUL] + rest && ([NUL] + rest)[1..] == rest;
    } else {
      assert (field + ([NUL] + rest))[1..] == field[1..] + ([NUL] + rest);
      FieldFirst(field[1..], rest);
      assert [field[0]] + field[1..] == field;
    }
  }

  /** What an entry shows: its text, and the secondary text too unless it belongs to a call. */
  predicate IsBody(c: Entry, body: string) {
    body == if c.callId.None? && c.secondary != [] then c.primary + [NUL] + c.secondary else c.primary
  }

  predicate IsKindName(k: Kind, name: string) {
    match k
    case Message => name == "message"
    case Reasoning => name == "reasoning"
    case Tool => name == "tool"
    case Plan => name == "plan"
    case Context => name == "context"
    case Marker => name == "marker"
    case Warning => name == "warning"
    case Error => name == "error"
    case Unknown => name == "unknown"
  }

  /** The six fields of an id's basis, where none of them holds a NUL. */
  predicate PlainFields(s: State, c: Entry) {
    && NulFree(s.sessionId) && NulFree(Anchor(c)) && NulFree(s.hash(Body(c)))
    && (c.callId.Some? ==> NulFree(c.callId.value))
  }

  lemma KindNameIs(k: Kind)
    ensures IsKindName(k, KindName(k)) && NulFree(KindName(k))
  {
    match k
    case Message => assert NulFree("message");
    case Reasoning => assert NulFree("reasoning");
    case Tool => assert NulFree("tool");
    case Plan => assert NulFree("plan");
    case Context => assert NulFree("context");
    case Marker => assert NulFree("marker");
    case Warning => assert NulFree("warning");
    case Error => assert NulFree("error");
    case Unknown => assert NulFree("unknown");
  }

  lemma IntTextHasNoNul(n: int)
    ensures NulFree(Decimal.IntText(n))
  {
    Decimal.TextMeansNumber(n);
    var s := Decimal.IntText(n);
    forall i | 0 <= i < |s|
      ensures s[i] != NUL
    {
      assert i > 0 ==> s[1..][i - 1] == s[i];
    }
  }

  lemma OneMoreField(field: string, rest: string, fields: seq<string>, s: string)
    requires NulFree(field) && Fields(rest) == fields && s == field + ([NUL] + rest)
    ensures Fields(s) == [field] + fields
  {
    FieldFirst(field, rest);
  }

  lemma FourFields(c: string, d: string, e: string, f: string, s: string)
    requires NulFree(c) && NulFree(d) && NulFree(e) && NulFree(f)
    requires s == c + [NUL] + d + [NUL] + e + [NUL] + f
    ensures Fields(s) == [c, d, e, f]
  {
    var two := e + ([NUL] + f);
    var three := d + ([NUL] + two);
    assert s == c + ([NUL] + three);
    FieldFirst(f, []);
    OneMoreField(e, f, [f], two);
    OneMoreField(d, two, [e, f], three);
    OneMoreField(c, three, [d, e, f], s);
  }

  lemma SixFields(a: string, b: string, four: string, fields: seq<string>, s: string)
    requires NulFree(a) && NulFree(b) && Fields(four) == fields && s == a + [NUL] + b + [NUL] + four
    ensures Fields(s) == [a, b] + fields
  {
    var five := b + ([NUL] + four);
    assert s == a + ([NUL] + five);
    OneMoreField(b, four, fields, five);
    OneMoreField(a, five, [b] + fields, s);
    assert [a] + ([b] + fields) == [a, b] + fields;
  }

  /**
   The basis of a new entry's id: the session, the raw reference it came from, its kind, its time, its
   call and the hash of what it shows. The id is the hash of the basis and of how often the basis was
   used on this line.
   */
  lemma BasisFields(s: State, c: Entry, line: nat)
    requires PlainFields(s, c)
    ensures var f := Fields(CandidateBasis(s, c));
      && |f| == 6
      && f[0] == s.sessionId
      && f[1] == (if c.rawRefs == [] then "" else c.rawRefs[0])
      && IsKindName(c.kind, f[2])
      && Decimal.IsInteger(f[3]) && Decimal.Reading(f[3]) == (if c.timestamp.Some? then c.timestamp.value else 0)
      && f[4] == (if c.callId.Some? then c.callId.value else "")
      && f[5] == s.hash(Body(c)) && IsBody(c, Body(c))
    ensures var e := Issue(s, c, line);
      && e.idBasis == CandidateBasis(s, c) && e.sequence == s.nextSequence + 1 && e.sessionId == s.sessionId
      && e.id == Some(Sha256(e.idBasis + [NUL] + Decimal.IntText(OccurrenceOf(s, line, e.idBasis))))
  {
    var time := if c.timestamp.Some? then c.timestamp.value else 0;
    KindNameIs(c.kind);
    IntTextHasNoNul(time);
    Decimal.TextMeansNumber(time);
    var call := if c.callId.Some? then c.callId.value else "";
    FourFields(KindName(c.kind), Decimal.IntText(time), call, s.hash(Body(c)), Details(s.hash, c));
    SixFields(s.sessionId, Anchor(c), Details(s.hash, c), [KindName(c.kind), Decimal.IntText(time), call, s.hash(Body(c))],
              CandidateBasis(s, c));
  }
}
