/**
 The entry deduper: records of one session arrive line by line, and each either becomes a new entry
 with the next sequence number and a hashed id, or is merged into an entry seen a little earlier:
 by source item, by tool call, or because its text repeats or continues it.
 */
module Dedup {
  import opened Common
  import Decimal
  import Text

  const LINE_WINDOW: nat := 10
  const TIME_WINDOW_MICROS: nat := 2000000
  const NUL: char := '\0'

  datatype Kind = Message | Reasoning | Tool | Plan | Context | Marker | Warning | Error | Unknown

  datatype ToolStatus = Pending | Running | Succeeded | Failed | Interrupted | UnknownStatus

  datatype Origin = EventPresentation | ItemCompleted | ResponseItem | Derived

  datatype Meta = TextValue(text: string) | NumberValue(number: nat) | OtherValue

  /** What a merge copies as a whole and the deduper never looks into. */
  datatype Display = Display(presentation: nat, toolKind: Option<nat>, parent: Option<string>,
                             searchable: bool, collapsed: bool)

  type Id = Digest<string>

  datatype Entry = Entry(id: Option<Id>, sessionId: string, sequence: nat, idBasis: string,
                         timestamp: Option<int>, kind: Kind, role: Option<nat>, phase: Option<nat>,
                         status: Option<ToolStatus>, title: string, primary: string, secondary: string,
                         metadata: map<string, Meta>, callId: Option<string>, display: Display,
                         rawRefs: seq<string>, origin: Origin)

  datatype Tracked = Tracked(line: nat, entry: Entry)

  /** `hash` renders a body's hash inside an id's basis; nothing is assumed of it. */
  datatype State = State(hash: string -> string, sessionId: string, nextSequence: nat,
                         occurrenceLine: Option<nat>, lineOccurrences: map<string, nat>,
                         recent: seq<Tracked>, activeTools: map<string, Tracked>)

  function New(hash: string -> string, sessionId: string): State {
    State(hash, sessionId, 0, None, map[], [], map[])
  }

  // ---------- Merging two entries ----------

  predicate Terminal(e: Entry) {
    e.status in {Some(Succeeded), Some(Failed), Some(Interrupted)}
  }

  function OriginRank(origin: Origin): nat {
    match origin
    case ItemCompleted => 3
    case EventPresentation => 2
    case ResponseItem => 1
    case Derived => 0
  }

  predicate StreamingPrefix(left: string, right: string) {
    left != [] && right != [] && (right <= left || left <= right)
  }

  predicate OccursAt(text: string, part: string, i: nat) {
    i + |part| <= |text| && text[i..i + |part|] == part
  }

  predicate Holds(text: string, part: string) {
    exists i | 0 <= i <= |text| :: OccursAt(text, part, i)
  }

  /** The candidate's references that are not there yet are appended, in order. */
  function MergeRefs(existing: seq<string>, more: seq<string>): (r: seq<string>)
    ensures existing <= r
    ensures forall ref :: ref in r <==> ref in existing || ref in more
    decreases |more|
  {
    if more == [] then existing
    else MergeRefs(if more[0] in existing then existing else existing + [more[0]], more[1..])
  }

  predicate AttachmentCount(key: string) {
    key in {"attachmentCount", "imageAttachmentCount", "audioAttachmentCount"}
  }

  function Number(metadata: map<string, Meta>, key: string): nat {
    if key in metadata && metadata[key].NumberValue? then metadata[key].number else 0
  }

  function Max(a: nat, b: nat): nat {
    if a < b then b else a
  }

  /** Attachment counts take the larger value, when there is one; anything else is replaced. */
  function MergeMetadata(existing: map<string, Meta>, candidate: map<string, Meta>): map<string, Meta> {
    existing + map key | key in candidate && (AttachmentCount(key) ==> Max(Number(existing, key), Number(candidate, key)) > 0)
      :: if AttachmentCount(key) then NumberValue(Max(Number(existing, key), Number(candidate, key))) else candidate[key]
  }

  function MergeSecondary(existing: string, candidate: string): string {
    if candidate == [] then existing
    else if existing == [] then candidate
    else if Holds(existing, candidate) then existing
    else existing + "\n" + candidate
  }

  /** A better source replaces what an entry shows, but never its id, session, sequence or time. */
  function Prefer(e: Entry, c: Entry): Entry {
    if OriginRank(c.origin) > OriginRank(e.origin) then
      e.(kind := c.kind, title := c.title, primary := c.primary, secondary := c.secondary, role := c.role,
         phase := c.phase, status := c.status, callId := c.callId, display := c.display, origin := c.origin)
    else e
  }

  function Merge(existing: Entry, c: Entry): (r: Entry)
    ensures r.id == existing.id && r.sequence == existing.sequence && r.sessionId == existing.sessionId
    ensures r.rawRefs == MergeRefs(existing.rawRefs, c.rawRefs)
    ensures r.callId == existing.callId || r.callId == c.callId
  {
    var finished := StreamingPrefix(existing.primary, c.primary) && |c.primary| > |existing.primary|;
    var e := Prefer(existing, c);
    e.(rawRefs := MergeRefs(existing.rawRefs, c.rawRefs),
       primary := if finished || e.primary == [] then c.primary else e.primary,
       secondary := MergeSecondary(e.secondary, c.secondary),
       status := if c.status.Some? then c.status else e.status,
       title := if e.title == [] then c.title else e.title,
       metadata := MergeMetadata(e.metadata, c.metadata))
  }

  // ---------- The recent window ----------

  function AbsDiff(a: int, b: int): nat {
    if a < b then b - a else a - b
  }

  function RemoveAt(recent: seq<Tracked>, i: nat): seq<Tracked>
    requires i < |recent|
  {
    recent[..i] + recent[i + 1..]
  }

  function DropId(recent: seq<Tracked>, id: Option<Id>): seq<Tracked> {
    if recent == [] then []
    else if recent[0].entry.id == id then recent[1..]
    else [recent[0]] + DropId(recent[1..], id)
  }

  predicate Outside(oldest: Tracked, line: nat, time: Option<int>) {
    && SaturatingSub(line, oldest.line) > LINE_WINDOW
    && (time.Some? && oldest.entry.timestamp.Some? ==>
          AbsDiff(time.value, oldest.entry.timestamp.value) > TIME_WINDOW_MICROS)
  }

  function Prune(recent: seq<Tracked>, line: nat, time: Option<int>): seq<Tracked> {
    if recent != [] && Outside(recent[0], line, time) then Prune(recent[1..], line, time) else recent
  }

  function TrackRecent(recent: seq<Tracked>, t: Tracked): seq<Tracked> {
    Prune(DropId(recent, t.entry.id) + [t], t.line, t.entry.timestamp)
  }

  // ---------- Finding the entry a candidate belongs to ----------

  function SourceItem(e: Entry): Option<string> {
    if "sourceItemId" in e.metadata && e.metadata["sourceItemId"].TextValue?
    then Some(e.metadata["sourceItemId"].text) else None
  }

  /** The last of the first n with the source item. */
  function LastSource(recent: seq<Tracked>, source: string, n: nat): (r: Option<nat>)
    requires n <= |recent|
    ensures r.Some? ==> r.value < n && SourceItem(recent[r.value].entry) == Some(source)
    ensures forall k :: (if r.Some? then r.value + 1 else 0) <= k < n ==> SourceItem(recent[k].entry) != Some(source)
  {
    if n == 0 then None
    else if SourceItem(recent[n - 1].entry) == Some(source) then Some(n - 1)
    else LastSource(recent, source, n - 1)
  }

  predicate CallNearby(t: Tracked, call: string, line: nat) {
    t.entry.callId == Some(call) && SaturatingSub(line, t.line) <= LINE_WINDOW
  }

  /** The first from i on with the call, within the line window. */
  function FirstCall(recent: seq<Tracked>, call: string, line: nat, i: nat): (r: Option<nat>)
    requires i <= |recent|
    ensures r.Some? ==> i <= r.value < |recent| && CallNearby(recent[r.value], call, line)
    ensures forall k :: i <= k < (if r.Some? then r.value else |recent|) ==> !CallNearby(recent[k], call, line)
    decreases |recent| - i
  {
    if i == |recent| then None
    else if CallNearby(recent[i], call, line) then Some(i)
    else FirstCall(recent, call, line, i + 1)
  }

  predicate SameText(e: Entry, c: Entry) {
    if e.primary == [] && c.primary == [] then e.secondary != [] && e.secondary == c.secondary
    else
      || e.primary == c.primary
      || (c.kind == Plan && Text.Trim(e.primary) == Text.Trim(c.primary))
      || StreamingPrefix(e.primary, c.primary)
  }

  predicate TextDuplicate(t: Tracked, c: Entry, line: nat) {
    var e := t.entry;
    && e.kind == c.kind && e.role == c.role && e.phase == c.phase
    && (SaturatingSub(line, t.line) <= LINE_WINDOW
        || (e.timestamp.Some? && c.timestamp.Some? && AbsDiff(e.timestamp.value, c.timestamp.value) <= TIME_WINDOW_MICROS))
    && SameText(e, c)
  }

  /** The last of the first n whose text the candidate repeats or continues. */
  function LastText(recent: seq<Tracked>, c: Entry, line: nat, n: nat): (r: Option<nat>)
    requires n <= |recent|
    ensures r.Some? ==> r.value < n && TextDuplicate(recent[r.value], c, line)
    ensures forall k :: (if r.Some? then r.value + 1 else 0) <= k < n ==> !TextDuplicate(recent[k], c, line)
  {
    if n == 0 then None
    else if TextDuplicate(recent[n - 1], c, line) then Some(n - 1)
    else LastText(recent, c, line, n - 1)
  }

  datatype Choice = BySource(index: nat) | ByActive(call: string) | ByCall(index: nat, call: string) | ByText(index: nat) | Fresh

  /** A choice that names an entry to merge into. */
  predicate Merges(s: State, choice: Choice, c: Entry) {
    match choice
    case BySource(index) => index < |s.recent|
    case ByActive(call) => call in s.activeTools && c.callId == Some(call)
    case ByCall(index, call) =>
      && index < |s.recent| && call !in s.activeTools && c.callId == Some(call)
      && s.recent[index].entry.callId == Some(call)
    case ByText(index) => index < |s.recent|
    case Fresh => false
  }

  function Choose(s: State, c: Entry, line: nat): (r: Choice)
    ensures !r.Fresh? ==> Merges(s, r, c)
    ensures r.ByText? ==> c.callId.None?
  {
    var source := SourceItem(c);
    var sourced := if source.Some? then LastSource(s.recent, source.value, |s.recent|) else None;
    if sourced.Some? then BySource(sourced.value)
    else if c.callId.Some? then
      var call := c.callId.value;
      if call in s.activeTools then ByActive(call)
      else
        var near := FirstCall(s.recent, call, line, 0);
        if near.Some? then ByCall(near.value, call) else Fresh
    else
      var text := LastText(s.recent, c, line, |s.recent|);
      if text.Some? then ByText(text.value) else Fresh
  }

  // ---------- Ids ----------

  function KindName(k: Kind): string {
    match k
    case Message => "message"
    case Reasoning => "reasoning"
    case Tool => "tool"
    case Plan => "plan"
    case Context => "context"
    case Marker => "marker"
    case Warning => "warning"
    case Error => "error"
    case Unknown => "unknown"
  }

  function Body(c: Entry): string {
    if c.callId.Some? || c.secondary == [] then c.primary else c.primary + [NUL] + c.secondary
  }

  function Anchor(c: Entry): string {
    if c.rawRefs == [] then "" else c.rawRefs[0]
  }

  /** What follows the session and the anchor in an id's basis. */
  function Details(hash: string -> string, c: Entry): string {
    KindName(c.kind) + [NUL] + Decimal.IntText(if c.timestamp.Some? then c.timestamp.value else 0) + [NUL] +
    (if c.callId.Some? then c.callId.value else "") + [NUL] + hash(Body(c))
  }

  function Basis(session: string, anchor: string, details: string): string {
    session + [NUL] + anchor + [NUL] + details
  }

  function MakeId(basis: string, occurrence: nat): Id {
    Sha256(basis + [NUL] + Decimal.Digits(occurrence))
  }

  /** How often each basis has been used on this line. */
  function Occurrences(s: State, line: nat): map<string, nat> {
    if s.occurrenceLine == Some(line) then s.lineOccurrences else map[]
  }

  function OccurrenceOf(s: State, line: nat, basis: string): nat {
    if basis in Occurrences(s, line) then Occurrences(s, line)[basis] else 0
  }

  // ---------- Accepting a candidate ----------

  function CandidateBasis(s: State, c: Entry): string {
    Basis(s.sessionId, Anchor(c), Details(s.hash, c))
  }

  function Issue(s: State, c: Entry, line: nat): Entry {
    var basis := CandidateBasis(s, c);
    c.(sequence := s.nextSequence + 1, sessionId := s.sessionId, idBasis := basis,
       id := Some(MakeId(basis, OccurrenceOf(s, line, basis))))
  }

  /** One more entry, and one more with this basis on this line. */
  function Count(s: State, c: Entry, line: nat): State {
    var basis := CandidateBasis(s, c);
    s.(nextSequence := s.nextSequence + 1, occurrenceLine := Some(line),
       lineOccurrences := Occurrences(s, line)[basis := OccurrenceOf(s, line, basis) + 1])
  }

  function Activate(active: map<string, Tracked>, t: Tracked): map<string, Tracked> {
    if t.entry.callId.Some? && !Terminal(t.entry) then active[t.entry.callId.value := t] else active
  }

  /** A new entry enters the window, and the active calls if it is an unfinished one. */
  function Remember(s: State, t: Tracked): State {
    s.(recent := TrackRecent(s.recent, t), activeTools := Activate(s.activeTools, t))
  }

  function AcceptFresh(s: State, c: Entry, line: nat): (State, Entry) {
    var e := Issue(s, c, line);
    (Remember(Count(s, c, line), Tracked(line, e)), e)
  }

  /** The tracked entry a choice merges into. */
  function Chosen(s: State, choice: Choice): Tracked
    requires !choice.Fresh?
    requires choice.BySource? || choice.ByCall? || choice.ByText? ==> choice.index < |s.recent|
    requires choice.ByActive? ==> choice.call in s.activeTools
  {
    if choice.ByActive? then s.activeTools[choice.call] else s.recent[choice.index]
  }

  /** The active calls after an entry has become `t`. */
  function NextActive(active: map<string, Tracked>, choice: Choice, before: Entry, t: Tracked): map<string, Tracked>
    requires !choice.Fresh?
  {
    match choice
    case BySource(_) => Activate(if before.callId.Some? then active - {before.callId.value} else active, t)
    case ByActive(call) => if Terminal(t.entry) then active - {call} else active[call := t]
    case ByCall(_, call) => if Terminal(t.entry) then active else active[call := t]
    case ByText(_) => active
  }

  function AcceptMerge(s: State, choice: Choice, c: Entry, line: nat): (State, Entry)
    requires Merges(s, choice, c)
  {
    var before := Chosen(s, choice).entry;
    var t := Tracked(line, Merge(before, c));
    var others := if choice.ByActive? then s.recent else RemoveAt(s.recent, choice.index);
    (s.(recent := TrackRecent(others, t), activeTools := NextActive(s.activeTools, choice, before, t)), t.entry)
  }

  function Accept(s: State, c: Entry, line: nat): (State, Entry) {
    var choice := Choose(s, c, line);
    if choice.Fresh? then AcceptFresh(s, c, line) else AcceptMerge(s, choice, c, line)
  }

  /** `accept` normalises both texts of a record before anything else. */
  function Normalized(raw: Entry): Entry {
    raw.(primary := Text.NormalizeText(raw.primary), secondary := Text.NormalizeText(raw.secondary))
  }

  function SetSessionId(s: State, id: string): State {
    if s.nextSequence == 0 then s.(sessionId := id) else s
  }

  /** Resuming: the recent entries are tracked again, and the unfinished calls become active again. */
  function FromSeed(s: State, recent: seq<Tracked>): State
    decreases |recent|
  {
    if recent == [] then s
    else
      FromSeed(Remember(s, recent[0]), recent[1..])
  }

  /** `from_seed`: numbering goes on, and the counters of a line's ids start afresh. */
  function Resumed(s: State, recent: seq<Tracked>): State {
    FromSeed(State(s.hash, s.sessionId, s.nextSequence, None, map[], [], map[]), recent)
  }

  // ---------- The window and the table of active calls ----------

  ghost predicate DistinctIds(recent: seq<Tracked>) {
    forall i, j :: 0 <= i < j < |recent| ==> recent[i].entry.id != recent[j].entry.id
  }

  /** Every active call is filed under its own call id and is not finished. */
  ghost predicate Keyed(active: map<string, Tracked>) {
    forall call :: call in active ==> active[call].entry.callId == Some(call) && !Terminal(active[call].entry)
  }

  ghost predicate Tidy(s: State) {
    DistinctIds(s.recent) && Keyed(s.activeTools)
  }

  lemma {:induction false} DropIdIsExact(recent: seq<Tracked>, id: Option<Id>)
    requires DistinctIds(recent)
    ensures DistinctIds(DropId(recent, id))
    ensures forall t :: t in DropId(recent, id) <==> t in recent && t.entry.id != id
  {
    if recent != [] {
      assert recent == [recent[0]] + recent[1..];
      DropIdIsExact(recent[1..], id);
    }
  }

  lemma RemoveAtIsExact(recent: seq<Tracked>, i: nat)
    requires DistinctIds(recent) && i < |recent|
    ensures DistinctIds(RemoveAt(recent, i))
    ensures forall t :: t in RemoveAt(recent, i) ==> t in recent && t.entry.id != recent[i].entry.id
  {
  }

  lemma AppendKeepsDistinct(recent: seq<Tracked>, t: Tracked)
    requires DistinctIds(recent) && forall u :: u in recent ==> u.entry.id != t.entry.id
    ensures DistinctIds(recent + [t])
  {
  }

  lemma {:induction false} PruneKeepsDistinct(recent: seq<Tracked>, line: nat, time: Option<int>)
    requires DistinctIds(recent)
    ensures DistinctIds(Prune(recent, line, time))
  {
    if recent != [] && Outside(recent[0], line, time) {
      PruneKeepsDistinct(recent[1..], line, time);
    }
  }

  lemma {:induction false} PrunedWere(recent: seq<Tracked>, line: nat, time: Option<int>)
    ensures forall u :: u in Prune(recent, line, time) ==> u in recent
  {
    if recent != [] && Outside(recent[0], line, time) {
      PrunedWere(recent[1..], line, time);
    }
  }

  lemma TrackKeepsDistinct(recent: seq<Tracked>, t: Tracked)
    requires DistinctIds(recent)
    ensures DistinctIds(TrackRecent(recent, t))
    ensures forall u :: u in TrackRecent(recent, t) ==> u == t || (u in recent && u.entry.id != t.entry.id)
  {
    DropIdIsExact(recent, t.entry.id);
    AppendKeepsDistinct(DropId(recent, t.entry.id), t);
    PruneKeepsDistinct(DropId(recent, t.entry.id) + [t], t.line, t.entry.timestamp);
    PrunedWere(DropId(recent, t.entry.id) + [t], t.line, t.entry.timestamp);
  }

  lemma MergeKeepsWindow(s: State, choice: Choice, c: Entry, line: nat)
    requires Merges(s, choice, c) && DistinctIds(s.recent)
    ensures var t := Tracked(line, Merge(Chosen(s, choice).entry, c));
      var recent := AcceptMerge(s, choice, c, line).0.recent;
      DistinctIds(recent) && forall u :: u in recent ==> u == t || (u in s.recent && u.entry.id != t.entry.id)
  {
    var t := Tracked(line, Merge(Chosen(s, choice).entry, c));
    if choice.ByActive? {
      TrackKeepsDistinct(s.recent, t);
    } else {
      RemoveAtIsExact(s.recent, choice.index);
      TrackKeepsDistinct(RemoveAt(s.recent, choice.index), t);
    }
  }

  lemma MergeKeepsKeyed(s: State, choice: Choice, c: Entry, line: nat)
    requires Merges(s, choice, c) && Keyed(s.activeTools)
    ensures Keyed(AcceptMerge(s, choice, c, line).0.activeTools)
  {
    var t := Tracked(line, Merge(Chosen(s, choice).entry, c));
    ActivateKeepsKeyed(s.activeTools, t);
    if choice.BySource? && Chosen(s, choice).entry.callId.Some? {
      ActivateKeepsKeyed(s.activeTools - {Chosen(s, choice).entry.callId.value}, t);
    }
  }

  lemma ActivateKeepsKeyed(active: map<string, Tracked>, t: Tracked)
    requires Keyed(active)
    ensures Keyed(Activate(active, t))
  {
  }

  /** Nothing is tracked twice in the window, and active calls are filed under their own ids. */
  lemma AcceptKeepsTidy(s: State, c: Entry, line: nat)
    requires Tidy(s)
    ensures Tidy(Accept(s, c, line).0)
  {
    var choice := Choose(s, c, line);
    if choice.Fresh? {
      TrackKeepsDistinct(s.recent, Tracked(line, Issue(s, c, line)));
    } else {
      MergeKeepsWindow(s, choice, c, line);
      MergeKeepsKeyed(s, choice, c, line);
    }
  }

  lemma {:induction false} SeedIsTidy(s: State, recent: seq<Tracked>)
    requires Tidy(s)
    ensures Tidy(FromSeed(s, recent))
    decreases |recent|
  {
    if recent != [] {
      TrackKeepsDistinct(s.recent, recent[0]);
      SeedIsTidy(Remember(s, recent[0]), recent[1..]);
    }
  }

  // ---------- Normal texts ----------

  predicate NormalEntry(e: Entry) {
    Text.Normal(e.primary) && Text.Normal(e.secondary)
  }

  ghost predicate AllNormal(s: State) {
    && (forall t :: t in s.recent ==> NormalEntry(t.entry))
    && (forall call :: call in s.activeTools ==> NormalEntry(s.activeTools[call].entry))
  }

  lemma MergeKeepsNormal(e: Entry, c: Entry)
    requires NormalEntry(e) && NormalEntry(c)
    ensures NormalEntry(Merge(e, c))
  {
    var kept := Prefer(e, c).secondary;
    if kept != [] && c.secondary != [] {
      Text.JoinIsNormal(kept, c.secondary);
    }
  }

  lemma {:induction false} TrackedWere(recent: seq<Tracked>, t: Tracked)
    ensures forall u :: u in TrackRecent(recent, t) ==> u == t || u in recent
  {
    DroppedWere(recent, t.entry.id);
    PrunedWere(DropId(recent, t.entry.id) + [t], t.line, t.entry.timestamp);
  }

  lemma {:induction false} DroppedWere(recent: seq<Tracked>, id: Option<Id>)
    ensures forall u :: u in DropId(recent, id) ==> u in recent
  {
    if recent != [] {
      DroppedWere(recent[1..], id);
    }
  }

  /** Whatever is tracked afterwards is the new copy or was tracked before. */
  ghost predicate OnlyAdds(s: State, s': State, t: Tracked) {
    && (forall u :: u in s'.recent ==> u == t || u in s.recent)
    && (forall call :: call in s'.activeTools ==>
          s'.activeTools[call] == t || (call in s.activeTools && s'.activeTools[call] == s.activeTools[call]))
  }

  lemma AddingKeepsNormal(s: State, s': State, t: Tracked)
    requires AllNormal(s) && NormalEntry(t.entry) && OnlyAdds(s, s', t)
    ensures AllNormal(s')
  {
  }

  lemma NextActiveAdds(active: map<string, Tracked>, choice: Choice, before: Entry, t: Tracked)
    requires !choice.Fresh?
    ensures var active' := NextActive(active, choice, before, t);
      forall call :: call in active' ==> active'[call] == t || (call in active && active'[call] == active[call])
  {
  }

  lemma MergeAdds(s: State, choice: Choice, c: Entry, line: nat)
    requires Merges(s, choice, c)
    ensures var (s', e) := AcceptMerge(s, choice, c, line); OnlyAdds(s, s', Tracked(line, e))
  {
    var before := Chosen(s, choice).entry;
    var t := Tracked(line, Merge(before, c));
    TrackedWere(if choice.ByActive? then s.recent else RemoveAt(s.recent, choice.index), t);
    NextActiveAdds(s.activeTools, choice, before, t);
  }

  lemma RememberKeepsNormal(s: State, t: Tracked)
    requires AllNormal(s) && NormalEntry(t.entry)
    ensures AllNormal(Remember(s, t))
  {
    TrackedWere(s.recent, t);
    AddingKeepsNormal(s, Remember(s, t), t);
  }

  lemma ChosenIsNormal(s: State, choice: Choice, c: Entry)
    requires AllNormal(s) && Merges(s, choice, c)
    ensures NormalEntry(Chosen(s, choice).entry)
  {
  }

  lemma AcceptKeepsNormal(s: State, c: Entry, line: nat)
    requires AllNormal(s) && NormalEntry(c)
    ensures var (s', e) := Accept(s, c, line); AllNormal(s') && NormalEntry(e)
  {
    var choice := Choose(s, c, line);
    if choice.Fresh? {
      RememberKeepsNormal(Count(s, c, line), Tracked(line, Issue(s, c, line)));
    } else {
      var (s', e) := AcceptMerge(s, choice, c, line);
      MergeAdds(s, choice, c, line);
      ChosenIsNormal(s, choice, c);
      MergeKeepsNormal(Chosen(s, choice).entry, c);
      AddingKeepsNormal(s, s', Tracked(line, e));
    }
  }

  /** Whatever a record's texts look like, the entry it yields and everything tracked stays normal. */
  lemma TextsStayNormal(s: State, raw: Entry, line: nat)
    requires AllNormal(s)
    ensures var (s', e) := Accept(s, Normalized(raw), line); AllNormal(s') && NormalEntry(e)
  {
    Text.NormalizeIsNormal(raw.primary);
    Text.NormalizeIsNormal(raw.secondary);
    AcceptKeepsNormal(s, Normalized(raw), line);
  }

  // ---------- Runs ----------

  /** An id handed out: where, from what, and with which sequence number. */
  datatype Issued = Issued(line: nat, anchor: string, details: string, occurrence: nat, sequence: nat)

  function IdOf(session: string, i: Issued): Id {
    MakeId(Basis(session, i.anchor, i.details), i.occurrence)
  }

  /**
   The deduper, the last line seen, where each id came from, the raw references given to each, and the
   entries returned, each of which is stored.
   */
  datatype World = World(s: State, line: nat, issued: seq<Issued>, given: map<Id, set<string>>, returned: seq<Entry>)

  function Opening(hash: string -> string, session: string): World {
    World(New(hash, session), 0, [], map[], [])
  }

  /** A scan ends and a later one resumes behind its last line, from entries it reads back. */
  datatype Action = SetSession(id: string) | Candidate(c: Entry, line: nat) | Resume(recent: seq<Tracked>)

  function Refs(e: Entry): set<string> {
    set ref | ref in e.rawRefs
  }

  function Given(w: World, id: Id): set<string> {
    if id in w.given then w.given[id] else {}
  }

  function Step(w: World, a: Action): World {
    match a
    case SetSession(id) => w.(s := SetSessionId(w.s, id))
    case Candidate(c, line) =>
      var (s', e) := Accept(w.s, c, line);
      var isNew := Choose(w.s, c, line).Fresh?;
      var occurrence := OccurrenceOf(w.s, line, CandidateBasis(w.s, c));
      World(s', line,
            if isNew then w.issued + [Issued(line, Anchor(c), Details(w.s.hash, c), occurrence, e.sequence)] else w.issued,
            if e.id.Some? then w.given[e.id.value := Given(w, e.id.value) + Refs(c)] else w.given,
            w.returned + [e])
    case Resume(recent) => w.(s := Resumed(w.s, recent), line := w.line + 1)
  }

  function Run(w: World, actions: seq<Action>): World
    decreases |actions|
  {
    if actions == [] then w else Run(Step(w, actions[0]), actions[1..])
  }

  predicate NulFree(s: string) {
    NUL !in s
  }

  /** A candidate's first raw reference names the line it came from. */
  ghost predicate Anchored(c: Entry, line: nat, lineOf: string -> nat) {
    c.rawRefs != [] && NulFree(c.rawRefs[0]) && lineOf(c.rawRefs[0]) == line
  }

  /** Lines come in order, and each candidate is anchored in its own. */
  ghost predicate InOrder(line: nat, actions: seq<Action>, lineOf: string -> nat)
    decreases |actions|
  {
    actions == [] ||
    match actions[0]
    case SetSession(_) => InOrder(line, actions[1..], lineOf)
    case Candidate(c, next) => line <= next && Anchored(c, next, lineOf) && InOrder(next, actions[1..], lineOf)
    case Resume(_) => InOrder(line + 1, actions[1..], lineOf)
  }

  /** What the index holds under an id: the entry last returned. */
  function LastReturned(returned: seq<Entry>, id: Option<Id>): Option<Entry> {
    if returned == [] then None
    else if returned[|returned| - 1].id == id then Some(returned[|returned| - 1])
    else LastReturned(returned[..|returned| - 1], id)
  }

  /**
   An entry as it is read back: as it was stored last, but its origin is lost, and it may have kept
   references from earlier versions.
   */
  ghost predicate ReadBack(returned: seq<Entry>, e: Entry) {
    var stored := LastReturned(returned, e.id);
    stored.Some? && e == stored.value.(origin := EventPresentation, rawRefs := e.rawRefs) && Refs(stored.value) <= Refs(e)
  }

  /** Whichever rows a resumed scan reads back, each is a stored entry, and none is read twice. */
  ghost predicate Reloads(returned: seq<Entry>, recent: seq<Tracked>) {
    DistinctIds(recent) && forall i :: 0 <= i < |recent| ==> ReadBack(returned, recent[i].entry)
  }

  ghost predicate ReloadsStored(w: World, actions: seq<Action>)
    decreases |actions|
  {
    actions == [] ||
    ((actions[0].Resume? ==> Reloads(w.returned, actions[0].recent)) && ReloadsStored(Step(w, actions[0]), actions[1..]))
  }

  // ---------- Ids are unique ----------

  lemma FirstNulSplits(a: string, x: string, b: string, y: string)
    requires NulFree(a) && NulFree(b) && a + [NUL] + x == b + [NUL] + y
    ensures a == b && x == y
  {
    var s := a + [NUL] + x;
    assert s[|a|] == NUL && s[|b|] == NUL;
    assert forall i :: 0 <= i < |a| ==> s[i] == a[i];
    assert forall i :: 0 <= i < |b| ==> (b + [NUL] + y)[i] == b[i];
    assert |a| == |b|;
    assert a == s[..|a|] == b;
    assert x == s[|a| + 1..] == y;
  }

  lemma LastNulSplits(a: string, x: string, b: string, y: string)
    requires NulFree(x) && NulFree(y) && a + [NUL] + x == b + [NUL] + y
    ensures a == b && x == y
  {
    var s := a + [NUL] + x;
    assert s[|a|] == NUL && (b + [NUL] + y)[|b|] == NUL;
    assert forall i :: |a| < i < |s| ==> s[i] == x[i - |a| - 1];
    assert forall i :: |b| < i < |s| ==> (b + [NUL] + y)[i] == y[i - |b| - 1];
    assert |a| == |b|;
    assert a == s[..|a|] == b;
    assert x == s[|a| + 1..] == y;
  }

  /** Equal ids come from the same anchor, details and occurrence. */
  lemma IdsDecide(session: string, i: Issued, j: Issued)
    requires NulFree(i.anchor) && NulFree(j.anchor) && IdOf(session, i) == IdOf(session, j)
    ensures i.anchor == j.anchor && i.details == j.details && i.occurrence == j.occurrence
  {
    var bi, bj := Basis(session, i.anchor, i.details), Basis(session, j.anchor, j.details);
    LastNulSplits(bi, Decimal.Digits(i.occurrence), bj, Decimal.Digits(j.occurrence));
    Decimal.DigitsInjective(i.occurrence, j.occurrence);
    assert bi == session + [NUL] + (i.anchor + [NUL] + i.details);
    assert bj == session + [NUL] + (j.anchor + [NUL] + j.details);
    assert bi[|session| + 1..] == i.anchor + [NUL] + i.details;
    assert bj[|session| + 1..] == j.anchor + [NUL] + j.details;
    FirstNulSplits(i.anchor, i.details, j.anchor, j.details);
  }

  ghost predicate Numbered(issued: seq<Issued>) {
    forall i :: 0 <= i < |issued| ==> issued[i].sequence == i + 1
  }

  ghost predicate AnchoredIds(issued: seq<Issued>, lineOf: string -> nat) {
    forall i :: 0 <= i < |issued| ==> NulFree(issued[i].anchor) && lineOf(issued[i].anchor) == issued[i].line
  }

  ghost predicate UniqueIds(session: string, issued: seq<Issued>) {
    forall i, j :: 0 <= i < j < |issued| ==> IdOf(session, issued[i]) != IdOf(session, issued[j])
  }

  /** An id issued for the current line used an occurrence that its basis has counted there. */
  ghost predicate CountedOne(s: State, line: nat, i: Issued) {
    && i.line <= line
    && (i.line == line ==> i.occurrence < OccurrenceOf(s, line, Basis(s.sessionId, i.anchor, i.details)))
  }

  ghost predicate Counted(w: World) {
    forall k :: 0 <= k < |w.issued| ==> CountedOne(w.s, w.line, w.issued[k])
  }

  ghost predicate IdInv(w: World, lineOf: string -> nat) {
    && w.s.nextSequence == |w.issued|
    && Numbered(w.issued) && AnchoredIds(w.issued, lineOf) && UniqueIds(w.s.sessionId, w.issued)
    && Counted(w)
  }

  function NextIssued(s: State, c: Entry, line: nat): Issued {
    Issued(line, Anchor(c), Details(s.hash, c), OccurrenceOf(s, line, CandidateBasis(s, c)), s.nextSequence + 1)
  }

  lemma NewIdIsNew(w: World, c: Entry, line: nat, lineOf: string -> nat, i: nat)
    requires IdInv(w, lineOf) && w.line <= line && Anchored(c, line, lineOf) && i < |w.issued|
    ensures IdOf(w.s.sessionId, w.issued[i]) != IdOf(w.s.sessionId, NextIssued(w.s, c, line))
  {
    if IdOf(w.s.sessionId, w.issued[i]) == IdOf(w.s.sessionId, NextIssued(w.s, c, line)) {
      IdsDecide(w.s.sessionId, w.issued[i], NextIssued(w.s, c, line));
    }
  }

  lemma NewIdIsUnique(w: World, c: Entry, line: nat, lineOf: string -> nat)
    requires IdInv(w, lineOf) && w.line <= line && Anchored(c, line, lineOf)
    ensures UniqueIds(w.s.sessionId, w.issued + [NextIssued(w.s, c, line)])
  {
    forall i | 0 <= i < |w.issued|
      ensures IdOf(w.s.sessionId, w.issued[i]) != IdOf(w.s.sessionId, NextIssued(w.s, c, line))
    {
      NewIdIsNew(w, c, line, lineOf, i);
    }
  }

  lemma CounterAdvances(s: State, c: Entry, line: nat, basis: string)
    ensures var s' := AcceptFresh(s, c, line).0;
      OccurrenceOf(s', line, basis) == OccurrenceOf(s, line, basis) + if basis == CandidateBasis(s, c) then 1 else 0
  {
  }

  lemma FreshKeepsCounted(s: State, before: nat, c: Entry, line: nat, i: Issued)
    requires before <= line && (CountedOne(s, before, i) || i == NextIssued(s, c, line))
    ensures CountedOne(AcceptFresh(s, c, line).0, line, i)
  {
    CounterAdvances(s, c, line, Basis(s.sessionId, i.anchor, i.details));
  }

  lemma FreshKeepsAllCounted(w: World, c: Entry, line: nat, issued: seq<Issued>)
    requires Counted(w) && w.line <= line && issued == w.issued + [NextIssued(w.s, c, line)]
    ensures Counted(w.(s := AcceptFresh(w.s, c, line).0, line := line, issued := issued))
  {
    forall k | 0 <= k < |issued| ensures CountedOne(AcceptFresh(w.s, c, line).0, line, issued[k]) {
      FreshKeepsCounted(w.s, w.line, c, line, issued[k]);
    }
  }

  lemma AppendKeepsNumbered(issued: seq<Issued>, i: Issued, lineOf: string -> nat)
    requires Numbered(issued) && AnchoredIds(issued, lineOf)
    requires i.sequence == |issued| + 1 && NulFree(i.anchor) && lineOf(i.anchor) == i.line
    ensures Numbered(issued + [i]) && AnchoredIds(issued + [i], lineOf)
  {
  }

  lemma FreshStepKeepsIds(w: World, c: Entry, line: nat, lineOf: string -> nat)
    requires IdInv(w, lineOf) && w.line <= line && Anchored(c, line, lineOf)
    ensures IdInv(w.(s := AcceptFresh(w.s, c, line).0, line := line, issued := w.issued + [NextIssued(w.s, c, line)]), lineOf)
  {
    NewIdIsUnique(w, c, line, lineOf);
    AppendKeepsNumbered(w.issued, NextIssued(w.s, c, line), lineOf);
    FreshKeepsAllCounted(w, c, line, w.issued + [NextIssued(w.s, c, line)]);
  }

  /** A merge touches neither the counters nor the numbering. */
  predicate SameNumbering(s: State, s': State) {
    s'.sessionId == s.sessionId && s'.nextSequence == s.nextSequence &&
    s'.occurrenceLine == s.occurrenceLine && s'.lineOccurrences == s.lineOccurrences
  }

  lemma MergeStepKeepsIds(w: World, w': World, lineOf: string -> nat)
    requires IdInv(w, lineOf) && w.line <= w'.line && SameNumbering(w.s, w'.s) && w'.issued == w.issued
    ensures IdInv(w', lineOf)
  {
    forall k | 0 <= k < |w.issued| ensures CountedOne(w'.s, w'.line, w.issued[k]) {
      assert CountedOne(w.s, w.line, w.issued[k]);
    }
  }

  lemma {:induction false} SeedKeepsNumbering(s: State, recent: seq<Tracked>)
    ensures SameNumbering(s, FromSeed(s, recent))
    decreases |recent|
  {
    if recent != [] {
      SeedKeepsNumbering(Remember(s, recent[0]), recent[1..]);
    }
  }

  lemma ResumeKeepsIds(w: World, recent: seq<Tracked>, lineOf: string -> nat)
    requires IdInv(w, lineOf)
    ensures IdInv(Step(w, Resume(recent)), lineOf)
    ensures Resumed(w.s, recent).sessionId == w.s.sessionId
  {
    SeedKeepsNumbering(State(w.s.hash, w.s.sessionId, w.s.nextSequence, None, map[], [], map[]), recent);
  }

  lemma StepKeepsIds(w: World, c: Entry, line: nat, lineOf: string -> nat)
    requires IdInv(w, lineOf) && w.line <= line && Anchored(c, line, lineOf)
    ensures IdInv(Step(w, Candidate(c, line)), lineOf)
  {
    var choice := Choose(w.s, c, line);
    if choice.Fresh? {
      FreshStepKeepsIds(w, c, line, lineOf);
    } else {
      MergeStepKeepsIds(w, Step(w, Candidate(c, line)), lineOf);
    }
  }

  // ---------- What is returned carries these ids ----------

  /** An entry's id and sequence number are those issued together. */
  ghost predicate Known(session: string, issued: seq<Issued>, e: Entry) {
    && 1 <= e.sequence <= |issued|
    && e.id == Some(IdOf(session, issued[e.sequence - 1]))
  }

  ghost predicate AllKnown(s: State, issued: seq<Issued>) {
    && (forall t :: t in s.recent ==> Known(s.sessionId, issued, t.entry))
    && (forall call :: call in s.activeTools ==> Known(s.sessionId, issued, s.activeTools[call].entry))
  }

  ghost predicate HasSequence(returned: seq<Entry>, sequence: nat) {
    exists i :: 0 <= i < |returned| && returned[i].sequence == sequence
  }

  ghost predicate AllReturned(returned: seq<Entry>, n: nat) {
    forall sequence :: 1 <= sequence <= n ==> HasSequence(returned, sequence)
  }

  ghost predicate ReturnedKnown(session: string, issued: seq<Issued>, returned: seq<Entry>) {
    forall i :: 0 <= i < |returned| ==> Known(session, issued, returned[i])
  }

  ghost predicate Traced(w: World) {
    && AllKnown(w.s, w.issued)
    && ReturnedKnown(w.s.sessionId, w.issued, w.returned)
    && AllReturned(w.returned, |w.issued|)
  }

  lemma AddingKeepsKnown(s: State, s': State, t: Tracked, issued: seq<Issued>)
    requires AllKnown(s, issued) && OnlyAdds(s, s', t) && Known(s.sessionId, issued, t.entry) && s'.sessionId == s.sessionId
    ensures AllKnown(s', issued)
  {
  }

  lemma GrowingKeepsKnown(s: State, issued: seq<Issued>, i: Issued)
    requires AllKnown(s, issued)
    ensures AllKnown(s, issued + [i])
  {
  }

  lemma MoreReturned(returned: seq<Entry>, n: nat, e: Entry)
    requires AllReturned(returned, n)
    ensures AllReturned(returned + [e], if e.sequence == n + 1 then n + 1 else n)
  {
    var more := returned + [e];
    assert more[|returned|] == e;
    forall sequence | 1 <= sequence <= n
      ensures HasSequence(more, sequence)
    {
      assert HasSequence(returned, sequence);
      var i :| 0 <= i < |returned| && returned[i].sequence == sequence;
      assert more[i].sequence == sequence;
    }
    if e.sequence == n + 1 {
      assert HasSequence(more, n + 1);
    }
  }

  lemma FreshStepIsTraced(w: World, c: Entry, line: nat, i: Issued, issued: seq<Issued>)
    requires Traced(w) && w.s.nextSequence == |w.issued| && Choose(w.s, c, line).Fresh?
    requires i == NextIssued(w.s, c, line) && issued == w.issued + [i]
    ensures Traced(Step(w, Candidate(c, line)))
  {
    var e := Issue(w.s, c, line);
    var t := Tracked(line, e);
    assert issued[|w.issued|] == i;
    assert Known(w.s.sessionId, issued, e);
    GrowingKeepsKnown(w.s, w.issued, i);
    TrackedWere(w.s.recent, t);
    AddingKeepsKnown(w.s, Remember(Count(w.s, c, line), t), t, issued);
    MoreReturned(w.returned, |w.issued|, e);
  }

  lemma ChosenIsKnown(s: State, choice: Choice, c: Entry, line: nat, issued: seq<Issued>)
    requires AllKnown(s, issued) && Merges(s, choice, c)
    ensures Known(s.sessionId, issued, AcceptMerge(s, choice, c, line).1)
  {
    assert Known(s.sessionId, issued, Chosen(s, choice).entry);
  }

  lemma MergeStepIsTraced(w: World, c: Entry, line: nat)
    requires Traced(w) && !Choose(w.s, c, line).Fresh?
    ensures Traced(Step(w, Candidate(c, line)))
  {
    var choice := Choose(w.s, c, line);
    var (s', e) := AcceptMerge(w.s, choice, c, line);
    MergeAdds(w.s, choice, c, line);
    ChosenIsKnown(w.s, choice, c, line, w.issued);
    AddingKeepsKnown(w.s, s', Tracked(line, e), w.issued);
    MoreReturned(w.returned, |w.issued|, e);
  }

  lemma {:induction false} LastReturnedWas(returned: seq<Entry>, id: Option<Id>)
    ensures LastReturned(returned, id).Some? ==>
              LastReturned(returned, id).value in returned && LastReturned(returned, id).value.id == id
  {
    if returned != [] {
      LastReturnedWas(returned[..|returned| - 1], id);
    }
  }

  lemma ReadBackIsKnown(session: string, issued: seq<Issued>, returned: seq<Entry>, e: Entry)
    requires ReturnedKnown(session, issued, returned) && ReadBack(returned, e)
    ensures Known(session, issued, e)
  {
    LastReturnedWas(returned, e.id);
    var stored := LastReturned(returned, e.id).value;
    var i :| 0 <= i < |returned| && returned[i] == stored;
    assert Known(session, issued, returned[i]);
  }

  lemma {:induction false} SeedIsKnown(s: State, recent: seq<Tracked>, issued: seq<Issued>)
    requires AllKnown(s, issued) && forall i :: 0 <= i < |recent| ==> Known(s.sessionId, issued, recent[i].entry)
    ensures AllKnown(FromSeed(s, recent), issued)
    decreases |recent|
  {
    if recent != [] {
      TrackedWere(s.recent, recent[0]);
      AddingKeepsKnown(s, Remember(s, recent[0]), recent[0], issued);
      SeedIsKnown(Remember(s, recent[0]), recent[1..], issued);
    }
  }

  lemma ResumeIsTraced(w: World, recent: seq<Tracked>)
    requires Traced(w) && Reloads(w.returned, recent)
    ensures Traced(Step(w, Resume(recent)))
  {
    var start := State(w.s.hash, w.s.sessionId, w.s.nextSequence, None, map[], [], map[]);
    forall i | 0 <= i < |recent|
      ensures Known(w.s.sessionId, w.issued, recent[i].entry)
    {
      ReadBackIsKnown(w.s.sessionId, w.issued, w.returned, recent[i].entry);
    }
    SeedIsKnown(start, recent, w.issued);
    SeedKeepsNumbering(start, recent);
  }

  lemma SetSessionKeepsIds(w: World, id: string, lineOf: string -> nat)
    requires IdInv(w, lineOf)
    ensures IdInv(Step(w, SetSession(id)), lineOf)
    ensures Traced(w) ==> Traced(Step(w, SetSession(id)))
  {
    assert w.s.nextSequence == 0 ==> w.issued == [];
  }

  lemma StepIsTraced(w: World, a: Action, lineOf: string -> nat)
    requires IdInv(w, lineOf) && Traced(w) && InOrder(w.line, [a], lineOf)
    requires a.Resume? ==> Reloads(w.returned, a.recent)
    ensures var w' := Step(w, a); IdInv(w', lineOf) && Traced(w')
  {
    match a
    case SetSession(id) => SetSessionKeepsIds(w, id, lineOf);
    case Resume(recent) =>
      ResumeKeepsIds(w, recent, lineOf);
      ResumeIsTraced(w, recent);
    case Candidate(c, line) =>
      StepKeepsIds(w, c, line, lineOf);
      if Choose(w.s, c, line).Fresh? {
        FreshStepIsTraced(w, c, line, NextIssued(w.s, c, line), w.issued + [NextIssued(w.s, c, line)]);
      } else {
        MergeStepIsTraced(w, c, line);
      }
  }

  lemma {:induction false} RunKeepsIds(w: World, actions: seq<Action>, lineOf: string -> nat)
    requires IdInv(w, lineOf) && Traced(w) && InOrder(w.line, actions, lineOf) && ReloadsStored(w, actions)
    ensures IdInv(Run(w, actions), lineOf) && Traced(Run(w, actions))
    decreases |actions|
  {
    if actions != [] {
      StepIsTraced(w, actions[0], lineOf);
      RunKeepsIds(Step(w, actions[0]), actions[1..], lineOf);
    }
  }

  /** Everything returned has an id, two of them have the same exactly when they are versions of one entry. */
  ghost predicate Identified(returned: seq<Entry>, n: nat) {
    && (forall i :: 0 <= i < |returned| ==> returned[i].id.Some? && 1 <= returned[i].sequence <= n)
    && (forall i, j :: 0 <= i < |returned| && 0 <= j < |returned| ==>
          (returned[i].id == returned[j].id <==> returned[i].sequence == returned[j].sequence))
  }

  lemma KnownAreIdentified(session: string, issued: seq<Issued>, returned: seq<Entry>)
    requires UniqueIds(session, issued) && ReturnedKnown(session, issued, returned)
    ensures Identified(returned, |issued|)
  {
  }

  /**
   Over a whole session, resumed as often as one likes: entries are numbered from 1 without a gap, and
   no two entries share an id.
   */
  lemma EntriesAreIdentified(hash: string -> string, session: string, actions: seq<Action>, lineOf: string -> nat)
    requires InOrder(0, actions, lineOf) && ReloadsStored(Opening(hash, session), actions)
    ensures var w := Run(Opening(hash, session), actions);
      Identified(w.returned, w.s.nextSequence) && AllReturned(w.returned, w.s.nextSequence)
  {
    RunKeepsIds(Opening(hash, session), actions, lineOf);
    var w := Run(Opening(hash, session), actions);
    KnownAreIdentified(w.s.sessionId, w.issued, w.returned);
  }

  // ---------- Raw references ----------

  /** A tracked copy holds every raw reference given to its entry. */
  ghost predicate Held(given: map<Id, set<string>>, t: Tracked) {
    t.entry.id.Some? && t.entry.id.value in given && given[t.entry.id.value] <= Refs(t.entry)
  }

  /** The copies of an entry in the window and among the active calls are the same, and no entry is active twice. */
  ghost predicate InStep(s: State) {
    && (forall call, t :: call in s.activeTools && t in s.recent && t.entry.id == s.activeTools[call].entry.id ==>
          t == s.activeTools[call])
    && (forall a, b :: a in s.activeTools && b in s.activeTools && a != b ==>
          s.activeTools[a].entry.id != s.activeTools[b].entry.id)
  }

  ghost predicate Filed(s: State, given: map<Id, set<string>>) {
    && Tidy(s) && InStep(s)
    && (forall t :: t in s.recent ==> Held(given, t))
    && (forall call :: call in s.activeTools ==> Held(given, s.activeTools[call]))
  }

  /** The window and the active calls, with one entry's copies replaced by a newer one. */
  ghost predicate Replaces(s: State, s': State, t: Tracked) {
    && (forall u :: u in s'.recent ==> u == t || (u in s.recent && u.entry.id != t.entry.id))
    && ActiveReplaced(s.activeTools, s'.activeTools, t)
  }

  ghost predicate ActiveReplaced(active: map<string, Tracked>, active': map<string, Tracked>, t: Tracked) {
    forall call :: call in active' ==>
      active'[call] == t || (call in active && active'[call] == active[call] && active[call].entry.id != t.entry.id)
  }

  /** Calls other than the one the entry is filed under, if it is, hold other entries. */
  ghost predicate OnlyUnder(active: map<string, Tracked>, id: Option<Id>, under: Option<string>) {
    forall call :: call in active && active[call].entry.id == id ==> under == Some(call)
  }

  lemma ReplacingKeepsInStep(s: State, s': State, t: Tracked)
    requires InStep(s) && Tidy(s') && Replaces(s, s', t)
    ensures InStep(s')
  {
  }

  lemma ReplacingKeepsHeld(s: State, s': State, t: Tracked, given: map<Id, set<string>>, given': map<Id, set<string>>)
    requires Filed(s, given) && Replaces(s, s', t) && Held(given', t)
    requires forall id :: id in given && Some(id) != t.entry.id ==> id in given' && given'[id] == given[id]
    ensures (forall u :: u in s'.recent ==> Held(given', u))
    ensures (forall call :: call in s'.activeTools ==> Held(given', s'.activeTools[call]))
  {
  }

  lemma ReplacingKeepsFiled(s: State, s': State, t: Tracked, given: map<Id, set<string>>, more: set<string>)
    requires Filed(s, given) && Tidy(s') && Replaces(s, s', t)
    requires t.entry.id.Some?
    requires var id := t.entry.id.value; (id in given ==> given[id] <= Refs(t.entry)) && more <= Refs(t.entry)
    ensures var id := t.entry.id.value;
      Filed(s', given[id := (if id in given then given[id] else {}) + more])
  {
    var id := t.entry.id.value;
    ReplacingKeepsInStep(s, s', t);
    ReplacingKeepsHeld(s, s', t, given, given[id := (if id in given then given[id] else {}) + more]);
  }

  /** A text merge into an entry whose call is still active leaves the active copy behind. */
  predicate Detaches(s: State, c: Entry, line: nat) {
    var choice := Choose(s, c, line);
    && choice.ByText?
    && s.recent[choice.index].entry.callId.Some?
    && s.recent[choice.index].entry.callId.value in s.activeTools
    && s.activeTools[s.recent[choice.index].entry.callId.value] == s.recent[choice.index]
  }

  /** The only active copy of an entry in the window is filed under its call id. */
  lemma WindowCopyIsFiled(s: State, t: Tracked)
    requires Tidy(s) && InStep(s) && t in s.recent
    ensures OnlyUnder(s.activeTools, t.entry.id, t.entry.callId)
    ensures forall call :: call in s.activeTools && s.activeTools[call].entry.id == t.entry.id ==> s.activeTools[call] == t
  {
  }

  /** The call under which a choice lets an entry be active. */
  function FiledUnder(choice: Choice, before: Entry): Option<string> {
    match choice
    case BySource(_) => before.callId
    case ByActive(call) => Some(call)
    case ByCall(_, call) => Some(call)
    case _ => None
  }

  lemma NextActiveReplaces(active: map<string, Tracked>, choice: Choice, before: Entry, t: Tracked)
    requires !choice.Fresh? && t.entry.id == before.id
    requires OnlyUnder(active, before.id, FiledUnder(choice, before))
    requires choice.ByCall? ==> choice.call !in active
    ensures ActiveReplaced(active, NextActive(active, choice, before, t), t)
  {
  }

  lemma ChosenIsFiled(s: State, c: Entry, line: nat)
    requires Tidy(s) && InStep(s) && !Choose(s, c, line).Fresh? && !Detaches(s, c, line)
    ensures var choice := Choose(s, c, line);
      var before := Chosen(s, choice).entry;
      OnlyUnder(s.activeTools, before.id, FiledUnder(choice, before))
  {
    var choice := Choose(s, c, line);
    if !choice.ByActive? {
      WindowCopyIsFiled(s, s.recent[choice.index]);
    }
  }

  lemma MergeReplaces(s: State, c: Entry, line: nat)
    requires Tidy(s) && InStep(s) && !Choose(s, c, line).Fresh? && !Detaches(s, c, line)
    ensures var (s', e) := AcceptMerge(s, Choose(s, c, line), c, line);
      Replaces(s, s', Tracked(line, e))
  {
    var choice := Choose(s, c, line);
    MergeKeepsWindow(s, choice, c, line);
    ChosenIsFiled(s, c, line);
    var before := Chosen(s, choice).entry;
    NextActiveReplaces(s.activeTools, choice, before, Tracked(line, Merge(before, c)));
  }

  ghost predicate AreIssued(session: string, issued: seq<Issued>, ids: set<Id>) {
    forall id :: id in ids ==> IsIssued(session, issued, id)
  }

  ghost predicate IsIssued(session: string, issued: seq<Issued>, id: Id) {
    exists k :: 0 <= k < |issued| && IdOf(session, issued[k]) == id
  }

  /** What is stored under an id holds every reference given to it. */
  ghost predicate Complete(given: map<Id, set<string>>, returned: seq<Entry>) {
    forall id :: id in given ==> Holding(given[id], LastReturned(returned, Some(id)))
  }

  ghost predicate Holding(refs: set<string>, stored: Option<Entry>) {
    stored.Some? && refs <= Refs(stored.value)
  }

  ghost predicate Inv(w: World, lineOf: string -> nat) {
    && IdInv(w, lineOf) && Filed(w.s, w.given) && AreIssued(w.s.sessionId, w.issued, w.given.Keys)
    && Complete(w.given, w.returned) && ReturnedGiven(w.given, w.returned)
  }

  lemma StoringKeepsComplete(given: map<Id, set<string>>, returned: seq<Entry>, e: Entry, refs: set<string>)
    requires Complete(given, returned) && e.id.Some? && refs <= Refs(e)
    ensures Complete(given[e.id.value := refs], returned + [e])
  {
    assert (returned + [e])[..|returned|] == returned;
    forall id | id in given[e.id.value := refs]
      ensures Holding(given[e.id.value := refs][id], LastReturned(returned + [e], Some(id)))
    {
      if id != e.id.value {
        assert Holding(given[id], LastReturned(returned, Some(id)));
      }
    }
  }

  lemma CandidateKeepsComplete(w: World, c: Entry, line: nat)
    requires Complete(w.given, w.returned)
    requires var e := Accept(w.s, c, line).1;
      e.id.Some? && Given(Step(w, Candidate(c, line)), e.id.value) <= Refs(e)
    ensures Complete(Step(w, Candidate(c, line)).given, Step(w, Candidate(c, line)).returned)
  {
    var e := Accept(w.s, c, line).1;
    StoringKeepsComplete(w.given, w.returned, e, Given(w, e.id.value) + Refs(c));
  }

  lemma ReadBackIsHeld(given: map<Id, set<string>>, returned: seq<Entry>, t: Tracked, id: Id)
    requires Complete(given, returned) && ReadBack(returned, t.entry) && t.entry.id == Some(id) && id in given
    ensures Held(given, t)
  {
    assert Holding(given[id], LastReturned(returned, Some(id)));
  }

  /** Nothing that is read back is tracked already. */
  ghost predicate Unseen(s: State, recent: seq<Tracked>) {
    forall i :: 0 <= i < |recent| ==>
      (forall u :: u in s.recent ==> u.entry.id != recent[i].entry.id) &&
      (forall call :: call in s.activeTools ==> s.activeTools[call].entry.id != recent[i].entry.id)
  }

  lemma RememberKeepsUnseen(s: State, recent: seq<Tracked>)
    requires recent != [] && DistinctIds(recent) && Unseen(s, recent)
    ensures Unseen(Remember(s, recent[0]), recent[1..]) && DistinctIds(recent[1..])
  {
    TrackedWere(s.recent, recent[0]);
    forall i | 0 <= i < |recent[1..]|
      ensures recent[1..][i].entry.id != recent[0].entry.id && recent[1..][i] == recent[i + 1]
    {
    }
  }

  lemma RememberKeepsFiled(s: State, t: Tracked, given: map<Id, set<string>>)
    requires Filed(s, given) && Held(given, t)
    requires forall call :: call in s.activeTools ==> s.activeTools[call].entry.id != t.entry.id
    ensures Filed(Remember(s, t), given)
  {
    TrackKeepsDistinct(s.recent, t);
    RememberReplaces(s, t);
    ReplacingKeepsInStep(s, Remember(s, t), t);
    ReplacingKeepsHeld(s, Remember(s, t), t, given, given);
  }

  lemma {:induction false} SeedIsFiled(s: State, recent: seq<Tracked>, given: map<Id, set<string>>)
    requires Filed(s, given) && DistinctIds(recent) && Unseen(s, recent)
    requires forall i :: 0 <= i < |recent| ==> Held(given, recent[i])
    ensures Filed(FromSeed(s, recent), given)
    decreases |recent|
  {
    if recent != [] {
      RememberKeepsFiled(s, recent[0], given);
      RememberKeepsUnseen(s, recent);
      SeedIsFiled(Remember(s, recent[0]), recent[1..], given);
    }
  }

  lemma ResumeKeepsInv(w: World, recent: seq<Tracked>, lineOf: string -> nat)
    requires Inv(w, lineOf) && Reloads(w.returned, recent)
    ensures Inv(Step(w, Resume(recent)), lineOf)
  {
    var start := State(w.s.hash, w.s.sessionId, w.s.nextSequence, None, map[], [], map[]);
    forall i | 0 <= i < |recent|
      ensures Held(w.given, recent[i])
    {
      var e := recent[i].entry;
      LastReturnedWas(w.returned, e.id);
      ReadBackIsHeld(w.given, w.returned, recent[i], e.id.value);
    }
    SeedIsFiled(start, recent, w.given);
    ResumeKeepsIds(w, recent, lineOf);
  }

  /** Whatever was returned was given references under its id. */
  ghost predicate ReturnedGiven(given: map<Id, set<string>>, returned: seq<Entry>) {
    forall e :: e in returned ==> e.id.Some? && e.id.value in given
  }

  lemma FreshIdIsUnseen(w: World, c: Entry, line: nat, lineOf: string -> nat)
    requires IdInv(w, lineOf) && AreIssued(w.s.sessionId, w.issued, w.given.Keys) && w.line <= line && Anchored(c, line, lineOf)
    ensures IdOf(w.s.sessionId, NextIssued(w.s, c, line)) !in w.given
  {
    var id := IdOf(w.s.sessionId, NextIssued(w.s, c, line));
    if id in w.given {
      assert IsIssued(w.s.sessionId, w.issued, id);
      var k :| 0 <= k < |w.issued| && IdOf(w.s.sessionId, w.issued[k]) == id;
      NewIdIsNew(w, c, line, lineOf, k);
    }
  }

  lemma RememberReplaces(s: State, t: Tracked)
    requires DistinctIds(s.recent)
    requires forall call :: call in s.activeTools ==> s.activeTools[call].entry.id != t.entry.id
    ensures Replaces(s, Remember(s, t), t)
  {
    TrackKeepsDistinct(s.recent, t);
  }

  lemma FreshReplaces(w: World, c: Entry, line: nat, lineOf: string -> nat)
    requires Inv(w, lineOf) && w.line <= line && Anchored(c, line, lineOf)
    ensures Replaces(w.s, AcceptFresh(w.s, c, line).0, Tracked(line, Issue(w.s, c, line)))
  {
    FreshIdIsUnseen(w, c, line, lineOf);
    RememberReplaces(Count(w.s, c, line), Tracked(line, Issue(w.s, c, line)));
  }

  lemma AppendIssues(session: string, issued: seq<Issued>, i: Issued, ids: set<Id>)
    requires AreIssued(session, issued, ids)
    ensures AreIssued(session, issued + [i], ids + {IdOf(session, i)})
  {
    var more := issued + [i];
    assert more[|issued|] == i;
    forall id | id in ids ensures IsIssued(session, more, id) {
      assert IsIssued(session, issued, id);
      var k :| 0 <= k < |issued| && IdOf(session, issued[k]) == id;
      assert more[k] == issued[k];
    }
  }

  /** A merge returns an entry that was tracked before, under the same id. */
  lemma MergedIsTracked(s: State, c: Entry, line: nat, given: map<Id, set<string>>)
    requires Filed(s, given) && !Choose(s, c, line).Fresh?
    ensures var choice := Choose(s, c, line);
      var before, e := Chosen(s, choice).entry, AcceptMerge(s, choice, c, line).1;
      && e.id == before.id && e.id.Some? && e.id.value in given
      && given[e.id.value] <= Refs(e) && Refs(c) <= Refs(e)
  {
    var choice := Choose(s, c, line);
    assert Held(given, Chosen(s, choice));
  }

  lemma MergeKeepsFiled(s: State, c: Entry, line: nat, given: map<Id, set<string>>)
    requires Filed(s, given) && !Choose(s, c, line).Fresh? && !Detaches(s, c, line)
    ensures var (s', e) := AcceptMerge(s, Choose(s, c, line), c, line);
      && e.id.Some? && e.id.value in given && given[e.id.value] + Refs(c) <= Refs(e)
      && Filed(s', given[e.id.value := given[e.id.value] + Refs(c)])
  {
    var (s', e) := AcceptMerge(s, Choose(s, c, line), c, line);
    AcceptKeepsTidy(s, c, line);
    MergedIsTracked(s, c, line, given);
    MergeReplaces(s, c, line);
    ReplacingKeepsFiled(s, s', Tracked(line, e), given, Refs(c));
  }

  lemma UpdateKeepsKeys(given: map<Id, set<string>>, id: Id, refs: set<string>)
    requires id in given
    ensures given[id := refs].Keys == given.Keys
  {
  }

  lemma MergeStepKeepsFiled(w: World, c: Entry, line: nat)
    requires Filed(w.s, w.given) && !Choose(w.s, c, line).Fresh? && !Detaches(w.s, c, line)
    ensures var w' := Step(w, Candidate(c, line));
      && Filed(w'.s, w'.given) && w'.given.Keys == w.given.Keys
      && w'.issued == w.issued && w'.s.sessionId == w.s.sessionId
  {
    MergeKeepsFiled(w.s, c, line, w.given);
    MergeStepShape(w, c, line);
    var id := AcceptMerge(w.s, Choose(w.s, c, line), c, line).1.id.value;
    UpdateKeepsKeys(w.given, id, w.given[id] + Refs(c));
  }

  lemma MergeStepReturnsRefs(w: World, c: Entry, line: nat)
    requires Filed(w.s, w.given) && !Choose(w.s, c, line).Fresh? && !Detaches(w.s, c, line)
    ensures var e := Accept(w.s, c, line).1;
      e.id.Some? && Given(Step(w, Candidate(c, line)), e.id.value) <= Refs(e)
  {
    MergeKeepsFiled(w.s, c, line, w.given);
    MergeStepShape(w, c, line);
  }

  lemma MergeStepKeepsInv(w: World, c: Entry, line: nat, lineOf: string -> nat)
    requires Inv(w, lineOf) && w.line <= line && Anchored(c, line, lineOf)
    requires !Choose(w.s, c, line).Fresh? && !Detaches(w.s, c, line)
    ensures Inv(Step(w, Candidate(c, line)), lineOf)
  {
    StepKeepsIds(w, c, line, lineOf);
    MergeStepKeepsFiled(w, c, line);
    MergeStepReturnsRefs(w, c, line);
    CandidateKeepsComplete(w, c, line);
  }

  lemma MergeStepShape(w: World, c: Entry, line: nat)
    requires !Choose(w.s, c, line).Fresh?
    requires var e := AcceptMerge(w.s, Choose(w.s, c, line), c, line).1; e.id.Some? && e.id.value in w.given
    ensures var (s', e) := AcceptMerge(w.s, Choose(w.s, c, line), c, line);
      Step(w, Candidate(c, line)) ==
        World(s', line, w.issued, w.given[e.id.value := w.given[e.id.value] + Refs(c)], w.returned + [e])
  {
  }

  lemma FreshStepShape(w: World, c: Entry, line: nat, id: Id)
    requires Choose(w.s, c, line).Fresh? && id == IdOf(w.s.sessionId, NextIssued(w.s, c, line)) && id !in w.given
    ensures var (s', e) := AcceptFresh(w.s, c, line);
      && e.id == Some(id) && Refs(e) == Refs(c)
      && Step(w, Candidate(c, line)) ==
           World(s', line, w.issued + [NextIssued(w.s, c, line)], w.given[id := Refs(c)], w.returned + [e])
  {
    assert {} + Refs(c) == Refs(c);
  }

  lemma FreshStepKeepsFiled(w: World, c: Entry, line: nat, lineOf: string -> nat, id: Id)
    requires Inv(w, lineOf) && w.line <= line && Anchored(c, line, lineOf) && Choose(w.s, c, line).Fresh?
    requires id == IdOf(w.s.sessionId, NextIssued(w.s, c, line)) && id !in w.given
    ensures Filed(AcceptFresh(w.s, c, line).0, w.given[id := Refs(c)])
  {
    var (s', e) := AcceptFresh(w.s, c, line);
    AcceptKeepsTidy(w.s, c, line);
    FreshReplaces(w, c, line, lineOf);
    FreshStepShape(w, c, line, id);
    assert {} + Refs(c) == Refs(c);
    ReplacingKeepsFiled(w.s, s', Tracked(line, e), w.given, Refs(c));
  }

  lemma AddedGiven(given: map<Id, set<string>>, returned: seq<Entry>, e: Entry, id: Id, refs: set<string>)
    requires ReturnedGiven(given, returned) && e.id == Some(id)
    ensures ReturnedGiven(given[id := refs], returned + [e])
    ensures given[id := refs].Keys == given.Keys + {id}
  {
  }

  lemma FreshStepKeepsInv(w: World, c: Entry, line: nat, lineOf: string -> nat)
    requires Inv(w, lineOf) && w.line <= line && Anchored(c, line, lineOf) && Choose(w.s, c, line).Fresh?
    ensures Inv(Step(w, Candidate(c, line)), lineOf)
    ensures var e := Accept(w.s, c, line).1;
      e.id.Some? && Given(Step(w, Candidate(c, line)), e.id.value) <= Refs(e)
  {
    var id := IdOf(w.s.sessionId, NextIssued(w.s, c, line));
    var e := AcceptFresh(w.s, c, line).1;
    FreshIdIsUnseen(w, c, line, lineOf);
    FreshStepShape(w, c, line, id);
    StepKeepsIds(w, c, line, lineOf);
    AppendIssues(w.s.sessionId, w.issued, NextIssued(w.s, c, line), w.given.Keys);
    FreshStepKeepsFiled(w, c, line, lineOf, id);
    AddedGiven(w.given, w.returned, e, id, Refs(c));
    StoringKeepsComplete(w.given, w.returned, e, Refs(c));
  }

  lemma StepKeepsInv(w: World, c: Entry, line: nat, lineOf: string -> nat)
    requires Inv(w, lineOf) && w.line <= line && Anchored(c, line, lineOf) && !Detaches(w.s, c, line)
    ensures Inv(Step(w, Candidate(c, line)), lineOf)
    ensures var e := Accept(w.s, c, line).1;
      e.id.Some? && Given(Step(w, Candidate(c, line)), e.id.value) <= Refs(e)
  {
    if Choose(w.s, c, line).Fresh? {
      FreshStepKeepsInv(w, c, line, lineOf);
    } else {
      MergeStepKeepsInv(w, c, line, lineOf);
      MergeStepReturnsRefs(w, c, line);
    }
  }

  ghost predicate NeverDetaches(w: World, actions: seq<Action>)
    decreases |actions|
  {
    actions == [] ||
    ((actions[0].Candidate? ==> !Detaches(w.s, actions[0].c, actions[0].line)) &&
     NeverDetaches(Step(w, actions[0]), actions[1..]))
  }

  lemma SetSessionKeepsInv(w: World, id: string, lineOf: string -> nat)
    requires Inv(w, lineOf)
    ensures Inv(Step(w, SetSession(id)), lineOf)
  {
    assert w.s.nextSequence == 0 ==> w.issued == [];
  }

  lemma {:induction false} RunKeepsInv(w: World, actions: seq<Action>, lineOf: string -> nat)
    requires Inv(w, lineOf) && InOrder(w.line, actions, lineOf) && NeverDetaches(w, actions) && ReloadsStored(w, actions)
    ensures Inv(Run(w, actions), lineOf)
    decreases |actions|
  {
    if actions != [] {
      match actions[0] {
        case SetSession(id) => SetSessionKeepsInv(w, id, lineOf);
        case Candidate(c, line) => StepKeepsInv(w, c, line, lineOf);
        case Resume(recent) => ResumeKeepsInv(w, recent, lineOf);
      }
      RunKeepsInv(Step(w, actions[0]), actions[1..], lineOf);
    }
  }

  /**
   While no text merge detaches an active call, every entry returned holds every raw reference of
   every candidate that was ever merged into it, also across resumed scans.
   */
  lemma NoReferenceIsDropped(hash: string -> string, session: string, actions: seq<Action>, c: Entry, line: nat,
                             lineOf: string -> nat)
    requires InOrder(0, actions, lineOf) && NeverDetaches(Opening(hash, session), actions)
    requires ReloadsStored(Opening(hash, session), actions)
    requires var w := Run(Opening(hash, session), actions);
      w.line <= line && Anchored(c, line, lineOf) && !Detaches(w.s, c, line)
    ensures var w := Run(Opening(hash, session), actions);
      var e := Accept(w.s, c, line).1;
      e.id.Some? && Given(Step(w, Candidate(c, line)), e.id.value) <= Refs(e)
  {
    RunKeepsInv(Opening(hash, session), actions, lineOf);
    StepKeepsInv(Run(Opening(hash, session), actions), c, line, lineOf);
  }

  /** Otherwise the next candidate of that call yields the same entry as if the text merge, text and references, had not been. */
  lemma DetachedReferenceIsDropped(w: World, c: Entry, line: nat, ref: string, next: Entry, later: nat)
    requires Tidy(w.s) && Detaches(w.s, c, line)
    requires var t := w.s.recent[Choose(w.s, c, line).index];
      t.entry.id.Some? && next.callId == t.entry.callId && SourceItem(next).None? &&
      ref in c.rawRefs && ref !in t.entry.rawRefs && ref !in next.rawRefs
    ensures var w' := Step(w, Candidate(c, line));
      var e := Accept(w'.s, next, later).1;
      && e == Merge(w.s.recent[Choose(w.s, c, line).index].entry, next)
      && e.id == Accept(w.s, c, line).1.id && e.id.Some?
      && ref in Given(Step(w', Candidate(next, later)), e.id.value) && ref !in Refs(e)
  {
    var t := w.s.recent[Choose(w.s, c, line).index];
    var w' := Step(w, Candidate(c, line));
    assert w'.s.activeTools == w.s.activeTools;
    assert Choose(w'.s, next, later) == ByActive(t.entry.callId.value);
    assert ref in Given(w', t.entry.id.value);
  }

  /** A candidate of tool call "x", or of no call, with text "a". */
  function Sample(call: Option<string>, ref: string): Entry {
    Entry(None, "", 0, "", None, Tool, None, None, if call.Some? then Some(Running) else None, "", "a", "", map[], call,
          Display(0, None, None, true, false), [ref], ResponseItem)
  }

  lemma NothingToMerge(s: State, c: Entry, line: nat)
    requires s.recent == [] && s.activeTools == map[]
    ensures Choose(s, c, line) == Fresh
  {
  }

  lemma TrackFirst(t: Tracked)
    ensures TrackRecent([], t) == [t]
  {
    assert DropId([], t.entry.id) + [t] == [t];
  }

  lemma FirstIsRemembered(s: State, t: Tracked)
    requires s.recent == [] && s.activeTools == map[] && t.entry.callId.Some? && !Terminal(t.entry)
    ensures Remember(s, t).recent == [t] && Remember(s, t).activeTools == map[t.entry.callId.value := t]
  {
    TrackFirst(t);
  }

  lemma OnlyTextRepeats(s: State, t: Tracked, c: Entry, line: nat)
    requires s.recent == [t] && TextDuplicate(t, c, line) && SourceItem(c).None? && c.callId.None?
    ensures Choose(s, c, line) == ByText(0)
  {
    assert LastText(s.recent, c, line, 1) == Some(0);
  }

  /** A call's first record, then one that repeats its text without the call id: the second detaches the first. */
  lemma RepeatDetaches(s: State, first: Entry, second: Entry, line: nat)
    requires s.recent == [] && s.activeTools == map[]
    requires first.callId.Some? && !Terminal(first)
    requires second.callId.None? && SourceItem(second).None?
    requires first.kind == second.kind && first.role == second.role && first.phase == second.phase && SameText(first, second)
    ensures var (s', e) := Accept(s, first, line);
      && Tidy(s') && Detaches(s', second, line)
      && s'.recent == [Tracked(line, e)] && Choose(s', second, line).index == 0
  {
    NothingToMerge(s, first, line);
    FirstIsRemembered(Count(s, first, line), Tracked(line, Issue(s, first, line)));
    AcceptKeepsTidy(s, first, line);
    var (s', e) := AcceptFresh(s, first, line);
    OnlyTextRepeats(s', Tracked(line, e), second, line);
  }

  lemma RunOfTwo(w: World, a: Action, b: Action)
    ensures Run(w, [a, b]) == Step(Step(w, a), b)
  {
    assert [a, b][1..] == [b] && [b][1..] == [];
    assert Run(w, [a, b]) == Run(Step(w, a), [b]) == Run(Step(Step(w, a), b), []);
  }

  /** Then the call's next record yields the entry without what the second brought. */
  lemma RepeatIsForgotten(w: World, first: Entry, second: Entry, next: Entry, line: nat, ref: string)
    requires w.s.recent == [] && w.s.activeTools == map[]
    requires first.callId.Some? && !Terminal(first)
    requires second.callId.None? && SourceItem(second).None?
    requires first.kind == second.kind && first.role == second.role && first.phase == second.phase && SameText(first, second)
    requires next.callId == first.callId && SourceItem(next).None?
    requires ref in second.rawRefs && ref !in first.rawRefs && ref !in next.rawRefs
    ensures var w' := Step(Step(w, Candidate(first, line)), Candidate(second, line));
      var e := Accept(w'.s, next, line).1;
      e.id.Some? && ref in Given(Step(w', Candidate(next, line)), e.id.value) && ref !in Refs(e)
  {
    RepeatDetaches(w.s, first, second, line);
    NothingToMerge(w.s, first, line);
    DetachedReferenceIsDropped(Step(w, Candidate(first, line)), second, line, ref, next, line);
  }

  /** An unfinished call, a record repeating its text without the call id, and the call's next record. */
  lemma ReferenceCanBeDropped(hash: string -> string)
    ensures exists actions, next: Entry, line: nat, ref ::
      var w := Run(Opening(hash, "s"), actions);
      var e := Accept(w.s, next, line).1;
      e.id.Some? && ref in Given(Step(w, Candidate(next, line)), e.id.value) && ref !in Refs(e)
  {
    var first, second, next := Sample(Some("x"), "1"), Sample(None, "2"), Sample(Some("x"), "3");
    var w := Opening(hash, "s");
    RepeatIsForgotten(w, first, second, next, 1, "2");
    RunOfTwo(w, Candidate(first, 1), Candidate(second, 1));
  }

  lemma PutBack(active: map<string, Tracked>, call: string, t: Tracked)
    ensures (active - {call})[call := t] == active[call := t]
  {
  }

  // ---------- The deduper as an object ----------

  class Deduper {
    const hash: string -> string
    var sessionId: string
    var nextSequence: nat
    var occurrenceLine: Option<nat>
    var lineOccurrences: map<string, nat>
    var recent: seq<Tracked>
    var activeTools: map<string, Tracked>

    ghost function View(): State
      reads this
    {
      State(hash, sessionId, nextSequence, occurrenceLine, lineOccurrences, recent, activeTools)
    }

    constructor (hash: string -> string, sessionId: string)
      ensures View() == New(hash, sessionId)
    {
      this.hash, this.sessionId, nextSequence := hash, sessionId, 0;
      occurrenceLine, lineOccurrences, recent, activeTools := None, map[], [], map[];
    }

    constructor Resume(hash: string -> string, sessionId: string, nextSequence: nat, seed: seq<Tracked>)
      ensures View() == FromSeed(State(hash, sessionId, nextSequence, None, map[], [], map[]), seed)
    {
      this.hash, this.sessionId, this.nextSequence := hash, sessionId, nextSequence;
      occurrenceLine, lineOccurrences, recent, activeTools := None, map[], [], map[];
      new;
      ghost var start := View();
      for i := 0 to |seed|
        invariant FromSeed(View(), seed[i..]) == FromSeed(start, seed)
      {
        assert seed[i..][1..] == seed[i + 1..];
        Track(seed[i]);
        if seed[i].entry.callId.Some? && !Terminal(seed[i].entry) {
          activeTools := activeTools[seed[i].entry.callId.value := seed[i]];
        }
      }
    }

    method SetSession(id: string)
      modifies this
      ensures View() == SetSessionId(old(View()), id)
    {
      if nextSequence == 0 {
        sessionId := id;
      }
    }

    method FindSource(source: string) returns (found: Option<nat>)
      ensures found == LastSource(recent, source, |recent|)
    {
      var n: nat := |recent|;
      while n > 0
        invariant n <= |recent| && LastSource(recent, source, n) == LastSource(recent, source, |recent|)
      {
        n := n - 1;
        if SourceItem(recent[n].entry) == Some(source) {
          return Some(n);
        }
      }
      found := None;
    }

    method FindCall(call: string, line: nat) returns (found: Option<nat>)
      ensures found == FirstCall(recent, call, line, 0)
    {
      for i := 0 to |recent|
        invariant FirstCall(recent, call, line, i) == FirstCall(recent, call, line, 0)
      {
        if CallNearby(recent[i], call, line) {
          return Some(i);
        }
      }
      found := None;
    }

    method FindTextDuplicate(c: Entry, line: nat) returns (found: Option<nat>)
      ensures found == LastText(recent, c, line, |recent|)
    {
      var n: nat := |recent|;
      while n > 0
        invariant n <= |recent| && LastText(recent, c, line, n) == LastText(recent, c, line, |recent|)
      {
        n := n - 1;
        if TextDuplicate(recent[n], c, line) {
          return Some(n);
        }
      }
      found := None;
    }

    method RemoveId(id: Option<Id>)
      modifies this`recent
      ensures recent == DropId(old(recent), id)
    {
      for i := 0 to |recent|
        invariant recent == old(recent) && DropId(recent, id) == recent[..i] + DropId(recent[i..], id)
      {
        if recent[i].entry.id == id {
          recent := recent[..i] + recent[i + 1..];
          return;
        }
      }
    }

    method Track(t: Tracked)
      modifies this`recent
      ensures recent == TrackRecent(old(recent), t)
    {
      RemoveId(t.entry.id);
      recent := recent + [t];
      ghost var all := recent;
      while recent != [] && Outside(recent[0], t.line, t.entry.timestamp)
        invariant Prune(recent, t.line, t.entry.timestamp) == Prune(all, t.line, t.entry.timestamp)
        decreases |recent|
      {
        recent := recent[1..];
      }
    }

    method TakeAt(index: nat) returns (t: Tracked)
      requires index < |recent|
      modifies this`recent
      ensures t == old(recent)[index] && recent == RemoveAt(old(recent), index)
    {
      t := recent[index];
      recent := recent[..index] + recent[index + 1..];
    }

    method MergeAt(index: nat, c: Entry, line: nat) returns (t: Tracked)
      requires index < |recent|
      modifies this`recent
      ensures t == Tracked(line, Merge(old(recent)[index].entry, c))
      ensures recent == TrackRecent(RemoveAt(old(recent), index), t)
    {
      t := TakeAt(index);
      t := Tracked(line, Merge(t.entry, c));
      Track(t);
    }

    method MergeSource(index: nat, c: Entry, line: nat) returns (e: Entry)
      requires index < |recent|
      modifies this
      ensures (View(), e) == AcceptMerge(old(View()), BySource(index), c, line)
    {
      var previous := recent[index].entry.callId;
      var t := MergeAt(index, c, line);
      if previous.Some? {
        activeTools := activeTools - {previous.value};
      }
      if t.entry.callId.Some? && !Terminal(t.entry) {
        activeTools := activeTools[t.entry.callId.value := t];
      }
      e := t.entry;
    }

    method MergeActive(call: string, c: Entry, line: nat) returns (e: Entry)
      requires call in activeTools && c.callId == Some(call)
      modifies this
      ensures (View(), e) == AcceptMerge(old(View()), ByActive(call), c, line)
    {
      var t := Tracked(line, Merge(activeTools[call].entry, c));
      activeTools := activeTools - {call};
      Track(t);
      if !Terminal(t.entry) {
        PutBack(old(activeTools), call, t);
        activeTools := activeTools[call := t];
      }
      e := t.entry;
    }

    method MergeCall(index: nat, call: string, c: Entry, line: nat) returns (e: Entry)
      requires Merges(View(), ByCall(index, call), c)
      modifies this
      ensures (View(), e) == AcceptMerge(old(View()), ByCall(index, call), c, line)
    {
      var t := MergeAt(index, c, line);
      if !Terminal(t.entry) {
        activeTools := activeTools[call := t];
      }
      e := t.entry;
    }

    method AddFresh(c: Entry, line: nat) returns (e: Entry)
      modifies this
      ensures (View(), e) == AcceptFresh(old(View()), c, line)
    {
      e := IssueEntry(c, line);
      RememberEntry(Tracked(line, e));
    }

    method RememberEntry(t: Tracked)
      modifies this
      ensures View() == Remember(old(View()), t)
    {
      Track(t);
      if t.entry.callId.Some? && !Terminal(t.entry) {
        activeTools := activeTools[t.entry.callId.value := t];
      }
    }

    method AcceptEntry(raw: Entry, line: nat) returns (e: Entry)
      modifies this
      ensures (View(), e) == Accept(old(View()), Normalized(raw), line)
    {
      var c := raw.(primary := Text.NormalizeText(raw.primary), secondary := Text.NormalizeText(raw.secondary));
      e := AcceptNormalized(c, line);
    }

    method AcceptNormalized(c: Entry, line: nat) returns (e: Entry)
      modifies this
      ensures (View(), e) == Accept(old(View()), c, line)
    {
      var source := SourceItem(c);
      if source.Some? {
        var index := FindSource(source.value);
        if index.Some? {
          e := MergeSource(index.value, c, line);
          return;
        }
      }
      if c.callId.Some? {
        var call := c.callId.value;
        if call in activeTools {
          e := MergeActive(call, c, line);
          return;
        }
        var index := FindCall(call, line);
        if index.Some? {
          e := MergeCall(index.value, call, c, line);
          return;
        }
      } else {
        var index := FindTextDuplicate(c, line);
        if index.Some? {
          var t := MergeAt(index.value, c, line);
          return t.entry;
        }
      }
      e := AddFresh(c, line);
    }

    /** Numbers a new entry and derives its id, counting how often its basis occurs on the line. */
    method IssueEntry(c: Entry, line: nat) returns (e: Entry)
      modifies this`nextSequence, this`occurrenceLine, this`lineOccurrences
      ensures e == Issue(old(View()), c, line) && View() == Count(old(View()), c, line)
    {
      nextSequence := nextSequence + 1;
      if occurrenceLine != Some(line) {
        occurrenceLine, lineOccurrences := Some(line), map[];
      }
      var basis := Basis(sessionId, Anchor(c), Details(hash, c));
      var occurrence := if basis in lineOccurrences then lineOccurrences[basis] else 0;
      lineOccurrences := lineOccurrences[basis := occurrence + 1];
      e := c.(sequence := nextSequence, sessionId := sessionId, idBasis := basis, id := Some(MakeId(basis, occurrence)));
    }
  }
}
