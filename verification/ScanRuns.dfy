/**
 Every run of scans over a file that only grows: full scans, append scans, aborted and cancelled
 ones, with the file growing at any moment. One scan of the file is active at a time, and its
 raw records are staged in any number of batches, one row per line read.
 */
module ScanRuns {
  import opened Common
  import opened JsonlReader
  import opened TailWindow
  import opened ScanIndex

  // ---------- Rows and lines ----------

  function RowOf(line: ReadLine): RawRow {
    RawRow(line.lineNo, line.byteOffset, line.byteLength, line.contentHash, line.status.Oversize?)
  }

  /** One row per line, under a name made of some session and the line's place. */
  ghost predicate RowsMatch(rows: map<RawId, RawRow>, lines: seq<ReadLine>) {
    Named(rows) && OneRowPerPlace(rows) && OnlyLines(rows, lines) && AllLines(rows, lines)
  }

  ghost predicate Named(rows: map<RawId, RawRow>) {
    forall id {:trigger rows[id]} | id in rows ::
      id.offset == rows[id].byteOffset && id.length == rows[id].byteLength
  }

  ghost predicate OneRowPerPlace(rows: map<RawId, RawRow>) {
    forall a, b {:trigger a in rows, b in rows} | a in rows && b in rows && a.offset == b.offset :: a == b
  }

  ghost predicate OnlyLines(rows: map<RawId, RawRow>, lines: seq<ReadLine>) {
    forall id | id in rows :: IsRowOfSome(rows[id], lines)
  }

  ghost predicate IsRowOfSome(row: RawRow, lines: seq<ReadLine>) {
    exists i :: 0 <= i < |lines| && row == RowOf(lines[i])
  }

  ghost predicate AllLines(rows: map<RawId, RawRow>, lines: seq<ReadLine>) {
    forall i | 0 <= i < |lines| :: HasRow(rows, lines[i])
  }

  ghost predicate HasRow(rows: map<RawId, RawRow>, line: ReadLine) {
    exists session: string :: RawId(session, line.byteOffset, line.byteLength) in rows
      && rows[RawId(session, line.byteOffset, line.byteLength)] == RowOf(line)
  }

  /** The rows of these lines: where each lies, its hash, and whether it was too long to keep. */
  function RowsOf(lines: seq<ReadLine>): set<RawRow> {
    set i | 0 <= i < |lines| :: RawRow(lines[i].lineNo, lines[i].byteOffset, lines[i].byteLength,
                                       lines[i].contentHash, lines[i].status == Oversize)
  }

  /** What a client reads back: the rows without their names. */
  lemma MatchingRowsAreTheLines(rows: map<RawId, RawRow>, lines: seq<ReadLine>)
    requires RowsMatch(rows, lines)
    ensures rows.Values == RowsOf(lines)
  {
    forall i | 0 <= i < |lines|
      ensures RowOf(lines[i]) in rows.Values
    {
      assert HasRow(rows, lines[i]);
    }
    forall row | row in rows.Values
      ensures row in RowsOf(lines)
    {
      var id :| id in rows && rows[id] == row;
      assert IsRowOfSome(rows[id], lines);
      var i :| 0 <= i < |lines| && rows[id] == RowOf(lines[i]);
    }
  }

  /** Lines that lie on the two sides of `cut`. */
  ghost predicate Below(lines: seq<ReadLine>, cut: nat) {
    forall i | 0 <= i < |lines| :: lines[i].byteOffset < cut
  }

  ghost predicate Above(lines: seq<ReadLine>, cut: nat) {
    forall i | 0 <= i < |lines| :: lines[i].byteOffset >= cut
  }

  ghost predicate DistinctStarts(lines: seq<ReadLine>) {
    forall i, j | 0 <= i < j < |lines| :: lines[i].byteOffset != lines[j].byteOffset
  }

  lemma NamesBelow(rows: map<RawId, RawRow>, lines: seq<ReadLine>, cut: nat)
    requires Named(rows) && OnlyLines(rows, lines) && Below(lines, cut)
    ensures forall id | id in rows :: id.offset < cut
  {
    forall id | id in rows
      ensures id.offset < cut
    {
      assert IsRowOfSome(rows[id], lines);
    }
  }

  lemma NamesAbove(rows: map<RawId, RawRow>, lines: seq<ReadLine>, cut: nat)
    requires Named(rows) && OnlyLines(rows, lines) && Above(lines, cut)
    ensures forall id | id in rows :: id.offset >= cut
  {
    forall id | id in rows
      ensures id.offset >= cut
    {
      assert IsRowOfSome(rows[id], lines);
    }
  }

  lemma SomeOfLonger(row: RawRow, lines: seq<ReadLine>, before: seq<ReadLine>, after: seq<ReadLine>)
    requires IsRowOfSome(row, lines)
    ensures IsRowOfSome(row, before + lines + after)
  {
    var i :| 0 <= i < |lines| && row == RowOf(lines[i]);
    assert (before + lines + after)[|before| + i] == lines[i];
  }

  /** Rows keep standing for their lines inside a larger table. */
  lemma RowStillThere(rows: map<RawId, RawRow>, more: map<RawId, RawRow>, line: ReadLine)
    requires HasRow(rows, line)
    requires forall id | id in rows && id.offset == line.byteOffset :: id in more && more[id] == rows[id]
    ensures HasRow(more, line)
  {
    var session: string :| RawId(session, line.byteOffset, line.byteLength) in rows
      && rows[RawId(session, line.byteOffset, line.byteLength)] == RowOf(line);
    assert more[RawId(session, line.byteOffset, line.byteLength)] == RowOf(line);
  }

  lemma KeepBelow(rows: map<RawId, RawRow>, below: seq<ReadLine>, above: seq<ReadLine>, cut: nat)
    requires RowsMatch(rows, below + above) && Below(below, cut) && Above(above, cut)
    ensures RowsMatch(RowsBefore(rows, cut), below)
  {
    var lines, kept := below + above, RowsBefore(rows, cut);
    forall id | id in kept
      ensures IsRowOfSome(kept[id], below)
    {
      assert IsRowOfSome(rows[id], lines);
      var i :| 0 <= i < |lines| && rows[id] == RowOf(lines[i]);
      assert lines[i].byteOffset < cut;
      NotAbove(below, above, cut, i);
    }
    forall i | 0 <= i < |below|
      ensures HasRow(kept, below[i])
    {
      assert lines[i] == below[i];
      RowStillThere(rows, kept, below[i]);
    }
  }

  lemma NotAbove(below: seq<ReadLine>, above: seq<ReadLine>, cut: nat, i: nat)
    requires Above(above, cut) && i < |below + above| && (below + above)[i].byteOffset < cut
    ensures i < |below| && (below + above)[i] == below[i]
  {
  }

  lemma MergeOfDisjoint(a: map<RawId, RawRow>, b: map<RawId, RawRow>)
    requires a.Keys !! b.Keys
    ensures Merge(a, b) == a + b
  {
  }

  lemma MergeDisjoint(a: map<RawId, RawRow>, b: map<RawId, RawRow>, xs: seq<ReadLine>, ys: seq<ReadLine>, cut: nat)
    requires RowsMatch(a, xs) && RowsMatch(b, ys) && Below(xs, cut) && Above(ys, cut)
    ensures RowsMatch(Merge(a, b), xs + ys)
  {
    NamesBelow(a, xs, cut);
    NamesAbove(b, ys, cut);
    MergeOfDisjoint(a, b);
    UnionOnlyLines(a, b, xs, ys);
    UnionAllLines(a, b, xs, ys);
  }

  lemma UnionOnlyLines(a: map<RawId, RawRow>, b: map<RawId, RawRow>, xs: seq<ReadLine>, ys: seq<ReadLine>)
    requires OnlyLines(a, xs) && OnlyLines(b, ys)
    ensures OnlyLines(a + b, xs + ys)
  {
    forall id | id in a + b
      ensures IsRowOfSome((a + b)[id], xs + ys)
    {
      if id in b {
        SomeOfLonger(b[id], ys, xs, []);
        assert xs + ys + [] == xs + ys;
      } else {
        SomeOfLonger(a[id], xs, [], ys);
        assert [] + xs + ys == xs + ys;
      }
    }
  }

  lemma UnionAllLines(a: map<RawId, RawRow>, b: map<RawId, RawRow>, xs: seq<ReadLine>, ys: seq<ReadLine>)
    requires AllLines(a, xs) && AllLines(b, ys) && a.Keys !! b.Keys
    ensures AllLines(a + b, xs + ys)
  {
    forall i | 0 <= i < |xs + ys|
      ensures HasRow(a + b, (xs + ys)[i])
    {
      if i < |xs| {
        assert (xs + ys)[i] == xs[i];
        RowStillThere(a, a + b, xs[i]);
      } else {
        assert (xs + ys)[i] == ys[i - |xs|];
        RowStillThere(b, a + b, ys[i - |xs|]);
      }
    }
  }

  // ---------- Staging ----------

  /** The rows a parser stages for `lines`; which session each is attributed to is up to the parser. */
  ghost predicate RowsFor(rows: seq<(RawId, RawRow)>, lines: seq<ReadLine>) {
    && |rows| == |lines|
    && forall i | 0 <= i < |rows| ::
         && rows[i].0.offset == lines[i].byteOffset
         && rows[i].0.length == lines[i].byteLength
         && rows[i].1 == RowOf(lines[i])
  }

  lemma StageOne(staged: map<RawId, RawRow>, lines: seq<ReadLine>, row: (RawId, RawRow), line: ReadLine)
    requires RowsMatch(staged, lines) && DistinctStarts(lines + [line])
    requires row.0.offset == line.byteOffset && row.0.length == line.byteLength && row.1 == RowOf(line)
    ensures RowsMatch(Upsert(staged, row.0, row.1), lines + [line])
  {
    var single := map[row.0 := row.1];
    forall id | id in staged
      ensures id.offset != line.byteOffset
    {
      assert IsRowOfSome(staged[id], lines);
      var i :| 0 <= i < |lines| && staged[id] == RowOf(lines[i]);
      assert (lines + [line])[i] == lines[i] && (lines + [line])[|lines|] == line;
    }
    assert Upsert(staged, row.0, row.1) == staged + single;
    assert RowOf([line][0]) == single[row.0];
    UnionOnlyLines(staged, single, lines, [line]);
    assert HasRow(single, line) by {
      assert RawId(row.0.session, line.byteOffset, line.byteLength) == row.0;
    }
    UnionAllLines(staged, single, lines, [line]);
  }

  lemma {:induction false} StageMany(
    staged: map<RawId, RawRow>, done: seq<ReadLine>, rows: seq<(RawId, RawRow)>, lines: seq<ReadLine>)
    requires RowsMatch(staged, done) && RowsFor(rows, lines) && DistinctStarts(done + lines)
    ensures RowsMatch(UpsertAll(staged, rows), done + lines)
  {
    if rows == [] {
      assert done + lines == done;
    } else {
      var n := |rows| - 1;
      assert done + lines == (done + lines[..n]) + [lines[n]];
      forall i, j | 0 <= i < j < |done + lines[..n]|
        ensures (done + lines[..n])[i].byteOffset != (done + lines[..n])[j].byteOffset
      {
        assert (done + lines[..n])[i] == (done + lines)[i] && (done + lines[..n])[j] == (done + lines)[j];
      }
      StageMany(staged, done, rows[..n], lines[..n]);
      StageOne(UpsertAll(staged, rows[..n]), done + lines[..n], rows[n], lines[n]);
    }
  }

  // ---------- Lines of a snapshot ----------

  /** The lines a scan that starts at `plan` reads from the snapshot. */
  function LinesRead(plan: ScanPlan, snapshot: seq<byte>, maxBytes: nat): seq<ReadLine>
    requires plan.Start() <= |snapshot|
  {
    LinesOnto([], snapshot, plan.Start(), maxBytes, plan.FirstLineNo())
  }

  /** What an append scan keeps: the terminated lines of the old snapshot. */
  function LinesKept(plan: ScanPlan, before: seq<byte>, maxBytes: nat): seq<ReadLine> {
    if plan.FullScan? then [] else TerminatedOnto([], before, 0, maxBytes, 1)
  }

  /** Accumulating onto `xs + ys` is accumulating onto `ys`, with `xs` in front. */
  lemma {:induction false} OntoConcat(
    xs: seq<ReadLine>, ys: seq<ReadLine>, file: seq<byte>, pos: nat, maxBytes: nat, lineNo: nat)
    requires pos <= |file|
    ensures LinesOnto(xs + ys, file, pos, maxBytes, lineNo) == xs + LinesOnto(ys, file, pos, maxBytes, lineNo)
    decreases |file| - pos
  {
    if pos < |file| {
      var line := LineAt(file, pos, maxBytes, lineNo);
      assert xs + ys + [line] == xs + (ys + [line]);
      if NewlineFrom(file, pos) < |file| {
        OntoConcat(xs, ys + [line], file, NewlineFrom(file, pos) + 1, maxBytes, lineNo + 1);
      }
    }
  }

  /** The lines kept and the lines read are together the lines of one fresh full scan. */
  lemma KeptAndReadAreAll(before: seq<byte>, snapshot: seq<byte>, plan: ScanPlan, maxBytes: nat)
    requires before <= snapshot
    requires plan.AppendScan? ==>
      plan.checkpointOffset == StableEnd(before, 0) && plan.checkpointLine == LineCount(before, 0)
    ensures LinesKept(plan, before, maxBytes) + LinesRead(plan, snapshot, maxBytes) == Lines(snapshot, maxBytes)
  {
    if plan.AppendScan? {
      ResumedLinesAreAll(before, snapshot, StableEnd(before, 0), LineCount(before, 0), maxBytes);
    }
  }

  lemma ResumedLinesAreAll(before: seq<byte>, snapshot: seq<byte>, start: nat, count: nat, maxBytes: nat)
    requires before <= snapshot && start == StableEnd(before, 0) && count == LineCount(before, 0)
    ensures TerminatedOnto([], before, 0, maxBytes, 1) + LinesOnto([], snapshot, start, maxBytes, 1 + count) ==
            LinesOnto([], snapshot, 0, maxBytes, 1)
  {
    var kept := TerminatedOnto([], before, 0, maxBytes, 1);
    ResumeAtStableEnd([], before, snapshot, 0, maxBytes, 1, kept, start, 1 + count);
    assert kept + [] == kept;
    OntoConcat(kept, [], snapshot, start, maxBytes, 1 + count);
  }

  lemma {:induction false} OntoAbove(acc: seq<ReadLine>, file: seq<byte>, pos: nat, maxBytes: nat, lineNo: nat, cut: nat)
    requires cut <= pos <= |file| && Above(acc, cut)
    ensures Above(LinesOnto(acc, file, pos, maxBytes, lineNo), cut)
    decreases |file| - pos
  {
    if pos < |file| && NewlineFrom(file, pos) < |file| {
      OntoAbove(acc + [LineAt(file, pos, maxBytes, lineNo)], file, NewlineFrom(file, pos) + 1, maxBytes, lineNo + 1, cut);
    }
  }

  lemma {:induction false} TerminatedBelow(acc: seq<ReadLine>, file: seq<byte>, pos: nat, maxBytes: nat, lineNo: nat, cut: nat)
    requires pos <= |file| && cut == StableEnd(file, pos) && Below(acc, cut)
    ensures Below(TerminatedOnto(acc, file, pos, maxBytes, lineNo), cut)
    decreases |file| - pos
  {
    if NewlineFrom(file, pos) < |file| {
      TerminatedBelow(acc + [LineAt(file, pos, maxBytes, lineNo)], file, NewlineFrom(file, pos) + 1, maxBytes, lineNo + 1, cut);
    }
  }

  lemma {:induction false} OntoDistinct(acc: seq<ReadLine>, file: seq<byte>, pos: nat, maxBytes: nat, lineNo: nat)
    requires pos <= |file| && DistinctStarts(acc) && Below(acc, pos)
    ensures DistinctStarts(LinesOnto(acc, file, pos, maxBytes, lineNo))
    decreases |file| - pos
  {
    if pos < |file| {
      var more := acc + [LineAt(file, pos, maxBytes, lineNo)];
      assert DistinctStarts(more);
      if NewlineFrom(file, pos) < |file| {
        OntoDistinct(more, file, NewlineFrom(file, pos) + 1, maxBytes, lineNo + 1);
      }
    }
  }

  // ---------- Runs ----------

  /** A scan between its begin and its finish or abort: the snapshot it reads and the rows to stage. */
  datatype Scan = Scan(token: Token, plan: ScanPlan, snapshot: seq<byte>, pending: seq<(RawId, RawRow)>, sessionId: string)

  datatype World = World(file: seq<byte>, tables: Tables, scan: Option<Scan>)

  /** What the parser reports at the end of the scan. */
  function SummaryOf(scan: Scan): Summary
    requires scan.plan.Start() <= |scan.snapshot|
  {
    var start := scan.plan.Start();
    var stable := StableEnd(scan.snapshot, start);
    var tail := stable < |scan.snapshot|;
    var before := if scan.plan.FullScan? then 0 else scan.plan.checkpointLine;
    Summary(scan.sessionId, before + LineCount(scan.snapshot, start) + (if tail then 1 else 0), tail, stable,
            Sha256(scan.snapshot[start..stable]))
  }

  function FinalTail(scan: Scan): Hash
    requires scan.plan.Start() <= |scan.snapshot|
  {
    Sha256(LastBytes(LastBytes(scan.plan.Seed(), FINGERPRINT_BYTES) + scan.snapshot[scan.plan.Start()..], FINGERPRINT_BYTES))
  }

  datatype Event =
    | Grow(more: seq<byte>)
    | Start(token: Token, steady: bool, pending: seq<(RawId, RawRow)>, sessionId: string)
    | Batch(count: nat)
    | Commit
    | Abort
    | Cancel
    | Collect(token: Token)

  /** One step; the file's key never changes. */
  ghost predicate Step(w: World, event: Event, w': World, key: string, maxBytes: nat) {
    match event
    case Grow(more) =>
      w' == w.(file := w.file + more)
    case Start(token, steady, pending, sessionId) =>
      && w.scan.None? && token !in w.tables.staged
      && var d := Hydrate(key, w.file);
         var p := AppendPlan(w.tables.source, d, OpenedFile(key, w.file, steady));
         && p.Planned? && p.plan.Start() <= |w.file|
         && RowsFor(pending, LinesRead(p.plan, w.file, maxBytes))
         && w' == World(w.file, Begin(w.tables, d, token), Some(Scan(token, p.plan, w.file, pending, sessionId)))
    case Batch(count) =>
      && w.scan.Some? && count <= |w.scan.value.pending|
      && var scan := w.scan.value;
         w' == World(w.file, Stage(w.tables, scan.token, scan.pending[..count]),
                     Some(scan.(pending := scan.pending[count..])))
    case Commit =>
      && w.scan.Some? && w.scan.value.pending == []
      && w.tables.source.Some? && w.scan.value.plan.Start() <= |w.scan.value.snapshot|
      && var scan := w.scan.value;
         w' == World(w.file, Finish(w.tables, scan.token, scan.plan, SummaryOf(scan), FinalTail(scan)), None)
    case Abort =>
      && w.scan.Some?
      && w' == World(w.file, Discard(w.tables, w.scan.value.token), None)
    case Cancel =>
      && w.scan.Some? && w' == w.(scan := None)
    case Collect(token) =>
      && (w.scan.Some? ==> w.scan.value.token != token)
      && w' == w.(tables := Discard(w.tables, token))
  }

  /** The committed side: nothing yet, or exactly one fresh full scan of the recorded snapshot. */
  ghost predicate CommittedInv(w: World, key: string, maxBytes: nat) {
    var t := w.tables;
    if t.source.None? || t.source.value.snapshotRevision == 0 then
      t.committed == map[] && (t.source.Some? ==> t.source.value.snapshotSizeBytes.None?)
    else
      exists n: nat :: n <= |w.file| && Current(t, key, w.file[..n], maxBytes)
  }

  ghost predicate Current(t: Tables, key: string, snapshot: seq<byte>, maxBytes: nat) {
    && t.source.Some? && Records(t.source.value, key, snapshot)
    && RowsMatch(t.committed, Lines(snapshot, maxBytes))
  }

  /** The active scan: its plan fits the committed snapshot, and its staged rows are the lines read so far. */
  ghost predicate ScanInv(t: Tables, file: seq<byte>, scan: Scan, key: string, maxBytes: nat) {
    && scan.snapshot <= file && t.source.Some?
    && t.source.value.fileKey == key && t.source.value.sizeBytes == |scan.snapshot|
    && t.source.value.headHash == Some(Sha256(HeadBytes(scan.snapshot)))
    && t.source.value.snapshotRevision >= 0
    && scan.plan.Start() <= |scan.snapshot|
    && (scan.plan.AppendScan? ==> PlanInv(t, scan, key, maxBytes))
    && StagingInv(t.StagedFor(scan.token), scan.pending, LinesRead(scan.plan, scan.snapshot, maxBytes))
  }

  ghost predicate PlanInv(t: Tables, scan: Scan, key: string, maxBytes: nat) {
    exists n: nat ::
      n < |scan.snapshot| && Current(t, key, scan.snapshot[..n], maxBytes) && Resumes(scan.plan, scan.snapshot[..n])
  }

  ghost predicate Resumes(plan: ScanPlan, before: seq<byte>) {
    plan == AppendScan(StableEnd(before, 0), LineCount(before, 0),
                       TailSeed(LastBytes(before, FINGERPRINT_BYTES), |before|, StableEnd(before, 0)))
  }

  ghost predicate StagingInv(staged: map<RawId, RawRow>, pending: seq<(RawId, RawRow)>, lines: seq<ReadLine>) {
    && |pending| <= |lines| && DistinctStarts(lines)
    && RowsMatch(staged, lines[..|lines| - |pending|])
    && RowsFor(pending, lines[|lines| - |pending|..])
  }

  ghost predicate Inv(w: World, key: string, maxBytes: nat) {
    && CommittedInv(w, key, maxBytes)
    && (w.tables.source.Some? ==> w.tables.source.value.snapshotRevision >= 0)
    && (w.scan.Some? ==> ScanInv(w.tables, w.file, w.scan.value, key, maxBytes))
  }

  // ---------- Every step keeps the invariant ----------

  /** Rewriting columns other than the snapshot's leaves the committed snapshot current. */
  lemma StillCurrent(t: Tables, t': Tables, key: string, snapshot: seq<byte>, maxBytes: nat)
    requires Current(t, key, snapshot, maxBytes) && t'.committed == t.committed && t'.source.Some?
    requires t'.source.value == t.source.value.(fileKey := t'.source.value.fileKey,
               sizeBytes := t'.source.value.sizeBytes, headHash := t'.source.value.headHash,
               tailHash := t'.source.value.tailHash, scanToken := t'.source.value.scanToken)
    ensures Current(t', key, snapshot, maxBytes)
  {
  }

  /** The plan of a scan never fails, and an append plan resumes the committed snapshot. */
  lemma PlanFits(w: World, key: string, steady: bool, maxBytes: nat)
    requires Inv(w, key, maxBytes)
    ensures var p := AppendPlan(w.tables.source, Hydrate(key, w.file), OpenedFile(key, w.file, steady));
      && p.Planned? && p.plan.Start() <= |w.file|
      && (p.plan.AppendScan? ==> PlanInv(w.tables, Scan(0, p.plan, w.file, [], ""), key, maxBytes))
  {
    var p := AppendPlan(w.tables.source, Hydrate(key, w.file), OpenedFile(key, w.file, steady));
    if w.tables.source.Some? && w.tables.source.value.snapshotRevision != 0 {
      var row := w.tables.source.value;
      var n: nat :| n <= |w.file| && Current(w.tables, key, w.file[..n], maxBytes);
      if n < |w.file| && steady {
        GrownFileIsResumed(row, key, w.file[..n], OpenedFile(key, w.file, true));
        assert Resumes(p.plan, w.file[..n]);
      } else {
        AppendChosenIff(row, key, w.file[..n], OpenedFile(key, w.file, steady));
      }
    }
  }

  lemma GrowKeepsInv(w: World, more: seq<byte>, key: string, maxBytes: nat)
    requires Inv(w, key, maxBytes)
    ensures Inv(w.(file := w.file + more), key, maxBytes)
  {
    var w' := w.(file := w.file + more);
    if w.tables.source.Some? && w.tables.source.value.snapshotRevision != 0 {
      var n: nat :| n <= |w.file| && Current(w.tables, key, w.file[..n], maxBytes);
      assert w'.file[..n] == w.file[..n];
    }
  }

  lemma FreshStaging(token: Token, t: Tables, d: Discovered, pending: seq<(RawId, RawRow)>, lines: seq<ReadLine>)
    requires token !in t.staged && RowsFor(pending, lines) && DistinctStarts(lines)
    ensures StagingInv(Begin(t, d, token).StagedFor(token), pending, lines)
  {
    assert lines[..0] == [] && lines[0..] == lines;
    assert Begin(t, d, token).StagedFor(token) == map[];
  }

  lemma StartKeepsInv(w: World, event: Event, w': World, key: string, maxBytes: nat)
    requires Inv(w, key, maxBytes) && event.Start? && Step(w, event, w', key, maxBytes)
    ensures Inv(w', key, maxBytes)
  {
    var scan := w'.scan.value;
    PlanFits(w, key, event.steady, maxBytes);
    OntoDistinct([], w.file, scan.plan.Start(), maxBytes, scan.plan.FirstLineNo());
    FreshStaging(event.token, w.tables, Hydrate(key, w.file), event.pending, LinesRead(scan.plan, w.file, maxBytes));
    if w.tables.source.Some? && w.tables.source.value.snapshotRevision != 0 {
      var n: nat :| n <= |w.file| && Current(w.tables, key, w.file[..n], maxBytes);
      StillCurrent(w.tables, w'.tables, key, w.file[..n], maxBytes);
    }
    if scan.plan.AppendScan? {
      var n: nat :| n < |w.file| && Current(w.tables, key, w.file[..n], maxBytes) && Resumes(scan.plan, w.file[..n]);
      StillCurrent(w.tables, w'.tables, key, w.file[..n], maxBytes);
      assert PlanInv(w'.tables, scan, key, maxBytes);
    }
  }

  /** Changing staged rows only leaves the committed side alone. */
  lemma CommittedUntouched(w: World, w': World, key: string, maxBytes: nat)
    requires CommittedInv(w, key, maxBytes) && w'.file == w.file
    requires w'.tables.source == w.tables.source && w'.tables.committed == w.tables.committed
    ensures CommittedInv(w', key, maxBytes)
  {
    if w.tables.source.Some? && w.tables.source.value.snapshotRevision != 0 {
      var n: nat :| n <= |w.file| && Current(w.tables, key, w.file[..n], maxBytes);
      StillCurrent(w.tables, w'.tables, key, w.file[..n], maxBytes);
    }
  }

  lemma PlanUntouched(t: Tables, t': Tables, scan: Scan, scan': Scan, key: string, maxBytes: nat)
    requires PlanInv(t, scan, key, maxBytes) && t'.source == t.source && t'.committed == t.committed
    requires scan'.plan == scan.plan && scan'.snapshot == scan.snapshot
    ensures PlanInv(t', scan', key, maxBytes)
  {
    var n: nat :| n < |scan.snapshot| && Current(t, key, scan.snapshot[..n], maxBytes) && Resumes(scan.plan, scan.snapshot[..n]);
    StillCurrent(t, t', key, scan.snapshot[..n], maxBytes);
  }

  lemma SplitRowsFor(rows: seq<(RawId, RawRow)>, lines: seq<ReadLine>, lo: nat, count: nat)
    requires lo <= |lines| && RowsFor(rows, lines[lo..]) && count <= |rows|
    ensures RowsFor(rows[..count], lines[lo..lo + count]) && RowsFor(rows[count..], lines[lo + count..])
  {
    assert lines[lo..][..count] == lines[lo..lo + count];
    assert lines[lo..][count..] == lines[lo + count..];
  }

  lemma StagedUpTo(lines: seq<ReadLine>, lo: nat, count: nat)
    requires lo + count <= |lines|
    ensures lines[..lo] + lines[lo..lo + count] == lines[..lo + count]
  {
  }

  lemma BatchKeepsStaging(
    staged: map<RawId, RawRow>, pending: seq<(RawId, RawRow)>, lines: seq<ReadLine>, count: nat)
    requires StagingInv(staged, pending, lines) && count <= |pending|
    ensures StagingInv(UpsertAll(staged, pending[..count]), pending[count..], lines)
  {
    var lo := |lines| - |pending|;
    SplitRowsFor(pending, lines, lo, count);
    StageMany(staged, lines[..lo], pending[..count], lines[lo..lo + count]);
    StagedUpTo(lines, lo, count);
    assert |lines| - |pending[count..]| == lo + count;
  }

  lemma BatchKeepsInv(w: World, event: Event, w': World, key: string, maxBytes: nat)
    requires Inv(w, key, maxBytes) && event.Batch? && Step(w, event, w', key, maxBytes)
    ensures Inv(w', key, maxBytes)
  {
    var scan := w.scan.value;
    CommittedUntouched(w, w', key, maxBytes);
    if scan.plan.AppendScan? {
      PlanUntouched(w.tables, w'.tables, scan, w'.scan.value, key, maxBytes);
    }
    BatchKeepsStaging(w.tables.StagedFor(scan.token), scan.pending, LinesRead(scan.plan, scan.snapshot, maxBytes), event.count);
  }

  // ---------- Finishing ----------

  lemma RowsKept(rows: map<RawId, RawRow>, before: seq<byte>, maxBytes: nat)
    requires RowsMatch(rows, Lines(before, maxBytes))
    ensures RowsMatch(RowsBefore(rows, StableEnd(before, 0)), TerminatedOnto([], before, 0, maxBytes, 1))
  {
    var e := StableEnd(before, 0);
    var tail := if e < |before| then [TailLine(before[e..|before|], 1 + LineCount(before, 0), e)] else [];
    TailFollowsTerminated([], before, 0, maxBytes, 1);
    TerminatedBelow([], before, 0, maxBytes, 1, e);
    KeepBelow(rows, TerminatedOnto([], before, 0, maxBytes, 1), tail, e);
  }

  /** The committed rows after a finish are those of one fresh full scan of the snapshot. */
  lemma FinishRows(t: Tables, file: seq<byte>, scan: Scan, key: string, maxBytes: nat)
    requires ScanInv(t, file, scan, key, maxBytes) && scan.pending == []
    ensures RowsMatch(Finish(t, scan.token, scan.plan, SummaryOf(scan), FinalTail(scan)).committed,
                      Lines(scan.snapshot, maxBytes))
  {
    var staged, read := t.StagedFor(scan.token), LinesRead(scan.plan, scan.snapshot, maxBytes);
    assert read[..|read|] == read;
    var start := scan.plan.Start();
    OntoAbove([], scan.snapshot, start, maxBytes, scan.plan.FirstLineNo(), start);
    if scan.plan.AppendScan? {
      var n: nat :| n < |scan.snapshot| && Current(t, key, scan.snapshot[..n], maxBytes) && Resumes(scan.plan, scan.snapshot[..n]);
      var before := scan.snapshot[..n];
      RowsKept(t.committed, before, maxBytes);
      TerminatedBelow([], before, 0, maxBytes, 1, start);
      MergeDisjoint(RowsBefore(t.committed, start), staged, LinesKept(scan.plan, before, maxBytes), read, start);
      KeptAndReadAreAll(before, scan.snapshot, scan.plan, maxBytes);
    } else {
      MergeDisjoint(map[], staged, [], read, start);
      assert [] + read == read;
    }
  }

  /** The source row after a finish records the snapshot: windows, size and checkpoint. */
  lemma FinishRecords(t: Tables, file: seq<byte>, scan: Scan, key: string, maxBytes: nat)
    requires ScanInv(t, file, scan, key, maxBytes)
    ensures Records(Finish(t, scan.token, scan.plan, SummaryOf(scan), FinalTail(scan)).source.value, key, scan.snapshot)
  {
    var snapshot := scan.snapshot;
    if scan.plan.AppendScan? {
      var n: nat :| n < |snapshot| && Current(t, key, snapshot[..n], maxBytes) && Resumes(scan.plan, snapshot[..n]);
      AppendTailIsFullTail(snapshot[..n], snapshot, scan.plan.checkpointOffset);
      StableEndIsMonotone(snapshot[..n], snapshot, 0);
    } else {
      assert LastBytes([], FINGERPRINT_BYTES) + snapshot[0..] == snapshot;
    }
  }

  lemma CommitKeepsInv(w: World, event: Event, w': World, key: string, maxBytes: nat)
    requires Inv(w, key, maxBytes) && event.Commit? && Step(w, event, w', key, maxBytes)
    ensures Inv(w', key, maxBytes)
    ensures Current(w'.tables, key, w.scan.value.snapshot, maxBytes) && w.scan.value.snapshot <= w'.file
  {
    var scan := w.scan.value;
    FinishRows(w.tables, w.file, scan, key, maxBytes);
    FinishRecords(w.tables, w.file, scan, key, maxBytes);
    assert w'.file[..|scan.snapshot|] == scan.snapshot;
  }

  lemma OtherStepsKeepInv(w: World, event: Event, w': World, key: string, maxBytes: nat)
    requires Inv(w, key, maxBytes) && Step(w, event, w', key, maxBytes)
    requires event.Abort? || event.Cancel? || event.Collect?
    ensures Inv(w', key, maxBytes)
  {
    CommittedUntouched(w, w', key, maxBytes);
    if event.Collect? && w.scan.Some? && w.scan.value.plan.AppendScan? {
      PlanUntouched(w.tables, w'.tables, w.scan.value, w.scan.value, key, maxBytes);
    }
  }

  lemma StepKeepsInv(w: World, event: Event, w': World, key: string, maxBytes: nat)
    requires Inv(w, key, maxBytes) && Step(w, event, w', key, maxBytes)
    ensures Inv(w', key, maxBytes)
  {
    match event
    case Grow(more) => GrowKeepsInv(w, more, key, maxBytes);
    case Start(_, _, _, _) => StartKeepsInv(w, event, w', key, maxBytes);
    case Batch(_) => BatchKeepsInv(w, event, w', key, maxBytes);
    case Commit => CommitKeepsInv(w, event, w', key, maxBytes);
    case Abort => OtherStepsKeepInv(w, event, w', key, maxBytes);
    case Cancel => OtherStepsKeepInv(w, event, w', key, maxBytes);
    case Collect(_) => OtherStepsKeepInv(w, event, w', key, maxBytes);
  }

  // ---------- The theorems ----------

  /** A run from an empty index: `ws[i]` and `ws[i + 1]` are one event apart. */
  ghost predicate IsRun(ws: seq<World>, events: seq<Event>, key: string, maxBytes: nat) {
    && |ws| == |events| + 1
    && ws[0].tables == Tables(None, map[], map[]) && ws[0].scan.None?
    && forall i | 0 <= i < |events| :: Step(ws[i], events[i], ws[i + 1], key, maxBytes)
  }

  lemma {:induction false} RunKeepsInv(ws: seq<World>, events: seq<Event>, key: string, maxBytes: nat, i: nat)
    requires IsRun(ws, events, key, maxBytes) && i < |ws|
    ensures Inv(ws[i], key, maxBytes)
  {
    if i > 0 {
      RunKeepsInv(ws, events, key, maxBytes, i - 1);
      StepKeepsInv(ws[i - 1], events[i - 1], ws[i], key, maxBytes);
    }
  }

  /**
   In every run, the rows committed by a finish are exactly those of one fresh full scan of the
   snapshot it read, one row per line, whatever mixture of scans came before.
   */
  lemma EveryFinishIsAFreshFullScan(ws: seq<World>, events: seq<Event>, key: string, maxBytes: nat, i: nat)
    requires IsRun(ws, events, key, maxBytes) && i < |events| && events[i].Commit?
    ensures ws[i].scan.Some?
    ensures var snapshot := ws[i].scan.value.snapshot;
      && snapshot <= ws[i + 1].file
      && RowsMatch(ws[i + 1].tables.committed, Lines(snapshot, maxBytes))
      && ws[i + 1].tables.committed.Values == RowsOf(Lines(snapshot, maxBytes))
      && ws[i + 1].tables.source.value.snapshotTailHash == Some(Sha256(LastBytes(snapshot, FINGERPRINT_BYTES)))
  {
    RunKeepsInv(ws, events, key, maxBytes, i);
    CommitKeepsInv(ws[i], events[i], ws[i + 1], key, maxBytes);
    MatchingRowsAreTheLines(ws[i + 1].tables.committed, Lines(ws[i].scan.value.snapshot, maxBytes));
  }

  /** Nothing a client reads changes between finishes, however many scans start, stage and abort. */
  lemma {:induction false} NothingChangesBeforeAFinish(
    ws: seq<World>, events: seq<Event>, key: string, maxBytes: nat, lo: nat, hi: nat)
    requires IsRun(ws, events, key, maxBytes) && lo <= hi < |ws|
    requires forall i | lo <= i < hi :: !events[i].Commit?
    ensures ws[hi].tables.committed == ws[lo].tables.committed
    decreases hi - lo
  {
    if lo < hi {
      NothingChangesBeforeAFinish(ws, events, key, maxBytes, lo, hi - 1);
      assert Step(ws[hi - 1], events[hi - 1], ws[hi], key, maxBytes);
    }
  }

  /** How many of the first i events are commits. */
  function Commits(events: seq<Event>, i: nat): nat
    requires i <= |events|
  {
    if i == 0 then 0 else Commits(events, i - 1) + if events[i - 1].Commit? then 1 else 0
  }

  function Revision(t: Tables): int {
    if t.source.Some? then t.source.value.snapshotRevision else 0
  }

  /** In every run the revision that clients compare counts the commits, whatever else happened. */
  lemma {:induction false} RevisionCountsCommits(ws: seq<World>, events: seq<Event>, key: string, maxBytes: nat, i: nat)
    requires IsRun(ws, events, key, maxBytes) && i < |ws|
    ensures Revision(ws[i].tables) == Commits(events, i)
  {
    if i > 0 {
      RevisionCountsCommits(ws, events, key, maxBytes, i - 1);
      assert Step(ws[i - 1], events[i - 1], ws[i], key, maxBytes);
    }
  }

  /** In every reachable state a scan can be planned, and once the file has grown it is an append. */
  lemma ScansOfAGrownFileAppend(ws: seq<World>, events: seq<Event>, key: string, maxBytes: nat, i: nat)
    requires IsRun(ws, events, key, maxBytes) && i < |ws|
    ensures var w := ws[i];
      var p := AppendPlan(w.tables.source, Hydrate(key, w.file), OpenedFile(key, w.file, true));
      && p.Planned?
      && (p.plan.AppendScan? <==>
            w.tables.source.Some? && w.tables.source.value.snapshotSizeBytes.Some?
            && w.tables.source.value.snapshotSizeBytes.value < |w.file|)
  {
    var w := ws[i];
    RunKeepsInv(ws, events, key, maxBytes, i);
    PlanFits(w, key, true, maxBytes);
    if w.tables.source.Some? && w.tables.source.value.snapshotRevision != 0 {
      var n: nat :| n <= |w.file| && Current(w.tables, key, w.file[..n], maxBytes);
      AppendChosenIff(w.tables.source.value, key, w.file[..n], OpenedFile(key, w.file, true));
      assert n < |w.file| && n >= FINGERPRINT_BYTES ==> HeadBytes(w.file) == HeadBytes(w.file[..n]);
    }
  }

  /**
   The checkpoint hash a finish stores is the hash of the file's prefix, as `verify_checkpoint`
   reads it, exactly when the scan started at the beginning: an append scan resumes with a fresh
   hasher and stores the hash of the appended part only.
   */
  lemma StoredCheckpointVerifiesIffFromStart(scan: Scan)
    requires scan.plan.Start() <= |scan.snapshot|
    ensures CheckpointVerifies(scan.snapshot, FileCheckpoint(SummaryOf(scan).stableBytes, SummaryOf(scan).stableHash))
       <==> scan.plan.Start() == 0
  {
    var start := scan.plan.Start();
    ResumedCheckpointVerifiesIff(scan.snapshot, start, []);
    assert [] + scan.snapshot[start..StableEnd(scan.snapshot, start)] == scan.snapshot[start..StableEnd(scan.snapshot, start)];
  }
}
