/**
 The index tables of one rollout file and the plan that decides whether a grown file may be resumed.
 SQL tables are maps; a transaction is one step on them. Hashes are collision free.
 */
module ScanIndex {
  import opened Common
  import opened JsonlReader
  import opened TailWindow

  type Token = nat

  type Hash = Digest<seq<byte>>

  /** `raw_ref_id`: a collision-free name for a stretch of a session's rollout. */
  datatype RawId = RawId(session: string, offset: nat, length: nat)

  datatype RawRow = RawRow(lineNo: nat, byteOffset: nat, byteLength: nat, contentHash: Hash, oversize: bool)

  /** The columns of `source_files` that a scan reads or writes; signed integers as SQLite keeps them. */
  datatype SourceFile = SourceFile(
    fileKey: string,
    sizeBytes: int,
    headHash: Option<Hash>,
    tailHash: Option<Hash>,
    snapshotFileKey: Option<string>,
    snapshotSizeBytes: Option<int>,
    snapshotHeadHash: Option<Hash>,
    snapshotTailHash: Option<Hash>,
    snapshotRevision: int,
    checkpointOffset: int,
    checkpointLine: int,
    checkpointHash: Option<Hash>,
    sessionId: Option<string>,
    scanToken: Option<Token>)

  /** One observation of the file: its identity, size and head window. */
  datatype Discovered = Discovered(fileKey: string, sizeBytes: nat, headHash: Option<Hash>)

  /** The file as the tail check opens it; `steady` when its identity did not change meanwhile. */
  datatype OpenedFile = OpenedFile(fileKey: string, bytes: seq<byte>, steady: bool)

  datatype ScanPlan =
    | FullScan
    | AppendScan(checkpointOffset: nat, checkpointLine: nat, tailSeed: seq<byte>)
  {
    function Start(): nat {
      if FullScan? then 0 else checkpointOffset
    }

    function Seed(): seq<byte> {
      if FullScan? then [] else tailSeed
    }

    function FirstLineNo(): nat {
      if FullScan? then 1 else checkpointLine + 1
    }
  }

  datatype PlanResult = Planned(plan: ScanPlan) | PlanError

  function HeadBytes(bytes: seq<byte>): seq<byte> {
    bytes[..Min(FINGERPRINT_BYTES, |bytes|)]
  }

  /** `hydrate_source_fingerprints`. */
  function Hydrate(fileKey: string, bytes: seq<byte>): Discovered {
    Discovered(fileKey, |bytes|, Some(Sha256(HeadBytes(bytes))))
  }

  function VerifyOldTail(discovered: Discovered, file: OpenedFile, oldSize: nat, expected: Hash): Option<seq<byte>> {
    if file.fileKey != discovered.fileKey || |file.bytes| < oldSize then None
    else
      var tail := LastBytes(file.bytes[..oldSize], FINGERPRINT_BYTES);
      if !file.steady || Sha256(tail) != expected then None else Some(tail)
  }

  function AppendPlan(source: Option<SourceFile>, discovered: Discovered, file: OpenedFile): PlanResult {
    if source.None? then Planned(FullScan)
    else
      var row := source.value;
      var oldSize := row.snapshotSizeBytes;
      var headMatches :=
        || (oldSize.Some? && oldSize.value < FINGERPRINT_BYTES)
        || row.snapshotHeadHash == discovered.headHash;
      var candidate :=
        && row.snapshotFileKey == Some(discovered.fileKey)
        && row.snapshotRevision > 0
        && oldSize.Some? && oldSize.value >= 0
        && discovered.sizeBytes > oldSize.value
        && headMatches
        && row.checkpointOffset >= 0;
      if !candidate || row.snapshotTailHash.None? then Planned(FullScan)
      else
        var oldTail := VerifyOldTail(discovered, file, oldSize.value, row.snapshotTailHash.value);
        if oldTail.None? then Planned(FullScan)
        else if row.sessionId.None? || row.checkpointLine < 0 then PlanError
        else
          Planned(AppendScan(row.checkpointOffset, row.checkpointLine,
                             TailSeed(oldTail.value, oldSize.value, row.checkpointOffset)))
  }

  // ---------- What choosing to append means ----------

  /** The snapshot columns as a finished scan of `snapshot` leaves them. */
  ghost predicate Records(row: SourceFile, fileKey: string, snapshot: seq<byte>) {
    && row.snapshotFileKey == Some(fileKey)
    && row.snapshotSizeBytes == Some(|snapshot|)
    && row.snapshotHeadHash == Some(Sha256(HeadBytes(snapshot)))
    && row.snapshotTailHash == Some(Sha256(LastBytes(snapshot, FINGERPRINT_BYTES)))
    && row.snapshotRevision > 0
    && row.checkpointOffset == StableEnd(snapshot, 0)
    && row.checkpointLine == LineCount(snapshot, 0)
    && row.sessionId.Some?
  }

  /**
   Given the row of a finished scan of `old`, the plan appends exactly when the file kept its key,
   grew, held still, and agrees with the old snapshot on its guarded windows: the head window when
   the old snapshot fills it, and the tail window.
   */
  lemma AppendChosenIff(row: SourceFile, fileKey: string, before: seq<byte>, file: OpenedFile)
    requires Records(row, fileKey, before)
    ensures var p := AppendPlan(Some(row), Hydrate(file.fileKey, file.bytes), file);
      && p.Planned?
      && (p.plan.AppendScan? <==>
            && file.fileKey == fileKey && |file.bytes| > |before| && file.steady
            && (|before| >= FINGERPRINT_BYTES ==> HeadBytes(file.bytes) == HeadBytes(before))
            && LastBytes(file.bytes[..|before|], FINGERPRINT_BYTES) == LastBytes(before, FINGERPRINT_BYTES))
  {
  }

  /** A file that kept its key and its old bytes and grew is always resumed, at the right place. */
  lemma GrownFileIsResumed(row: SourceFile, fileKey: string, before: seq<byte>, file: OpenedFile)
    requires Records(row, fileKey, before)
    requires file.fileKey == fileKey && file.steady && before <= file.bytes && |before| < |file.bytes|
    ensures AppendPlan(Some(row), Hydrate(fileKey, file.bytes), file)
         == Planned(AppendScan(StableEnd(before, 0), LineCount(before, 0),
                               TailSeed(LastBytes(before, FINGERPRINT_BYTES), |before|, StableEnd(before, 0))))
  {
    assert file.bytes[..|before|] == before;
    assert |before| >= FINGERPRINT_BYTES ==> HeadBytes(file.bytes) == HeadBytes(before);
  }

  /** For old snapshots that the two windows cover, choosing to append proves an exact prefix. */
  lemma AppendProvesPrefix(row: SourceFile, fileKey: string, before: seq<byte>, file: OpenedFile)
    requires Records(row, fileKey, before) && |before| <= 2 * FINGERPRINT_BYTES
    requires var p := AppendPlan(Some(row), Hydrate(file.fileKey, file.bytes), file);
      p.Planned? && p.plan.AppendScan?
    ensures before <= file.bytes
  {
    AppendChosenIff(row, fileKey, before, file);
    var n := |before|;
    var tail := LastBytes(before, FINGERPRINT_BYTES);
    var tailStart := n - |tail|;
    forall i | 0 <= i < n
      ensures before[i] == file.bytes[i]
    {
      if i >= tailStart {
        assert tail[i - tailStart] == before[i];
        assert LastBytes(file.bytes[..n], FINGERPRINT_BYTES)[i - tailStart] == file.bytes[i];
      } else {
        assert HeadBytes(before)[i] == before[i] && HeadBytes(file.bytes)[i] == file.bytes[i];
      }
    }
  }

  ghost predicate Appends(row: SourceFile, file: OpenedFile) {
    var p := AppendPlan(Some(row), Hydrate(file.fileKey, file.bytes), file);
    p.Planned? && p.plan.AppendScan?
  }

  /** Whatever lies beyond the two windows, a changed byte between them goes unnoticed. */
  lemma LongSnapshotMayBeRewrittenUnnoticed(row: SourceFile, fileKey: string, before: seq<byte>)
    requires |before| > 2 * FINGERPRINT_BYTES && Records(row, fileKey, before)
    ensures exists file: OpenedFile :: |file.bytes| > |before| && !(before <= file.bytes) && Appends(row, file)
  {
    var middle := FINGERPRINT_BYTES;
    var other: byte := if before[middle] == 0 then 1 else 0;
    var bytes := before[middle := other] + [0];
    var file := OpenedFile(fileKey, bytes, true);
    assert bytes[middle] != before[middle];
    assert HeadBytes(bytes) == HeadBytes(before);
    assert bytes[..|before|] == before[middle := other];
    assert LastBytes(bytes[..|before|], FINGERPRINT_BYTES) == LastBytes(before, FINGERPRINT_BYTES);
    AppendChosenIff(row, fileKey, before, file);
  }

  /** So planning an append proves that the old snapshot is a prefix exactly up to 128 KiB. */
  lemma AppendIsProofIff(row: SourceFile, fileKey: string, before: seq<byte>)
    requires Records(row, fileKey, before)
    ensures (forall file: OpenedFile :: Appends(row, file) ==> before <= file.bytes) <==> |before| <= 2 * FINGERPRINT_BYTES
  {
    if |before| <= 2 * FINGERPRINT_BYTES {
      forall file: OpenedFile | Appends(row, file)
        ensures before <= file.bytes
      {
        AppendProvesPrefix(row, fileKey, before, file);
      }
    } else {
      LongSnapshotMayBeRewrittenUnnoticed(row, fileKey, before);
    }
  }

  /** Where the last 64 KiB of a snapshot of this size begin. */
  function TailStart(size: nat): nat {
    if size > 65536 then size - 65536 else 0
  }

  /**
   The row of a finished scan of an older, smaller version of this file, which still agrees with it:
   in its first 64 KiB when the snapshot filled them, and in the snapshot's last 64 KiB.
   */
  ghost predicate Resumable(row: SourceFile, discovered: Discovered, file: OpenedFile) {
    && row.snapshotFileKey == Some(discovered.fileKey) && file.fileKey == discovered.fileKey && file.steady
    && row.snapshotRevision > 0 && row.checkpointOffset >= 0
    && row.snapshotSizeBytes.Some?
    && var size := row.snapshotSizeBytes.value;
       && 0 <= size < discovered.sizeBytes && size <= |file.bytes|
       && (size >= 65536 ==> row.snapshotHeadHash == discovered.headHash)
       && row.snapshotTailHash == Some(Sha256(file.bytes[TailStart(size)..size]))
  }

  /**
   The plan for any row at all: an append exactly for a resumable one, from its checkpoint with the
   bytes of the old tail before it; an error when a resumable row names no session or a negative line.
   */
  lemma PlansExactly(row: SourceFile, discovered: Discovered, file: OpenedFile)
    ensures var p := AppendPlan(Some(row), discovered, file);
      if !Resumable(row, discovered, file) then p == Planned(FullScan)
      else if row.sessionId.None? || row.checkpointLine < 0 then p == PlanError
      else
        var size := row.snapshotSizeBytes.value;
        var start := TailStart(size);
        var end := if row.checkpointOffset > size then size
                   else if row.checkpointOffset < start then start else row.checkpointOffset;
        p == Planned(AppendScan(row.checkpointOffset, row.checkpointLine, file.bytes[start..end]))
  {
    if row.snapshotSizeBytes.Some? && 0 <= row.snapshotSizeBytes.value <= |file.bytes| {
      var size := row.snapshotSizeBytes.value;
      assert LastBytes(file.bytes[..size], FINGERPRINT_BYTES) == file.bytes[TailStart(size)..size];
      if row.checkpointOffset >= 0 {
        SeedIsBeforeCheckpoint(file.bytes, size, row.checkpointOffset);
      }
    }
  }

  lemma SeedIsBeforeCheckpoint(bytes: seq<byte>, size: nat, checkpoint: nat)
    requires size <= |bytes|
    ensures var start := TailStart(size);
      var end := if checkpoint > size then size else if checkpoint < start then start else checkpoint;
      TailSeed(bytes[start..size], size, checkpoint) == bytes[start..end]
  {
    var start := TailStart(size);
    var tail := bytes[start..size];
    assert |tail| == size - start <= FINGERPRINT_BYTES;
  }

  /** Without a row there is nothing to resume. */
  lemma NoRowIsFullScan(discovered: Discovered, file: OpenedFile)
    ensures AppendPlan(None, discovered, file) == Planned(FullScan)
  {
  }

  // ---------- The tables ----------

  datatype Tables = Tables(
    source: Option<SourceFile>,
    staged: map<Token, map<RawId, RawRow>>,
    committed: map<RawId, RawRow>)
  {
    /** The staged rows of one scan. */
    function StagedFor(token: Token): map<RawId, RawRow> {
      if token in staged then staged[token] else map[]
    }
  }

  datatype Summary = Summary(
    sessionId: string, rawRecordCount: nat, incompleteTail: bool, stableBytes: nat, stableHash: Hash)

  /** `ON CONFLICT(id) DO UPDATE`: an existing row keeps its place and takes the new hash and flag. */
  function Upsert(rows: map<RawId, RawRow>, id: RawId, row: RawRow): map<RawId, RawRow> {
    if id in rows then rows[id := rows[id].(contentHash := row.contentHash, oversize := row.oversize)]
    else rows[id := row]
  }

  function UpsertAll(rows: map<RawId, RawRow>, more: seq<(RawId, RawRow)>): map<RawId, RawRow> {
    if more == [] then rows
    else
      var n := |more| - 1;
      Upsert(UpsertAll(rows, more[..n]), more[n].0, more[n].1)
  }

  /** `INSERT INTO raw_records SELECT ... ON CONFLICT(id) DO UPDATE`, over a whole staged set. */
  function Merge(rows: map<RawId, RawRow>, more: map<RawId, RawRow>): map<RawId, RawRow> {
    map id | id in rows.Keys + more.Keys ::
      if id !in rows then more[id]
      else if id !in more then rows[id]
      else rows[id].(contentHash := more[id].contentHash, oversize := more[id].oversize)
  }

  function RowsBefore(rows: map<RawId, RawRow>, offset: nat): map<RawId, RawRow> {
    map id | id in rows && rows[id].byteOffset < offset :: rows[id]
  }

  function EmptySource(discovered: Discovered): SourceFile {
    SourceFile(discovered.fileKey, discovered.sizeBytes, discovered.headHash, None,
               None, None, None, None, 0, 0, 0, None, None, None)
  }

  function Begin(t: Tables, discovered: Discovered, token: Token): Tables {
    var row := if t.source.Some? then t.source.value else EmptySource(discovered);
    Tables(
      Some(row.(fileKey := discovered.fileKey, sizeBytes := discovered.sizeBytes, headHash := discovered.headHash,
                tailHash := None, scanToken := Some(token))),
      t.staged - {token}, t.committed)
  }

  function Stage(t: Tables, token: Token, rows: seq<(RawId, RawRow)>): Tables {
    t.(staged := t.staged[token := UpsertAll(t.StagedFor(token), rows)])
  }

  function Finish(t: Tables, token: Token, plan: ScanPlan, s: Summary, finalTail: Hash): Tables
    requires t.source.Some?
  {
    var kept := if plan.FullScan? then map[] else RowsBefore(t.committed, plan.checkpointOffset);
    var row := t.source.value;
    Tables(
      Some(row.(sessionId := Some(s.sessionId), checkpointOffset := s.stableBytes,
                checkpointLine := SaturatingSub(s.rawRecordCount, if s.incompleteTail then 1 else 0),
                checkpointHash := Some(s.stableHash), tailHash := Some(finalTail),
                snapshotFileKey := Some(row.fileKey), snapshotSizeBytes := Some(row.sizeBytes),
                snapshotHeadHash := row.headHash, snapshotTailHash := Some(finalTail),
                snapshotRevision := row.snapshotRevision + 1, scanToken := None)),
      t.staged - {token},
      Merge(kept, t.StagedFor(token)))
  }

  function Discard(t: Tables, token: Token): Tables {
    t.(staged := t.staged - {token})
  }

  /** Upserting a row: a name already there keeps its place and takes the new hash and flag; other names stay. */
  lemma UpsertsExactly(rows: map<RawId, RawRow>, id: RawId, row: RawRow, other: RawId)
    ensures var after := Upsert(rows, id, row);
      && (other in after <==> other == id || other in rows)
      && (other != id && other in rows ==> after[other] == rows[other])
      && after[id].contentHash == row.contentHash && after[id].oversize == row.oversize
      && var place := if id in rows then rows[id] else row;
         after[id].lineNo == place.lineNo && after[id].byteOffset == place.byteOffset && after[id].byteLength == place.byteLength
  {
  }

  /** A commit keeps the rows before the checkpoint of an append, and moves all of the token's rows in. */
  lemma CommitMovesTheRows(t: Tables, token: Token, plan: ScanPlan, s: Summary, finalTail: Hash, id: RawId)
    requires t.source.Some?
    ensures var after, staged := Finish(t, token, plan, s, finalTail).committed, t.StagedFor(token);
      var kept := plan.AppendScan? && id in t.committed && t.committed[id].byteOffset < plan.checkpointOffset;
      && (id in after <==> kept || id in staged)
      && (kept && id !in staged ==> after[id] == t.committed[id])
      && (!kept && id in staged ==> after[id] == staged[id])
      && (kept && id in staged ==>
            after[id] == t.committed[id].(contentHash := staged[id].contentHash, oversize := staged[id].oversize))
  {
    var rows := if plan.FullScan? then map[] else RowsBefore(t.committed, plan.checkpointOffset);
    var kept := plan.AppendScan? && id in t.committed && t.committed[id].byteOffset < plan.checkpointOffset;
    assert kept <==> id in rows;
    assert kept ==> rows[id] == t.committed[id];
    assert Finish(t, token, plan, s, finalTail).committed == Merge(rows, t.StagedFor(token));
  }

  /** Beginning a scan notes what is scanned and by whom; the last snapshot and what is read stay as they are. */
  lemma BeginKeepsTheSnapshot(t: Tables, discovered: Discovered, token: Token)
    ensures var t' := Begin(t, discovered, token);
      && t'.committed == t.committed && t'.StagedFor(token) == map[]
      && (forall other :: other != token ==> t'.StagedFor(other) == t.StagedFor(other))
      && t'.source.Some?
      && var row := t'.source.value;
         && row.fileKey == discovered.fileKey && row.sizeBytes == discovered.sizeBytes && row.headHash == discovered.headHash
         && row.tailHash.None? && row.scanToken == Some(token)
         && if t.source.Some? then
              row == t.source.value.(fileKey := row.fileKey, sizeBytes := row.sizeBytes, headHash := row.headHash,
                                     tailHash := None, scanToken := Some(token))
            else
              && row.snapshotFileKey.None? && row.snapshotSizeBytes.None? && row.snapshotHeadHash.None?
              && row.snapshotTailHash.None? && row.checkpointHash.None? && row.sessionId.None?
              && row.snapshotRevision == 0 && row.checkpointOffset == 0 && row.checkpointLine == 0
  {
  }

  /** A commit makes what was scanned the snapshot, under the next revision, and lets go of its token. */
  lemma CommitRecordsTheScan(t: Tables, token: Token, plan: ScanPlan, s: Summary, finalTail: Hash)
    requires t.source.Some?
    ensures var before, t' := t.source.value, Finish(t, token, plan, s, finalTail);
      && t'.StagedFor(token) == map[]
      && (forall other :: other != token ==> t'.StagedFor(other) == t.StagedFor(other))
      && t'.source.Some?
      && var row := t'.source.value;
         && row.snapshotRevision == before.snapshotRevision + 1 && row.scanToken.None?
         && row.sessionId == Some(s.sessionId)
         && row.snapshotFileKey == Some(before.fileKey) && row.snapshotSizeBytes == Some(before.sizeBytes)
         && row.snapshotHeadHash == before.headHash
         && row.snapshotTailHash == row.tailHash == Some(finalTail)
         && row.checkpointOffset == s.stableBytes && row.checkpointHash == Some(s.stableHash)
         && row.checkpointLine == (if s.incompleteTail && s.rawRecordCount > 0 then s.rawRecordCount - 1 else s.rawRecordCount)
         && row.fileKey == before.fileKey && row.sizeBytes == before.sizeBytes && row.headHash == before.headHash
  {
  }

  /** The writer's database, updated statement by statement inside each transaction. */
  class IndexDatabase {
    var source: Option<SourceFile>
    var staged: map<Token, map<RawId, RawRow>>
    var committed: map<RawId, RawRow>

    function View(): Tables
      reads this
    {
      Tables(source, staged, committed)
    }

    constructor ()
      ensures View() == Tables(None, map[], map[])
    {
      source, staged, committed := None, map[], map[];
    }

    method CleanupToken(token: Token)
      modifies this`staged
      ensures View() == Discard(old(View()), token)
    {
      staged := staged - {token};
    }

    method AbortScan(token: Token)
      modifies this`staged
      ensures View() == Discard(old(View()), token)
    {
      CleanupToken(token);
    }

    method BeginScan(discovered: Discovered, token: Token)
      modifies this
      ensures View() == Begin(old(View()), discovered, token)
    {
      if source.None? {
        source := Some(EmptySource(discovered));
      }
      source := Some(source.value.(fileKey := discovered.fileKey, sizeBytes := discovered.sizeBytes,
                                   headHash := discovered.headHash, tailHash := None, scanToken := Some(token)));
      AbortScan(token);
    }

    method WriteBatch(token: Token, rows: seq<(RawId, RawRow)>)
      modifies this`staged
      ensures View() == Stage(old(View()), token, rows)
    {
      var mine := View().StagedFor(token);
      ghost var first := mine;
      for i := 0 to |rows|
        invariant mine == UpsertAll(first, rows[..i])
        invariant staged == old(staged)
      {
        mine := Upsert(mine, rows[i].0, rows[i].1);
        assert rows[..i + 1][..i] == rows[..i];
      }
      assert rows[..|rows|] == rows;
      staged := staged[token := mine];
    }

    method FinishScan(token: Token, plan: ScanPlan, summary: Summary, finalTail: Hash)
      requires source.Some?
      modifies this
      ensures View() == Finish(old(View()), token, plan, summary, finalTail)
    {
      if plan.FullScan? {
        committed := map[];
      }
      if plan.AppendScan? {
        committed := RowsBefore(committed, plan.checkpointOffset);
      }
      committed := Merge(committed, View().StagedFor(token));
      var row := source.value;
      source := Some(row.(sessionId := Some(summary.sessionId), checkpointOffset := summary.stableBytes,
                          checkpointLine := SaturatingSub(summary.rawRecordCount, if summary.incompleteTail then 1 else 0),
                          checkpointHash := Some(summary.stableHash), tailHash := Some(finalTail),
                          snapshotFileKey := Some(row.fileKey), snapshotSizeBytes := Some(row.sizeBytes),
                          snapshotHeadHash := row.headHash, snapshotTailHash := Some(finalTail),
                          snapshotRevision := row.snapshotRevision + 1, scanToken := None));
      CleanupToken(token);
    }
  }
}
