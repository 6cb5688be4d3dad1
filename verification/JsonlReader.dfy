/**
 The bounded JSONL reader of the rollout index: it cuts a byte stream, delivered in arbitrary
 buffer chunks, into newline-terminated lines, and keeps a checkpoint just after the last newline.
 A streaming hasher is modelled by the bytes it has absorbed.
 */
module JsonlReader {
  import opened Common

  const NEWLINE: byte := 10

  datatype LineReadStatus = Complete | Oversize | IncompleteTail

  datatype ReadLine = ReadLine(
    lineNo: nat,
    byteOffset: nat,
    byteLength: nat,
    contentHash: Digest<seq<byte>>,
    status: LineReadStatus,
    bytes: Option<seq<byte>>)

  datatype FileCheckpoint = FileCheckpoint(offset: nat, prefixHash: Digest<seq<byte>>)

  // ---------- Specification: what the lines of a file are ----------

  /** The position of the first newline at or after `pos`, or the length when there is none. */
  function NewlineFrom(file: seq<byte>, pos: nat): (n: nat)
    requires pos <= |file|
    ensures pos <= n <= |file|
    ensures n < |file| ==> file[n] == NEWLINE
    decreases |file| - pos
  {
    if pos == |file| || file[pos] == NEWLINE then pos else NewlineFrom(file, pos + 1)
  }

  function TerminatedLine(body: seq<byte>, maxBytes: nat, lineNo: nat, offset: nat): ReadLine {
    if |body| > maxBytes then
      ReadLine(lineNo, offset, |body|, Sha256(body), Oversize, None)
    else
      ReadLine(lineNo, offset, |body|, Sha256(body), Complete, Some(body))
  }

  function TailLine(body: seq<byte>, lineNo: nat, offset: nat): ReadLine {
    ReadLine(lineNo, offset, |body|, Sha256(body), IncompleteTail, None)
  }

  /** The line that starts at `pos`, when a byte is there. */
  function LineAt(file: seq<byte>, pos: nat, maxBytes: nat, lineNo: nat): ReadLine
    requires pos < |file|
  {
    var n := NewlineFrom(file, pos);
    if n < |file| then TerminatedLine(file[pos..n], maxBytes, lineNo, pos) else TailLine(file[pos..n], lineNo, pos)
  }

  /** `acc` followed by the terminated lines of `file` from `pos` on; `pos` starts line `lineNo`. */
  function TerminatedOnto(acc: seq<ReadLine>, file: seq<byte>, pos: nat, maxBytes: nat, lineNo: nat): seq<ReadLine>
    requires pos <= |file|
    decreases |file| - pos
  {
    var n := NewlineFrom(file, pos);
    if n < |file| then
      TerminatedOnto(acc + [LineAt(file, pos, maxBytes, lineNo)], file, n + 1, maxBytes, lineNo + 1)
    else acc
  }

  /** `acc` followed by all lines of `file` from `pos` on, the incomplete tail included. */
  function LinesOnto(acc: seq<ReadLine>, file: seq<byte>, pos: nat, maxBytes: nat, lineNo: nat): seq<ReadLine>
    requires pos <= |file|
    decreases |file| - pos
  {
    if pos == |file| then acc
    else
      var n := NewlineFrom(file, pos);
      var more := acc + [LineAt(file, pos, maxBytes, lineNo)];
      if n < |file| then LinesOnto(more, file, n + 1, maxBytes, lineNo + 1) else more
  }

  /** The lines of a whole file. */
  function Lines(file: seq<byte>, maxBytes: nat): seq<ReadLine> {
    LinesOnto([], file, 0, maxBytes, 1)
  }

  /** The position just after the last newline at or after `pos`, or `pos` when there is none. */
  function StableEnd(file: seq<byte>, pos: nat): (e: nat)
    requires pos <= |file|
    ensures pos <= e <= |file|
    decreases |file| - pos
  {
    var n := NewlineFrom(file, pos);
    if n < |file| then StableEnd(file, n + 1) else pos
  }

  /** How many newlines there are at or after `pos`. */
  function LineCount(file: seq<byte>, pos: nat): nat
    requires pos <= |file|
    decreases |file| - pos
  {
    var n := NewlineFrom(file, pos);
    if n < |file| then 1 + LineCount(file, n + 1) else 0
  }

  // ---------- What the specification means ----------

  lemma {:induction false} NoNewlineBefore(file: seq<byte>, pos: nat)
    requires pos <= |file|
    ensures forall i :: pos <= i < NewlineFrom(file, pos) ==> file[i] != NEWLINE
    decreases |file| - pos
  {
    if pos < |file| && file[pos] != NEWLINE {
      NoNewlineBefore(file, pos + 1);
    }
  }

  /** The newline is where the newline-free stretch ends, at a newline or at the end of the file. */
  lemma {:induction false} NewlineIsAt(file: seq<byte>, pos: nat, n: nat)
    requires pos <= n <= |file| && (n < |file| ==> file[n] == NEWLINE)
    requires forall i :: pos <= i < n ==> file[i] != NEWLINE
    ensures NewlineFrom(file, pos) == n
    decreases n - pos
  {
    if pos < n {
      NewlineIsAt(file, pos + 1, n);
    }
  }

  /** `line` is a maximal newline-free segment of the file, classified by size and termination. */
  ghost predicate IsLineOf(file: seq<byte>, line: ReadLine, maxBytes: nat) {
    var at, end := line.byteOffset, line.byteOffset + line.byteLength;
    && at < |file| && end <= |file|
    && (at > 0 ==> file[at - 1] == 10)
    && (forall k :: at <= k < end ==> file[k] != 10)
    && (end < |file| ==> file[end] == 10)
    && line.contentHash == Sha256(file[at..end])
    && line.status == (if end == |file| then IncompleteTail else if line.byteLength > maxBytes then Oversize else Complete)
    && line.bytes == (if line.status.Complete? then Some(file[at..end]) else None)
  }

  lemma LineAtIsALine(file: seq<byte>, pos: nat, maxBytes: nat, lineNo: nat)
    requires pos < |file| && (pos > 0 ==> file[pos - 1] == NEWLINE)
    ensures IsLineOf(file, LineAt(file, pos, maxBytes, lineNo), maxBytes)
  {
    NoNewlineBefore(file, pos);
  }

  /** Where the line after `line` starts. */
  function NextStart(line: ReadLine): nat {
    line.byteOffset + line.byteLength + if line.status.IncompleteTail? then 0 else 1
  }

  /** Where the i-th line must start: at 0, or where the line before it ends. */
  function StartOf(ls: seq<ReadLine>, i: nat): nat
    requires i <= |ls|
  {
    if i == 0 then 0 else NextStart(ls[i - 1])
  }

  /**
   `ls` cuts `file[..end]` into its lines: the i-th one has number i+1, the first starts at 0, each
   starts where the one before ends, and the last ends at `end`.
   */
  ghost predicate Partitions(ls: seq<ReadLine>, file: seq<byte>, end: nat, maxBytes: nat) {
    && (forall i :: 0 <= i < |ls| ==> ls[i].lineNo == i + 1)
    && (forall i {:trigger IsLineOf(file, ls[i], maxBytes)} :: 0 <= i < |ls| ==> IsLineOf(file, ls[i], maxBytes))
    && (forall i {:trigger StartOf(ls, i)} :: 0 <= i < |ls| ==> ls[i].byteOffset == StartOf(ls, i))
    && (forall i :: 0 <= i < |ls| - 1 ==> !ls[i].status.IncompleteTail?)
    && end == StartOf(ls, |ls|)
  }

  lemma ExtendPartition(ls: seq<ReadLine>, file: seq<byte>, pos: nat, maxBytes: nat)
    requires pos < |file| && Partitions(ls, file, pos, maxBytes)
    ensures var line := LineAt(file, pos, maxBytes, |ls| + 1);
      Partitions(ls + [line], file, NextStart(line), maxBytes)
  {
    if ls != [] {
      assert IsLineOf(file, ls[|ls| - 1], maxBytes);
    }
    var line := LineAt(file, pos, maxBytes, |ls| + 1);
    LineAtIsALine(file, pos, maxBytes, |ls| + 1);
    var more := ls + [line];
    forall i | 0 <= i < |more|
      ensures more[i].lineNo == i + 1 && IsLineOf(file, more[i], maxBytes)
      ensures more[i].byteOffset == StartOf(more, i)
      ensures i < |more| - 1 ==> !more[i].status.IncompleteTail?
    {
      if i < |ls| {
        assert more[i] == ls[i] && StartOf(more, i) == StartOf(ls, i);
      }
    }
  }

  lemma {:induction false} LinesOntoPartitions(ls: seq<ReadLine>, file: seq<byte>, pos: nat, maxBytes: nat)
    requires pos <= |file| && Partitions(ls, file, pos, maxBytes)
    ensures Partitions(LinesOnto(ls, file, pos, maxBytes, |ls| + 1), file, |file|, maxBytes)
    decreases |file| - pos
  {
    if pos < |file| {
      ExtendPartition(ls, file, pos, maxBytes);
      if NewlineFrom(file, pos) < |file| {
        LinesOntoPartitions(ls + [LineAt(file, pos, maxBytes, |ls| + 1)], file, NewlineFrom(file, pos) + 1, maxBytes);
      }
    }
  }

  /** The lines of a file are its maximal newline-free segments, in order, covering every byte. */
  lemma LinesPartitionTheFile(file: seq<byte>, maxBytes: nat)
    ensures Partitions(Lines(file, maxBytes), file, |file|, maxBytes)
  {
    LinesOntoPartitions([], file, 0, maxBytes);
  }

  /** Only one list partitions a file, so `Partitions` says everything about the lines. */
  lemma {:induction false} PartitionIsUnique(xs: seq<ReadLine>, ys: seq<ReadLine>, file: seq<byte>, maxBytes: nat, k: nat)
    requires Partitions(xs, file, |file|, maxBytes) && Partitions(ys, file, |file|, maxBytes)
    requires k <= |xs|
    ensures k <= |ys| && xs[..k] == ys[..k]
  {
    if k > 0 {
      PartitionIsUnique(xs, ys, file, maxBytes, k - 1);
      assert xs[..k] == xs[..k - 1] + [xs[k - 1]];
      if k > 1 {
        assert xs[k - 2] == xs[..k - 1][k - 2] == ys[..k - 1][k - 2] == ys[k - 2];
      }
      assert IsLineOf(file, xs[k - 1], maxBytes) && xs[k - 1].byteOffset == StartOf(xs, k - 1);
      assert |ys| >= k;
      assert xs[k - 1].byteOffset == StartOf(xs, k - 1) == StartOf(ys, k - 1) == ys[k - 1].byteOffset;
      assert ys[..k] == ys[..k - 1] + [ys[k - 1]];
      SameStartSameLine(file, xs[k - 1], ys[k - 1], maxBytes);
    }
  }

  lemma SameStartSameLine(file: seq<byte>, x: ReadLine, y: ReadLine, maxBytes: nat)
    requires IsLineOf(file, x, maxBytes) && IsLineOf(file, y, maxBytes)
    requires x.byteOffset == y.byteOffset && x.lineNo == y.lineNo
    ensures x == y
  {
    NewlineIsAt(file, x.byteOffset, x.byteOffset + x.byteLength);
    NewlineIsAt(file, y.byteOffset, y.byteOffset + y.byteLength);
  }

  /** All lines are the terminated ones, plus the tail when the file does not end in a newline. */
  lemma {:induction false} TailFollowsTerminated(acc: seq<ReadLine>, file: seq<byte>, pos: nat, maxBytes: nat, lineNo: nat)
    requires pos <= |file|
    ensures var e := StableEnd(file, pos);
      LinesOnto(acc, file, pos, maxBytes, lineNo)
      == TerminatedOnto(acc, file, pos, maxBytes, lineNo)
         + if e < |file| then [TailLine(file[e..|file|], lineNo + LineCount(file, pos), e)] else []
    decreases |file| - pos
  {
    if pos < |file| && NewlineFrom(file, pos) < |file| {
      TailFollowsTerminated(acc + [LineAt(file, pos, maxBytes, lineNo)], file, NewlineFrom(file, pos) + 1, maxBytes, lineNo + 1);
    }
  }

  // ---------- Appending bytes ----------

  lemma {:induction false} NewlineInPrefix(p: seq<byte>, file: seq<byte>, pos: nat)
    requires p <= file && pos <= |p| && NewlineFrom(p, pos) < |p|
    ensures NewlineFrom(file, pos) == NewlineFrom(p, pos)
    decreases |p| - pos
  {
    if p[pos] != NEWLINE {
      NewlineInPrefix(p, file, pos + 1);
    }
  }

  lemma LineInPrefix(p: seq<byte>, file: seq<byte>, pos: nat, maxBytes: nat, lineNo: nat)
    requires p <= file && pos <= |p| && NewlineFrom(p, pos) < |p|
    ensures NewlineFrom(file, pos) == NewlineFrom(p, pos)
    ensures LineAt(file, pos, maxBytes, lineNo) == LineAt(p, pos, maxBytes, lineNo)
  {
    NewlineInPrefix(p, file, pos);
    assert file[pos..NewlineFrom(p, pos)] == p[pos..NewlineFrom(p, pos)];
  }

  lemma TerminatedStep(acc: seq<ReadLine>, more: seq<ReadLine>, file: seq<byte>, pos: nat, n: nat, maxBytes: nat, lineNo: nat)
    requires pos <= |file| && n == NewlineFrom(file, pos) < |file| && more == acc + [LineAt(file, pos, maxBytes, lineNo)]
    ensures TerminatedOnto(acc, file, pos, maxBytes, lineNo) == TerminatedOnto(more, file, n + 1, maxBytes, lineNo + 1)
  {
  }

  lemma StableStep(file: seq<byte>, pos: nat, n: nat)
    requires pos <= |file| && n == NewlineFrom(file, pos) < |file|
    ensures StableEnd(file, pos) == StableEnd(file, n + 1) && LineCount(file, pos) == 1 + LineCount(file, n + 1)
  {
  }

  lemma OntoStep(acc: seq<ReadLine>, more: seq<ReadLine>, file: seq<byte>, pos: nat, n: nat, maxBytes: nat, lineNo: nat)
    requires pos <= |file| && n == NewlineFrom(file, pos) < |file| && more == acc + [LineAt(file, pos, maxBytes, lineNo)]
    ensures LinesOnto(acc, file, pos, maxBytes, lineNo) == LinesOnto(more, file, n + 1, maxBytes, lineNo + 1)
  {
  }

  /**
   Resuming is sound: when `p` is a prefix of `file`, the lines of `file` are the terminated lines
   of `p` followed by what a reader started at the stable end of `p` gives.
   */
  lemma {:induction false} ResumeAtStableEnd(
    acc: seq<ReadLine>, p: seq<byte>, file: seq<byte>, pos: nat, maxBytes: nat, lineNo: nat,
    kept: seq<ReadLine>, end: nat, nextLine: nat)
    requires p <= file && pos <= |p|
    requires kept == TerminatedOnto(acc, p, pos, maxBytes, lineNo) && end == StableEnd(p, pos)
    requires nextLine == lineNo + LineCount(p, pos)
    ensures LinesOnto(acc, file, pos, maxBytes, lineNo) == LinesOnto(kept, file, end, maxBytes, nextLine)
    decreases |p| - pos
  {
    var n := NewlineFrom(p, pos);
    if n < |p| {
      LineInPrefix(p, file, pos, maxBytes, lineNo);
      var more := acc + [LineAt(p, pos, maxBytes, lineNo)];
      OntoStep(acc, more, file, pos, n, maxBytes, lineNo);
      TerminatedStep(acc, more, p, pos, n, maxBytes, lineNo);
      StableStep(p, pos, n);
      ResumeAtStableEnd(more, p, file, n + 1, maxBytes, lineNo + 1, kept, end, nextLine);
    }
  }

  /** The same for the terminated lines alone. */
  lemma {:induction false} ResumeTerminated(
    acc: seq<ReadLine>, p: seq<byte>, file: seq<byte>, pos: nat, maxBytes: nat, lineNo: nat,
    kept: seq<ReadLine>, end: nat, nextLine: nat)
    requires p <= file && pos <= |p|
    requires kept == TerminatedOnto(acc, p, pos, maxBytes, lineNo) && end == StableEnd(p, pos)
    requires nextLine == lineNo + LineCount(p, pos)
    ensures TerminatedOnto(acc, file, pos, maxBytes, lineNo) == TerminatedOnto(kept, file, end, maxBytes, nextLine)
    decreases |p| - pos
  {
    var n := NewlineFrom(p, pos);
    if n < |p| {
      LineInPrefix(p, file, pos, maxBytes, lineNo);
      var more := acc + [LineAt(p, pos, maxBytes, lineNo)];
      TerminatedStep(acc, more, file, pos, n, maxBytes, lineNo);
      TerminatedStep(acc, more, p, pos, n, maxBytes, lineNo);
      StableStep(p, pos, n);
      ResumeTerminated(more, p, file, n + 1, maxBytes, lineNo + 1, kept, end, nextLine);
    }
  }

  lemma {:induction false} StableEndIsMonotone(p: seq<byte>, file: seq<byte>, pos: nat)
    requires p <= file && pos <= |p|
    ensures StableEnd(file, pos) == StableEnd(file, StableEnd(p, pos))
    ensures LineCount(file, pos) == LineCount(p, pos) + LineCount(file, StableEnd(p, pos))
    decreases |p| - pos
  {
    var n := NewlineFrom(p, pos);
    if n < |p| {
      NewlineInPrefix(p, file, pos);
      StableEndIsMonotone(p, file, n + 1);
    }
  }

  // ---------- The buffered source ----------

  function Flatten(chunks: seq<seq<byte>>): seq<byte> {
    if chunks == [] then [] else chunks[0] + Flatten(chunks[1..])
  }

  /**
   `BufRead` over a bounded snapshot. Each element of `chunks` is what one refill of the buffer
   holds; an empty list is end of file. Every chunking is a possible initial value.
   */
  class ChunkedSource {
    var chunks: seq<seq<byte>>
    ghost var remaining: seq<byte>

    ghost predicate Valid()
      reads this
    {
      && remaining == Flatten(chunks)
      && forall i :: 0 <= i < |chunks| ==> chunks[i] != []
    }

    constructor (initial: seq<seq<byte>>)
      requires forall i :: 0 <= i < |initial| ==> initial[i] != []
      ensures Valid() && remaining == Flatten(initial)
    {
      chunks, remaining := initial, Flatten(initial);
    }

    method FillBuf() returns (buffer: seq<byte>)
      requires Valid()
      ensures buffer <= remaining
      ensures buffer == [] <==> remaining == []
      ensures if chunks == [] then buffer == [] else buffer == chunks[0]
    {
      buffer := if chunks == [] then [] else chunks[0];
    }

    method Consume(count: nat)
      requires Valid() && chunks != [] && count <= |chunks[0]|
      modifies this
      ensures count <= |old(remaining)|
      ensures Valid() && remaining == old(remaining)[count..]
    {
      if count == |chunks[0]| {
        chunks := chunks[1..];
      } else {
        chunks := [chunks[0][count..]] + chunks[1..];
      }
      remaining := remaining[count..];
    }
  }

  // ---------- The reader ----------

  /** What `read_next` holds of the current line: its hasher, its length, and its bytes if they fit. */
  datatype PartialLine = PartialLine(hasher: seq<byte>, byteLength: nat, bytes: seq<byte>, oversize: bool) {
    function Absorb(chunk: seq<byte>, maxBytes: nat): PartialLine {
      var next := this.(hasher := hasher + chunk, byteLength := byteLength + |chunk|);
      if oversize then next
      else if |chunk| <= SaturatingSub(maxBytes, |bytes|) then next.(bytes := bytes + chunk)
      else next.(bytes := [], oversize := true)
    }

    function Finish(lineNo: nat, byteOffset: nat): ReadLine {
      ReadLine(lineNo, byteOffset, byteLength, Sha256(hasher),
               if oversize then Oversize else Complete, if oversize then None else Some(bytes))
    }
  }

  /** The partial line after `body`: its bytes are dropped for good once they exceed the bound. */
  function PartialOf(body: seq<byte>, maxBytes: nat): PartialLine {
    PartialLine(body, |body|, if |body| > maxBytes then [] else body, |body| > maxBytes)
  }

  /** Taking bytes of the next buffer extends the partial line by the file's next bytes. */
  lemma AbsorbExtends(file: seq<byte>, start: nat, pos: nat, buffer: seq<byte>, take: nat, maxBytes: nat)
    requires start <= pos <= |file| && buffer <= file[pos..] && take <= |buffer|
    ensures buffer[..take] == file[pos..pos + take]
    ensures PartialOf(file[start..pos], maxBytes).Absorb(buffer[..take], maxBytes)
         == PartialOf(file[start..pos + take], maxBytes)
  {
    assert buffer[..take] == file[pos..pos + take];
    assert file[start..pos] + file[pos..pos + take] == file[start..pos + take];
  }

  class BoundedJsonlReader {
    const source: ChunkedSource
    const maxEventBytes: nat
    ghost const file: seq<byte>  // the snapshot; the source delivers its bytes from the position on
    var nextLineNo: nat
    var nextOffset: nat
    var finished: bool
    var stableHasher: seq<byte>
    var stableBytes: nat

    ghost predicate Valid()
      reads this, source
    {
      && source.Valid()
      && (!finished ==> nextOffset <= |file| && source.remaining == file[nextOffset..] && stableBytes == nextOffset)
    }

    constructor New(source: ChunkedSource, maxEventBytes: nat)
      requires source.Valid()
      ensures Valid() && !finished && this.source == source && this.maxEventBytes == maxEventBytes
      ensures file == source.remaining && nextLineNo == 1 && nextOffset == 0 && stableHasher == []
      ensures StablePrefix() == FileCheckpoint(0, Sha256([]))
    {
      this.source, this.maxEventBytes, file := source, maxEventBytes, source.remaining;
      nextLineNo, nextOffset, finished, stableHasher, stableBytes := 1, 0, false, [], 0;
    }

    /** A fresh hasher at a later position: the digest will cover only what is read from here on. */
    constructor FromPosition(
      source: ChunkedSource, maxEventBytes: nat, nextLineNo: nat, nextOffset: nat, ghost file: seq<byte>)
      requires source.Valid() && nextOffset <= |file| && source.remaining == file[nextOffset..]
      ensures Valid() && !finished && this.source == source && this.maxEventBytes == maxEventBytes
      ensures this.file == file && this.nextLineNo == nextLineNo && this.nextOffset == nextOffset && stableHasher == []
      ensures StablePrefix() == FileCheckpoint(nextOffset, Sha256([]))
    {
      this.source, this.maxEventBytes, this.file := source, maxEventBytes, file;
      this.nextLineNo, this.nextOffset := nextLineNo, nextOffset;
      finished, stableHasher, stableBytes := false, [], nextOffset;
    }

    constructor FromPositionWithHasher(
      source: ChunkedSource, maxEventBytes: nat, nextLineNo: nat, nextOffset: nat, hasher: seq<byte>,
      ghost file: seq<byte>)
      requires source.Valid() && nextOffset <= |file| && source.remaining == file[nextOffset..]
      ensures Valid() && !finished && this.source == source && this.maxEventBytes == maxEventBytes
      ensures this.file == file && this.nextLineNo == nextLineNo && this.nextOffset == nextOffset
      ensures stableHasher == hasher && StablePrefix() == FileCheckpoint(nextOffset, Sha256(hasher))
    {
      this.source, this.maxEventBytes, this.file := source, maxEventBytes, file;
      this.nextLineNo, this.nextOffset := nextLineNo, nextOffset;
      finished, stableHasher, stableBytes := false, hasher, nextOffset;
    }

    function StablePrefix(): FileCheckpoint
      reads this
    {
      FileCheckpoint(stableBytes, Sha256(stableHasher))
    }

    /** Takes one buffer's worth of the line that started at `start`, newline included if it is there. */
    method TakeBuffer(buffer: seq<byte>, partial: PartialLine, ghost start: nat)
      returns (next: PartialLine, found: bool)
      requires source.Valid() && source.chunks != [] && buffer == source.chunks[0] && buffer <= source.remaining
      requires start <= |file| && start <= nextOffset <= NewlineFrom(file, start)
      requires source.remaining == file[nextOffset..]
      requires partial == PartialOf(file[start..nextOffset], maxEventBytes)
      modifies this`nextOffset, this`stableHasher, source
      ensures source.Valid()
      ensures old(nextOffset) <= nextOffset <= |file| && source.remaining == file[nextOffset..]
      ensures old(nextOffset) < nextOffset || buffer == []
      ensures found ==> NewlineFrom(file, start) == nextOffset - 1 < |file|
      ensures !found ==> nextOffset <= NewlineFrom(file, start)
      ensures var end := if found then nextOffset - 1 else nextOffset;
        && next == PartialOf(file[start..end], maxEventBytes)
        && stableHasher == old(stableHasher) + file[old(nextOffset)..end]
    {
      ghost var pos := nextOffset;
      var take := NewlineFrom(buffer, 0);
      NewlineInBuffer(file, start, pos, buffer);
      AbsorbExtends(file, start, pos, buffer, take, maxEventBytes);
      var chunk := buffer[..take];
      stableHasher := stableHasher + chunk;
      next := partial.Absorb(chunk, maxEventBytes);
      found := take < |buffer|;
      var consumed := take + if found then 1 else 0;
      source.Consume(consumed);
      SuffixAfter(file, pos, consumed);
      nextOffset := nextOffset + consumed;
    }

    /**
     Consumes buffers up to the next newline, or to the end of the file when there is none. `peak`
     is the largest number of bytes held in memory at any moment.
     */
    method ReadSegment() returns (partial: PartialLine, found: bool, ghost peak: nat)
      requires Valid() && !finished
      modifies this`nextOffset, this`stableHasher, source
      ensures source.Valid()
      ensures var start, n := old(nextOffset), NewlineFrom(file, old(nextOffset));
        && partial == PartialOf(file[start..n], maxEventBytes)
        && found == (n < |file|)
        && nextOffset == (if found then n + 1 else n)
        && source.remaining == file[nextOffset..]
        && stableHasher == old(stableHasher) + file[start..n]
      ensures peak <= maxEventBytes
    {
      partial, found, peak := PartialOf([], maxEventBytes), false, 0;
      ghost var start := nextOffset;
      while true
        invariant source.Valid() && start <= nextOffset <= NewlineFrom(file, start)
        invariant source.remaining == file[nextOffset..]
        invariant partial == PartialOf(file[start..nextOffset], maxEventBytes)
        invariant peak <= maxEventBytes
        invariant stableHasher == old(stableHasher) + file[start..nextOffset]
        decreases |file| - nextOffset
      {
        var buffer := source.FillBuf();
        if buffer == [] {
          return partial, false, peak;
        }
        ghost var pos := nextOffset;
        partial, found := TakeBuffer(buffer, partial, start);
        peak := if |partial.bytes| > peak then |partial.bytes| else peak;
        JoinSlices(old(stableHasher), file, start, pos, if found then nextOffset - 1 else nextOffset);
        if found {
          return;
        }
      }
    }

    /**
     One line. After an incomplete tail the cursor `nextOffset` has counted the tail twice; it is
     never used again, because the reader is finished.
     */
    method ReadNext() returns (line: Option<ReadLine>, ghost peak: nat)
      requires Valid()
      modifies this, source
      ensures Valid() && peak <= maxEventBytes
      ensures old(finished) || old(nextOffset) == |file| ==>
        line == None && finished && StablePrefix() == old(StablePrefix())
        && nextLineNo == old(nextLineNo) && nextOffset == old(nextOffset)
      ensures !old(finished) && old(nextOffset) < |file| ==>
        && line == Some(LineAt(file, old(nextOffset), maxEventBytes, old(nextLineNo)))
        && var n := NewlineFrom(file, old(nextOffset));
           if n < |file| then
             && !finished && nextLineNo == old(nextLineNo) + 1 && nextOffset == n + 1
             && stableHasher == old(stableHasher) + file[old(nextOffset)..n + 1]
           else
             && finished && nextLineNo == old(nextLineNo) && StablePrefix() == old(StablePrefix())
             && nextOffset == |file| + (|file| - old(nextOffset))
    {
      if finished {
        return None, 0;
      }
      var lineNo, byteOffset := nextLineNo, nextOffset;
      var hasherBefore, stableBefore := stableHasher, stableBytes;
      var partial, found;
      partial, found, peak := ReadSegment();
      if !found {
        finished := true;
        stableHasher, stableBytes := hasherBefore, stableBefore;
        if partial.byteLength == 0 {
          return None, peak;
        }
        nextOffset := nextOffset + partial.byteLength;
        return Some(TailLine(partial.hasher, lineNo, byteOffset)), peak;
      }
      stableHasher := stableHasher + [NEWLINE];
      LineBytes(hasherBefore, file, byteOffset, nextOffset - 1);
      stableBytes := nextOffset;
      nextLineNo := nextLineNo + 1;
      return Some(partial.Finish(lineNo, byteOffset)), peak;
    }

    /**
     The driver loop of a scan: read lines until end of file or an incomplete tail. Whatever the
     chunking, the lines are those of the file, and the checkpoint is its stable end, with a digest
     of the bytes in between appended to whatever the hasher held before.
     */
    method ReadAll() returns (lines: seq<ReadLine>)
      requires Valid() && !finished
      modifies this, source
      ensures lines == LinesOnto([], file, old(nextOffset), maxEventBytes, old(nextLineNo))
      ensures StablePrefix() == FileCheckpoint(
                StableEnd(file, old(nextOffset)),
                Sha256(old(stableHasher) + file[old(nextOffset)..StableEnd(file, old(nextOffset))]))
    {
      lines := [];
      while true
        invariant Valid() && !finished && old(nextOffset) <= nextOffset
        invariant stableHasher == old(stableHasher) + file[old(nextOffset)..nextOffset]
        invariant LinesOnto(lines, file, nextOffset, maxEventBytes, nextLineNo)
               == LinesOnto([], file, old(nextOffset), maxEventBytes, old(nextLineNo))
        invariant StableEnd(file, old(nextOffset)) == StableEnd(file, nextOffset)
        decreases |file| - nextOffset
      {
        ghost var pos := nextOffset;
        var line, _ := ReadNext();
        if line.None? {
          return;
        }
        lines := lines + [line.value];
        if line.value.status.IncompleteTail? {
          return;
        }
        JoinSlices(old(stableHasher), file, old(nextOffset), pos, nextOffset);
      }
    }
  }

  lemma JoinSlices(before: seq<byte>, file: seq<byte>, a: nat, b: nat, c: nat)
    requires a <= b <= c <= |file|
    ensures before + file[a..b] + file[b..c] == before + file[a..c]
  {
    assert file[a..b] + file[b..c] == file[a..c];
  }

  lemma LineBytes(before: seq<byte>, file: seq<byte>, start: nat, end: nat)
    requires start <= end < |file| && file[end] == NEWLINE
    ensures before + file[start..end] + [NEWLINE] == before + file[start..end + 1]
  {
    assert file[start..end] + [NEWLINE] == file[start..end + 1];
  }

  lemma SuffixAfter(file: seq<byte>, pos: nat, count: nat)
    requires pos + count <= |file|
    ensures file[pos..][count..] == file[pos + count..]
  {
  }

  /** Searching one buffer of the file finds the file's newline, or clears the whole buffer. */
  lemma NewlineInBuffer(file: seq<byte>, start: nat, pos: nat, buffer: seq<byte>)
    requires start <= |file| && start <= pos <= NewlineFrom(file, start) && buffer <= file[pos..]
    ensures pos + |buffer| <= |file|
    ensures var take := NewlineFrom(buffer, 0);
      if take < |buffer| then NewlineFrom(file, start) == pos + take
      else NewlineFrom(file, start) >= pos + |buffer|
  {
    var take := NewlineFrom(buffer, 0);
    NoNewlineBefore(buffer, 0);
    NoNewlineBefore(file, start);
    forall k | 0 <= k < |buffer|
      ensures buffer[k] == file[pos + k]
    {
    }
    if take < |buffer| {
      forall i | start <= i < pos + take
        ensures file[i] != NEWLINE
      {
        if i >= pos {
          assert file[i] == buffer[i - pos];
        }
      }
      NewlineIsAt(file, start, pos + take);
    } else if NewlineFrom(file, start) < pos + |buffer| {
      assert false;
    }
  }

  // ---------- The checkpoint ----------

  /** `verify_checkpoint`: the file reaches the offset and its prefix has the recorded hash. */
  predicate CheckpointVerifies(file: seq<byte>, c: FileCheckpoint) {
    c.offset <= |file| && Sha256(file[..c.offset]) == c.prefixHash
  }

  /**
   The checkpoint that `ReadAll` leaves verifies against the file exactly when the hasher it
   started with held the skipped prefix. A fresh hasher at a later position never qualifies.
   */
  lemma ResumedCheckpointVerifiesIff(file: seq<byte>, from: nat, seed: seq<byte>)
    requires from <= |file|
    ensures CheckpointVerifies(file, FileCheckpoint(StableEnd(file, from), Sha256(seed + file[from..StableEnd(file, from)])))
       <==> seed == file[..from]
  {
    var e := StableEnd(file, from);
    assert file[..e] == file[..from] + file[from..e];
    if seed + file[from..e] == file[..e] {
      assert |seed| == from;
      assert seed == (seed + file[from..e])[..from];
      assert file[..from] == file[..e][..from];
    }
  }
}
