/**
 The rolling tail of a scan: `ControlledReader` keeps the last 64 KiB of everything it has read, on
 top of a seed taken from the window of the previous snapshot.
 */
module TailWindow {
  import opened Common

  const FINGERPRINT_BYTES: nat := 65536

  /** The last `min(width, |data|)` bytes of `data`. */
  function LastBytes(data: seq<byte>, width: nat): (tail: seq<byte>)
    ensures |tail| == Min(width, |data|)
  {
    data[SaturatingSub(|data|, width)..]
  }

  lemma LastOfConcat(a: seq<byte>, b: seq<byte>, width: nat)
    ensures LastBytes(LastBytes(a, width) + b, width) == LastBytes(a + b, width)
  {
  }

  function Concat(parts: seq<seq<byte>>): seq<byte> {
    if parts == [] then [] else Concat(parts[..|parts| - 1]) + parts[|parts| - 1]
  }

  class ControlledReader {
    var tail: seq<byte>

    ghost predicate Valid()
      reads this
    {
      |tail| <= FINGERPRINT_BYTES
    }

    constructor WithTailSeed(seed: seq<byte>)
      ensures Valid() && tail == LastBytes(seed, FINGERPRINT_BYTES)
    {
      tail := if |seed| > FINGERPRINT_BYTES then seed[|seed| - FINGERPRINT_BYTES..] else seed;
    }

    method CaptureTail(bytes: seq<byte>)
      requires Valid()
      modifies this
      ensures Valid() && tail == LastBytes(old(tail) + bytes, FINGERPRINT_BYTES)
    {
      if |bytes| >= FINGERPRINT_BYTES {
        tail := [];
        tail := tail + bytes[|bytes| - FINGERPRINT_BYTES..];
        return;
      }
      var overflow := SaturatingSub(|tail| + |bytes|, FINGERPRINT_BYTES);
      if overflow > 0 {
        tail := tail[overflow..];
      }
      tail := tail + bytes;
    }

    /** The reads of one scan, of any sizes: the tail is the last window of the seed and all of them. */
    method CaptureAll(pieces: seq<seq<byte>>)
      requires Valid()
      modifies this
      ensures Valid() && tail == LastBytes(old(tail) + Concat(pieces), FINGERPRINT_BYTES)
    {
      var i := 0;
      ghost var before := tail;
      assert before + Concat(pieces[..0]) == before;
      while i < |pieces|
        invariant i <= |pieces| && Valid()
        invariant tail == LastBytes(before + Concat(pieces[..i]), FINGERPRINT_BYTES)
      {
        CaptureTail(pieces[i]);
        assert pieces[..i + 1][..i] == pieces[..i];
        LastOfConcat(before + Concat(pieces[..i]), pieces[i], FINGERPRINT_BYTES);
        assert before + Concat(pieces[..i]) + pieces[i] == before + Concat(pieces[..i + 1]);
        i := i + 1;
      }
      assert pieces[..i] == pieces;
    }
  }

  /** The part of the old tail window that lies before the checkpoint (`append_plan`). */
  function TailSeed(oldTail: seq<byte>, oldSize: nat, checkpoint: nat): seq<byte> {
    var oldTailStart := SaturatingSub(oldSize, |oldTail|);
    var prefixEnd := Min(SaturatingSub(checkpoint, oldTailStart), |oldTail|);
    var prefixStart := SaturatingSub(prefixEnd, FINGERPRINT_BYTES);
    oldTail[prefixStart..prefixEnd]
  }

  /**
   An append scan leaves the tail of the whole new snapshot, as a full scan would, even when the
   checkpoint lies before the old tail window and the seed is empty.
   */
  lemma AppendTailIsFullTail(before: seq<byte>, file: seq<byte>, checkpoint: nat)
    requires before <= file && checkpoint <= |before| < |file|
    ensures var seed := TailSeed(LastBytes(before, FINGERPRINT_BYTES), |before|, checkpoint);
      LastBytes(LastBytes(seed, FINGERPRINT_BYTES) + file[checkpoint..], FINGERPRINT_BYTES)
      == LastBytes(file, FINGERPRINT_BYTES)
  {
    var start := SaturatingSub(|before|, FINGERPRINT_BYTES);
    var seed := TailSeed(LastBytes(before, FINGERPRINT_BYTES), |before|, checkpoint);
    if checkpoint >= start {
      assert seed == file[start..checkpoint];
      assert seed + file[checkpoint..] == file[start..];
      SuffixSuffix(file, start);
    } else {
      assert seed == [];
      assert [] + file[checkpoint..] == file[checkpoint..];
      SuffixSuffix(file, checkpoint);
    }
    LastOfConcat(seed, file[checkpoint..], FINGERPRINT_BYTES);
  }

  lemma SuffixSuffix(file: seq<byte>, start: nat)
    requires start <= |file| && (start == 0 || |file| - start >= FINGERPRINT_BYTES)
    ensures LastBytes(file[start..], FINGERPRINT_BYTES) == LastBytes(file, FINGERPRINT_BYTES)
  {
  }
}
