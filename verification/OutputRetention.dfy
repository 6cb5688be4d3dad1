/**
 Retention of a guest command's output: each poll brings a chunk that starts at the confirmed
 offset; it is checked, appended to a file, and only then confirmed in a record that is saved
 later. A crash can leave any part of a chunk in the file and always brings the saved record back.
 */
module OutputRetention {
  import opened Common

  const READ_LIMIT: nat := 262144
  const OUTPUT_LIMIT: nat := 67108864

  datatype ErrorCode =
    | OutputGap | OutputChanged | OutputOffset | OutputUnavailable | ProtocolError | OutputEncoding
    | OutputChecksum | OutputIncomplete | OutputSize | OutputTimeout | IoError | GuestError

  datatype StreamState = Fresh | Pending | Collecting | Complete | Incomplete

  datatype Retained = Retained(state: StreamState, bytes: nat, sha256: Option<Digest<seq<byte>>>, error: Option<ErrorCode>) {
    predicate Done() {
      state == Complete || state == Incomplete
    }

    function Fail(code: ErrorCode): Retained {
      this.(state := Incomplete, error := Some(code))
    }
  }

  const EMPTY_RECORD := Retained(Fresh, 0, None, None)

  datatype Availability = Available | AwaitingOutput | Unavailable | Unrecognized

  /** `data` is the decoded payload, absent when it is not strict base64; `failure` says that the guest gave an error. */
  datatype Chunk = Chunk(availability: Availability, offset: int, next: int, size: int,
                         data: Option<seq<byte>>, sha256: Option<Digest<seq<byte>>>, failure: bool)

  datatype FinalOutput = FinalOutput(complete: bool, bytes: int, sha256: Option<Digest<seq<byte>>>)

  datatype Status = Status(final: bool, output: Option<FinalOutput>)

  datatype Reply = Reply(chunk: Chunk, status: Status)

  /** How the disk treats a write: in full, or `kept` bytes of it before an error or the process's death. */
  datatype Write = Done | Fails(kept: nat) | Dies(kept: nat)

  datatype Disk = Disk(write: Write, rereads: bool)

  // ---------- Appending ----------

  function WriteAt(file: seq<byte>, position: nat, data: seq<byte>): seq<byte>
    requires position <= |file|
  {
    file[..position] + data + if position + |data| < |file| then file[position + |data|..] else []
  }

  /** The bytes of a chunk already retained must match; only the rest is written. */
  function AppendOutput(file: seq<byte>, offset: nat, data: seq<byte>, write: Write): (seq<byte>, Option<ErrorCode>) {
    if |file| < offset then (file, Some(OutputGap))
    else
      var existing := Min(|data|, |file| - offset);
      if file[offset..offset + existing] != data[..existing] then (file, Some(OutputChanged))
      else
        var rest := data[existing..];
        if write.Done? then (WriteAt(file, offset + existing, rest), None)
        else (WriteAt(file, offset + existing, rest[..Min(write.kept, |rest|)]), Some(IoError))
  }

  // ---------- One reply ----------

  /** Why a chunk is refused before anything is written, if it is. */
  function Refusal(bytes: nat, chunk: Chunk, status: Status): Option<ErrorCode> {
    if chunk.offset != bytes || chunk.next < chunk.offset || chunk.size < chunk.next || chunk.size > OUTPUT_LIMIT then
      Some(OutputOffset)
    else if chunk.availability == Unavailable then Some(if chunk.failure then GuestError else OutputUnavailable)
    else if chunk.availability == AwaitingOutput && !status.final then None
    else if chunk.availability != Available || chunk.next - chunk.offset > READ_LIMIT then Some(ProtocolError)
    else if chunk.data.None? || |chunk.data.value| != chunk.next - chunk.offset then Some(OutputEncoding)
    else if chunk.sha256 != Some(Sha256(chunk.data.value)) then Some(OutputChecksum)
    else None
  }

  /** The end of a final stream is checked against the supervisor's totals. */
  function Conclude(file: seq<byte>, record: Retained, chunk: Chunk, status: Status, rereads: bool): Retained {
    if !(status.final && chunk.next == chunk.size) then record
    else if status.output.None? || !status.output.value.complete then record.Fail(OutputIncomplete)
    else
      var out := status.output.value;
      if out.bytes != chunk.size || out.sha256.None? then record.Fail(OutputSize)
      else if !rereads then record.Fail(IoError)
      else
        var hashed := record.(sha256 := Some(Sha256(file)));
        if |file| != out.bytes || hashed.sha256 != out.sha256 then hashed.Fail(OutputChecksum)
        else hashed.(state := Complete)
  }

  /** `retainStream`: the file and the record after a reply. */
  function Retain(file: seq<byte>, record: Retained, reply: Reply, disk: Disk): (seq<byte>, Retained) {
    var Reply(chunk, status) := reply;
    var refusal := Refusal(record.bytes, chunk, status);
    if record.Done() then (file, record)
    else if refusal.Some? then (file, record.Fail(refusal.value))
    else if chunk.availability == AwaitingOutput && !status.final then (file, record.(state := Pending))
    else
      var (file', error) := AppendOutput(file, record.bytes, chunk.data.value, disk.write);
      if error.Some? then (file', record.Fail(error.value))
      else (file', Conclude(file', record.(bytes := chunk.next, state := Collecting, error := None), chunk, status, disk.rereads))
  }

  // ---------- Runs ----------

  /** The file, the record in memory and the record last saved. */
  datatype Store = Store(file: seq<byte>, memory: Retained, saved: Retained)

  const START := Store([], EMPTY_RECORD, EMPTY_RECORD)

  datatype Action = Poll(reply: Reply, disk: Disk) | Save | Crash | Stop

  function Step(s: Store, a: Action): Store {
    match a
    case Poll(reply, disk) =>
      var (file, record) := Retain(s.file, s.memory, reply, disk);
      Store(file, if disk.write.Dies? then s.saved else record, s.saved)
    case Save => s.(saved := s.memory)
    case Crash => s.(memory := s.saved)
    case Stop => if s.memory.Done() then s else s.(memory := s.memory.Fail(OutputTimeout))
  }

  function Run(s: Store, actions: seq<Action>): Store
    decreases |actions|
  {
    if actions == [] then s else Run(Step(s, actions[0]), actions[1..])
  }

  // ---------- Whatever the guest says ----------

  lemma AppendOnlyAppends(file: seq<byte>, offset: nat, data: seq<byte>, write: Write)
    ensures file <= AppendOutput(file, offset, data, write).0
    ensures var (file', error) := AppendOutput(file, offset, data, write);
      error.None? ==> offset + |data| <= |file'| && file'[offset..offset + |data|] == data
  {
    var (file', error) := AppendOutput(file, offset, data, write);
    if offset <= |file| {
      var existing := Min(|data|, |file| - offset);
      if error.None? {
        assert forall i :: 0 <= i < existing ==> file[offset..offset + existing][i] == data[..existing][i];
        assert forall i :: 0 <= i < |data| ==> file'[offset + i] == data[i];
      }
    }
  }

  /** A complete record describes the file it was made from. */
  ghost predicate Describes(record: Retained, file: seq<byte>) {
    && record.bytes <= |file|
    && (record.state == Complete ==> record.bytes == |file| && record.sha256 == Some(Sha256(file)))
  }

  ghost predicate Inv(s: Store) {
    && Describes(s.memory, s.file) && Describes(s.saved, s.file)
    && (s.saved.Done() ==> s.memory == s.saved)
  }

  lemma RetainKeeps(file: seq<byte>, record: Retained, reply: Reply, disk: Disk)
    requires Describes(record, file)
    ensures var (file', record') := Retain(file, record, reply, disk);
      && file <= file' && Describes(record', file')
      && (record.Done() ==> file' == file && record' == record)
  {
    if !record.Done() && reply.chunk.data.Some? {
      AppendOnlyAppends(file, record.bytes, reply.chunk.data.value, disk.write);
    }
  }

  lemma StepKeepsInv(s: Store, a: Action)
    requires Inv(s)
    ensures Inv(Step(s, a)) && s.file <= Step(s, a).file
    ensures s.saved.Done() ==> Step(s, a) == s
  {
    if a.Poll? {
      RetainKeeps(s.file, s.memory, a.reply, a.disk);
    }
  }

  /** Over any polls, partial writes, saves and crashes the file only grows, and a saved end is final. */
  lemma {:induction false} RunKeepsInv(s: Store, actions: seq<Action>)
    requires Inv(s)
    ensures Inv(Run(s, actions)) && s.file <= Run(s, actions).file
    ensures s.saved.Done() ==> Run(s, actions) == s
    decreases |actions|
  {
    if actions != [] {
      StepKeepsInv(s, actions[0]);
      RunKeepsInv(Step(s, actions[0]), actions[1..]);
    }
  }

  // ---------- Replaying an interrupted chunk ----------

  /** A chunk matches a file when what the file already holds of it is the same. */
  predicate Matches(file: seq<byte>, offset: nat, data: seq<byte>) {
    && offset <= |file|
    && file[offset..offset + Min(|data|, |file| - offset)] == data[..Min(|data|, |file| - offset)]
  }

  /** The bytes of a chunk that a file does not hold yet. */
  function Missing(file: seq<byte>, offset: nat, data: seq<byte>): seq<byte>
    requires offset <= |file|
  {
    data[Min(|data|, |file| - offset)..]
  }

  lemma MatchingAppend(file: seq<byte>, offset: nat, data: seq<byte>, write: Write)
    requires Matches(file, offset, data)
    ensures var missing := Missing(file, offset, data);
      AppendOutput(file, offset, data, write).0 ==
        file + if write.Done? then missing else missing[..Min(write.kept, |missing|)]
  {
  }

  lemma PartlyWritten(file: seq<byte>, offset: nat, data: seq<byte>, kept: nat)
    requires Matches(file, offset, data) && kept <= |Missing(file, offset, data)|
    ensures var partial := file + Missing(file, offset, data)[..kept];
      Matches(partial, offset, data) && partial + Missing(partial, offset, data) == file + Missing(file, offset, data)
  {
    var existing := Min(|data|, |file| - offset);
    assert forall i :: 0 <= i < existing ==> file[offset..offset + existing][i] == data[..existing][i];
  }

  /** What the disk keeps of an interrupted write is a prefix of what a complete one writes. */
  lemma AppendAgain(file: seq<byte>, offset: nat, data: seq<byte>, kept: nat)
    ensures AppendOutput(AppendOutput(file, offset, data, Dies(kept)).0, offset, data, Done) ==
            AppendOutput(file, offset, data, Done)
  {
    if Matches(file, offset, data) {
      var cut := Min(kept, |Missing(file, offset, data)|);
      MatchingAppend(file, offset, data, Dies(kept));
      MatchingAppend(file, offset, data, Done);
      PartlyWritten(file, offset, data, cut);
      MatchingAppend(file + Missing(file, offset, data)[..cut], offset, data, Done);
    }
  }

  /** After any number of crashes during its write, replaying a chunk leaves what one undisturbed write leaves. */
  lemma {:induction false} ReplayAddsNothingTwice(file: seq<byte>, record: Retained, reply: Reply, crashes: seq<nat>, rereads: bool)
    ensures Retain(AfterCrashes(file, record, reply, crashes), record, reply, Disk(Done, rereads)) ==
            Retain(file, record, reply, Disk(Done, rereads))
    decreases |crashes|
  {
    if crashes != [] {
      var interrupted := Retain(file, record, reply, Disk(Dies(crashes[0]), false)).0;
      ReplayAddsNothingTwice(interrupted, record, reply, crashes[1..], rereads);
      if reply.chunk.data.Some? {
        AppendAgain(file, record.bytes, reply.chunk.data.value, crashes[0]);
      }
    }
  }

  function AfterCrashes(file: seq<byte>, record: Retained, reply: Reply, crashes: seq<nat>): seq<byte>
    decreases |crashes|
  {
    if crashes == [] then file
    else AfterCrashes(Retain(file, record, reply, Disk(Dies(crashes[0]), false)).0, record, reply, crashes[1..])
  }

  // ---------- What is refused, and what completes ----------

  /** The chunk continues the confirmed bytes and lies within a stream of at most 64 MiB. */
  predicate Continues(bytes: nat, chunk: Chunk) {
    chunk.offset == bytes && chunk.offset <= chunk.next <= chunk.size <= 67108864
  }

  /** Its data is all there, at most 256 KiB of it, and matches its checksum. */
  predicate Intact(chunk: Chunk) {
    && chunk.availability == Available && chunk.next - chunk.offset <= 262144
    && chunk.data.Some? && |chunk.data.value| == chunk.next - chunk.offset
    && chunk.sha256 == Some(Sha256(chunk.data.value))
  }

  predicate Awaits(chunk: Chunk, status: Status) {
    chunk.availability == AwaitingOutput && !status.final
  }

  /** A chunk is refused exactly when it does not continue, or is neither intact nor still to come; and why. */
  lemma RefusedExactlyWhen(bytes: nat, chunk: Chunk, status: Status)
    ensures Refusal(bytes, chunk, status).None? <==> Continues(bytes, chunk) && (Intact(chunk) || Awaits(chunk, status))
    ensures Refusal(bytes, chunk, status) == Some(OutputOffset) <==> !Continues(bytes, chunk)
    ensures Refusal(bytes, chunk, status) in {Some(GuestError), Some(OutputUnavailable)} <==>
            Continues(bytes, chunk) && chunk.availability == Unavailable
    ensures Refusal(bytes, chunk, status) == Some(GuestError) ==> chunk.failure
    ensures Refusal(bytes, chunk, status) == Some(OutputUnavailable) ==> !chunk.failure
    ensures Continues(bytes, chunk) && chunk.availability == Available && chunk.next - chunk.offset <= 262144 &&
            chunk.data.Some? && |chunk.data.value| == chunk.next - chunk.offset ==>
            (Refusal(bytes, chunk, status) == Some(OutputChecksum) <==> chunk.sha256 != Some(Sha256(chunk.data.value)))
    ensures Continues(bytes, chunk) && chunk.availability == Available && chunk.next - chunk.offset <= 262144 ==>
            (Refusal(bytes, chunk, status) == Some(OutputEncoding) <==>
               chunk.data.None? || |chunk.data.value| != chunk.next - chunk.offset)
    ensures Refusal(bytes, chunk, status) == Some(ProtocolError) <==>
            Continues(bytes, chunk) && chunk.availability != Unavailable && !Awaits(chunk, status) &&
            (chunk.availability != Available || chunk.next - chunk.offset > 262144)
  {
  }

  /** Appending fails before a gap and against other bytes; otherwise it adds just what is missing. */
  lemma AppendsExactly(file: seq<byte>, offset: nat, data: seq<byte>, write: Write)
    ensures AppendOutput(file, offset, data, write) ==
      if |file| < offset then (file, Some(OutputGap))
      else if !Matches(file, offset, data) then (file, Some(OutputChanged))
      else
        var missing := Missing(file, offset, data);
        if write.Done? then (file + missing, None) else (file + missing[..Min(write.kept, |missing|)], Some(IoError))
  {
    if Matches(file, offset, data) {
      MatchingAppend(file, offset, data, write);
    }
  }

  /** The stream has ended where this chunk ends. */
  predicate Ends(reply: Reply) {
    reply.status.final && reply.chunk.next == reply.chunk.size
  }

  /** The supervisor's totals are there and agree with the size it reported and with the file. */
  predicate Confirms(file: seq<byte>, reply: Reply) {
    && reply.status.output.Some? && reply.status.output.value.complete
    && reply.status.output.value.bytes == reply.chunk.size == |file|
    && reply.status.output.value.sha256 == Some(Sha256(file))
  }

  /** What a reply makes of an unfinished record, in full. */
  lemma RetainsExactly(file: seq<byte>, record: Retained, reply: Reply, disk: Disk)
    requires !record.Done()
    ensures var (file', record') := Retain(file, record, reply, disk);
      var refusal := Refusal(record.bytes, reply.chunk, reply.status);
      if refusal.Some? then file' == file && record' == record.Fail(refusal.value)
      else if Awaits(reply.chunk, reply.status) then file' == file && record' == record.(state := Pending)
      else
        var (appended, error) := AppendOutput(file, record.bytes, reply.chunk.data.value, disk.write);
        && file' == appended
        && if error.Some? then record' == record.Fail(error.value)
           else
             && record'.bytes == reply.chunk.next
             && (record'.state == Collecting <==> !Ends(reply))
             && (record'.state == Complete <==> Ends(reply) && disk.rereads && Confirms(file', reply))
             && (record'.state in {Collecting, Complete} <==> record'.error.None?)
             && record'.state in {Collecting, Complete, Incomplete}
             && record'.sha256 == if record'.state == Complete || record'.error == Some(OutputChecksum)
                                  then Some(Sha256(file')) else record.sha256
  {
  }

  /** Why an ended stream is not complete, in the order in which it is found out. */
  lemma EndsIncompleteExactly(file: seq<byte>, record: Retained, reply: Reply, rereads: bool)
    requires Ends(reply) && record.error.None?
    ensures Conclude(file, record, reply.chunk, reply.status, rereads).error ==
      var output := reply.status.output;
      if output.None? || !output.value.complete then Some(OutputIncomplete)
      else if output.value.bytes != reply.chunk.size || output.value.sha256.None? then Some(OutputSize)
      else if !rereads then Some(IoError)
      else if !Confirms(file, reply) then Some(OutputChecksum)
      else None
  {
  }

  /** A crash brings the saved record back and keeps the file; stopping ends an unfinished record. */
  lemma BetweenPolls(s: Store)
    ensures Step(s, Save) == Store(s.file, s.memory, s.memory)
    ensures Step(s, Crash) == Store(s.file, s.saved, s.saved)
    ensures var stopped := Step(s, Stop);
      && stopped.file == s.file && stopped.saved == s.saved
      && (s.memory.state in {Complete, Incomplete} ==> stopped == s)
      && (s.memory.state !in {Complete, Incomplete} ==>
            stopped.memory.state == Incomplete && stopped.memory.error == Some(OutputTimeout))
  {
  }

  // ---------- One fixed guest stream ----------

  /** Available data, and the total's hash, are those of one stream. */
  ghost predicate Serves(stream: seq<byte>, reply: Reply) {
    var Reply(chunk, status) := reply;
    && (chunk.availability == Available && chunk.data.Some? && 0 <= chunk.offset ==>
          chunk.offset + |chunk.data.value| <= |stream| &&
          chunk.data.value == stream[chunk.offset..chunk.offset + |chunk.data.value|])
    && (status.output.Some? && status.output.value.sha256.Some? ==> status.output.value.sha256 == Some(Sha256(stream)))
  }

  ghost predicate ServesAll(stream: seq<byte>, actions: seq<Action>) {
    forall i :: 0 <= i < |actions| && actions[i].Poll? ==> Serves(stream, actions[i].reply)
  }

  ghost predicate Follows(s: Store, stream: seq<byte>) {
    && s.file <= stream
    && (s.memory.state == Complete ==> s.file == stream)
    && (s.saved.state == Complete ==> s.file == stream)
  }

  lemma AppendFollows(file: seq<byte>, offset: nat, data: seq<byte>, write: Write, stream: seq<byte>)
    requires file <= stream && offset + |data| <= |stream| && data == stream[offset..offset + |data|]
    ensures AppendOutput(file, offset, data, write).0 <= stream
    ensures offset <= |file| && write.Done? ==> AppendOutput(file, offset, data, write).1.None?
  {
    if offset <= |file| {
      var existing := Min(|data|, |file| - offset);
      assert file[offset..offset + existing] == data[..existing];
      var file' := AppendOutput(file, offset, data, write).0;
      assert forall i :: 0 <= i < |file'| ==> file'[i] == stream[i];
    }
  }

  lemma RetainFollows(file: seq<byte>, record: Retained, reply: Reply, disk: Disk, stream: seq<byte>)
    requires file <= stream && Serves(stream, reply) && !record.Done()
    ensures var (file', record') := Retain(file, record, reply, disk);
      file' <= stream && (record'.state == Complete ==> file' == stream)
  {
    if reply.chunk.data.Some? && Refusal(record.bytes, reply.chunk, reply.status).None? {
      if reply.chunk.availability == Available {
        AppendFollows(file, record.bytes, reply.chunk.data.value, disk.write, stream);
      }
    }
  }

  lemma StepFollows(s: Store, a: Action, stream: seq<byte>)
    requires Inv(s) && Follows(s, stream)
    requires a.Poll? ==> Serves(stream, a.reply)
    ensures Follows(Step(s, a), stream)
  {
    if a.Poll? && !s.memory.Done() {
      RetainFollows(s.file, s.memory, a.reply, a.disk, stream);
    }
  }

  lemma {:induction false} RunFollows(s: Store, actions: seq<Action>, stream: seq<byte>)
    requires Inv(s) && Follows(s, stream) && ServesAll(stream, actions)
    ensures Follows(Run(s, actions), stream)
    decreases |actions|
  {
    if actions != [] {
      StepKeepsInv(s, actions[0]);
      StepFollows(s, actions[0], stream);
      RunFollows(Step(s, actions[0]), actions[1..], stream);
    }
  }

  /** From the start, over every run: the file is a prefix of the guest's stream, and complete means all of it. */
  lemma RetainedIsAPrefix(actions: seq<Action>, stream: seq<byte>)
    requires ServesAll(stream, actions)
    ensures var s := Run(START, actions);
      && s.file <= stream && s.memory.bytes <= |s.file|
      && (s.memory.state == Complete ==> s.file == stream)
  {
    RunKeepsInv(START, actions);
    RunFollows(START, actions, stream);
  }

  // ---------- A guest that follows the protocol is never refused ----------

  /** The reply to a poll for the bytes after `bytes`, from a supervisor whose whole output is `stream`. */
  ghost predicate Answers(stream: seq<byte>, bytes: nat, reply: Reply) {
    var Reply(chunk, status) := reply;
    && Serves(stream, reply)
    && chunk.offset == bytes <= chunk.next <= chunk.size <= |stream| <= OUTPUT_LIMIT
    && chunk.next - chunk.offset <= READ_LIMIT
    && (chunk.availability == Available || (chunk.availability == AwaitingOutput && !status.final))
    && (chunk.availability == Available ==>
          chunk.data == Some(stream[bytes..chunk.next]) && chunk.sha256 == Some(Sha256(stream[bytes..chunk.next])))
    && (status.final ==>
          chunk.size == |stream| && status.output == Some(FinalOutput(true, |stream|, Some(Sha256(stream)))))
  }

  /** Its data is confirmed, and the final chunk completes the record. */
  lemma AnswersAreRetained(file: seq<byte>, record: Retained, reply: Reply, stream: seq<byte>)
    requires Describes(record, file) && file <= stream && !record.Done()
    requires Answers(stream, record.bytes, reply)
    ensures var (file', record') := Retain(file, record, reply, Disk(Done, true));
      if reply.chunk.availability == AwaitingOutput then file' == file && record' == record.(state := Pending)
      else
        && file' <= stream && reply.chunk.next <= |file'| && record'.bytes == reply.chunk.next && record'.error.None?
        && record'.state == if reply.status.final && reply.chunk.next == |stream| then Complete else Collecting
  {
    if reply.chunk.availability == Available {
      var data := reply.chunk.data.value;
      AppendFollows(file, record.bytes, data, Done, stream);
      AppendOnlyAppends(file, record.bytes, data, Done);
      var file' := Retain(file, record, reply, Disk(Done, true)).0;
      assert reply.chunk.next == |stream| ==> file' == stream;
    }
  }

  /** Polls are protocol answers on a working disk; anything may crash, at any byte of a write. */
  ghost predicate Faithful(s: Store, a: Action, stream: seq<byte>) {
    match a
    case Poll(reply, disk) =>
      !disk.write.Fails? && disk.rereads && (s.memory.Done() || Answers(stream, s.memory.bytes, reply))
    case Stop => false
    case _ => true
  }

  ghost predicate FaithfulRun(s: Store, actions: seq<Action>, stream: seq<byte>)
    decreases |actions|
  {
    actions == [] || (Faithful(s, actions[0], stream) && FaithfulRun(Step(s, actions[0]), actions[1..], stream))
  }

  ghost predicate Unrefused(s: Store) {
    s.memory.state != Incomplete && s.saved.state != Incomplete
  }

  lemma FaithfulStep(s: Store, a: Action, stream: seq<byte>)
    requires Inv(s) && Follows(s, stream) && Unrefused(s) && Faithful(s, a, stream)
    ensures Follows(Step(s, a), stream) && Unrefused(Step(s, a))
  {
    if a.Poll? && !s.memory.Done() {
      RetainFollows(s.file, s.memory, a.reply, a.disk, stream);
      AnswersAreRetained(s.file, s.memory, a.reply, stream);
    }
  }

  /** However often the process dies, collecting from such a guest never ends incomplete. */
  lemma {:induction false} CrashesNeverLoseOutput(s: Store, actions: seq<Action>, stream: seq<byte>)
    requires Inv(s) && Follows(s, stream) && Unrefused(s) && FaithfulRun(s, actions, stream)
    ensures Inv(Run(s, actions)) && Follows(Run(s, actions), stream) && Unrefused(Run(s, actions))
    decreases |actions|
  {
    if actions != [] {
      StepKeepsInv(s, actions[0]);
      FaithfulStep(s, actions[0], stream);
      CrashesNeverLoseOutput(Step(s, actions[0]), actions[1..], stream);
    }
  }

  // ---------- The file and the record as objects ----------

  class OutputFile {
    var data: seq<byte>

    constructor ()
      ensures data == []
    {
      data := [];
    }

    method Append(offset: nat, chunk: seq<byte>, write: Write) returns (error: Option<ErrorCode>)
      modifies this
      ensures (data, error) == AppendOutput(old(data), offset, chunk, write)
      ensures old(data) <= data
    {
      AppendOnlyAppends(data, offset, chunk, write);
      if |data| < offset {
        return Some(OutputGap);
      }
      var existing := Min(|chunk|, |data| - offset);
      if existing > 0 && data[offset..offset + existing] != chunk[..existing] {
        return Some(OutputChanged);
      }
      if existing < |chunk| {
        var rest := chunk[existing..];
        var written := if write.Done? then rest else rest[..Min(write.kept, |rest|)];
        data := WriteAt(data, offset + existing, written);
      } else {
        assert WriteAt(data, offset + existing, []) == data;
      }
      error := if write.Done? then None else Some(IoError);
    }
  }

  class RetainedStream {
    var state: StreamState
    var bytes: nat
    var sha256: Option<Digest<seq<byte>>>
    var error: Option<ErrorCode>

    function View(): Retained
      reads this
    {
      Retained(state, bytes, sha256, error)
    }

    constructor ()
      ensures View() == EMPTY_RECORD
    {
      state, bytes, sha256, error := Fresh, 0, None, None;
    }

    method Fail(code: ErrorCode)
      modifies this
      ensures View() == old(View()).Fail(code)
    {
      state, error := Incomplete, Some(code);
    }

    /** Another poll is worth making at once exactly when this one confirmed something short of the end. */
    method RetainStream(file: OutputFile, reply: Reply, disk: Disk) returns (more: bool)
      modifies this, file
      ensures (file.data, View()) == Retain(old(file.data), old(View()), reply, disk)
      ensures more <==> old(bytes) < bytes < reply.chunk.size && state == Collecting && !old(View()).Done()
    {
      var chunk, status := reply.chunk, reply.status;
      more := false;
      if View().Done() {
        return;
      }
      var refusal := Refusal(bytes, chunk, status);
      if refusal.Some? {
        Fail(refusal.value);
        return;
      }
      if chunk.availability == AwaitingOutput && !status.final {
        state := Pending;
        return;
      }
      var failed := file.Append(bytes, chunk.data.value, disk.write);
      if failed.Some? {
        Fail(failed.value);
        return;
      }
      bytes, state, error := chunk.next, Collecting, None;
      if status.final && chunk.next == chunk.size {
        if status.output.None? || !status.output.value.complete {
          Fail(OutputIncomplete);
          return;
        }
        var out := status.output.value;
        if out.bytes != chunk.size || out.sha256.None? {
          Fail(OutputSize);
          return;
        }
        if !disk.rereads {
          Fail(IoError);
          return;
        }
        sha256 := Some(Sha256(file.data));
        if |file.data| != out.bytes || sha256 != out.sha256 {
          Fail(OutputChecksum);
          return;
        }
        state := Complete;
      }
      more := chunk.next > chunk.offset && chunk.next < chunk.size;
    }
  }
}
