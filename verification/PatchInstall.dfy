/**
 Installing a patch set over the previous one, with a write-ahead receipt. The process may die
 between any two durable writes, during an install or during a recovery; single writes are atomic.
 The world is the patch directory, the receipt and the record of the last export.
 */
module PatchInstall {
  import opened Common

  type Name = string

  type Content = string

  type Hash = Digest<Content>

  datatype Record = Record(path: Name, before: Option<Hash>, after: Option<Hash>, beforeContent: Option<Content>)

  datatype Receipt = NoReceipt | Unreadable | Pending(rootHead: string, records: seq<Record>)

  datatype World = World(
    head: string, files: map<Name, Content>, receipt: Receipt, lastExport: Option<map<Name, Hash>>)

  function HashAt(files: map<Name, Content>, name: Name): Option<Hash> {
    if name in files then Some(Sha256(files[name])) else None
  }

  /** `_patch_file_state` of the directory: every file with its hash. */
  function Hashes(files: map<Name, Content>): map<Name, Hash> {
    map name | name in files :: Sha256(files[name])
  }

  // ---------- Durable writes ----------

  datatype Op =
    | PutReceipt(receipt: Receipt)
    | DropReceipt
    | PutFile(name: Name, content: Content)
    | DropFile(name: Name)
    | PutExport(hashes: map<Name, Hash>)

  function Apply(w: World, op: Op): World {
    match op
    case PutReceipt(r) => w.(receipt := r)
    case DropReceipt => w.(receipt := NoReceipt)
    case PutFile(name, content) => w.(files := w.files[name := content])
    case DropFile(name) => w.(files := w.files - {name})
    case PutExport(hashes) => w.(lastExport := Some(hashes))
  }

  function ApplyAll(w: World, ops: seq<Op>): World {
    if ops == [] then w else Apply(ApplyAll(w, ops[..|ops| - 1]), ops[|ops| - 1])
  }

  lemma ApplySnoc(w: World, ops: seq<Op>, op: Op)
    ensures ApplyAll(w, ops + [op]) == Apply(ApplyAll(w, ops), op)
  {
    assert (ops + [op])[..|ops|] == ops;
  }

  lemma ApplyNext(w: World, ops: seq<Op>, k: nat, op: Op)
    requires k < |ops| && ops[k] == op
    ensures ApplyAll(w, ops[..k + 1]) == Apply(ApplyAll(w, ops[..k]), op)
  {
    assert ops[..k + 1] == ops[..k] + [op];
    ApplySnoc(w, ops[..k], op);
  }

  /** The op that brings one name to its state in `files`. */
  function SetFile(files: map<Name, Content>, name: Name): Op {
    if name in files then PutFile(name, files[name]) else DropFile(name)
  }

  function SetFiles(files: map<Name, Content>, names: seq<Name>): (ops: seq<Op>)
    ensures |ops| == |names|
    ensures forall i :: 0 <= i < |ops| ==> ops[i] == SetFile(files, names[i])
  {
    if names == [] then [] else SetFiles(files, names[..|names| - 1]) + [SetFile(files, names[|names| - 1])]
  }

  // ---------- Installing ----------

  /** One record per name of either set, in the order `names` lists them. */
  function RecordsFor(was: map<Name, Content>, next: map<Name, Content>, names: seq<Name>): (rs: seq<Record>)
    ensures |rs| == |names|
    ensures forall i :: 0 <= i < |rs| ==>
      rs[i] == Record(names[i], HashAt(was, names[i]), HashAt(next, names[i]),
                      if names[i] in was then Some(was[names[i]]) else None)
  {
    seq(|names|, i requires 0 <= i < |names| =>
      Record(names[i], HashAt(was, names[i]), HashAt(next, names[i]),
             if names[i] in was then Some(was[names[i]]) else None))
  }

  ghost predicate Lists(names: seq<Name>, of: set<Name>) {
    && (forall n :: n in names <==> n in of)
    && (forall i, j :: 0 <= i < j < |names| ==> names[i] != names[j])
  }

  /** `git apply` touches exactly the names that change, in some order. */
  ghost predicate ListsChanges(order: seq<Name>, was: map<Name, Content>, next: map<Name, Content>) {
    forall n :: n in order <==> n in was.Keys + next.Keys && HashAt(was, n) != HashAt(next, n)
  }

  /** The durable writes of `_install_patch_files`, in order. */
  function InstallOps(w: World, candidate: map<Name, Content>, names: seq<Name>, order: seq<Name>): seq<Op> {
    if candidate == w.files then [PutExport(Hashes(candidate))]
    else
      [PutReceipt(Pending(w.head, RecordsFor(w.files, candidate, names)))]
      + SetFiles(candidate, order)
      + [PutExport(Hashes(candidate)), DropReceipt]
  }

  // ---------- Recovering ----------

  datatype Outcome = Nothing | Refused | RestoredOld | CompletedNew

  predicate IsPatchFileName(s: Name) {
    && |s| > 11
    && (forall i :: 0 <= i < 4 ==> '0' <= s[i] <= '9')
    && s[4] == '-' && s[|s| - 6..] == ".patch"
    && var middle := s[5..|s| - 6];
       && (forall i :: 0 <= i < |middle| ==> 'a' <= middle[i] <= 'z' || '0' <= middle[i] <= '9' || middle[i] == '-')
       && middle[0] != '-' && middle[|middle| - 1] != '-'
       && (forall i :: 0 < i < |middle| ==> !(middle[i] == '-' && middle[i - 1] == '-'))
  }

  /** `validate_patch_directory`: the manifest's patches and no others. */
  predicate DirectoryMatches(files: map<Name, Content>, manifest: set<Name>) {
    files.Keys == manifest
  }

  predicate BackupGood(r: Record) {
    r.before.Some? ==> r.beforeContent.Some? && Sha256(r.beforeContent.value) == r.before.value
  }

  predicate AllWellNamed(rs: seq<Record>) {
    forall i :: 0 <= i < |rs| ==> IsPatchFileName(rs[i].path)
  }

  predicate AllBackupsGood(rs: seq<Record>) {
    forall i :: 0 <= i < |rs| ==> BackupGood(rs[i])
  }

  /** The backups by path: of two records that name one path, the later one's counts. */
  function Backups(rs: seq<Record>): map<Name, Content> {
    if rs == [] then map[]
    else
      var r := rs[|rs| - 1];
      var earlier := Backups(rs[..|rs| - 1]);
      if r.before.Some? && r.beforeContent.Some? then earlier[r.path := r.beforeContent.value] else earlier
  }

  function RestoreOp(backups: map<Name, Content>, r: Record): Op {
    if r.before.None? || r.path !in backups then DropFile(r.path) else PutFile(r.path, backups[r.path])
  }

  function RestoreOps(rs: seq<Record>, backups: map<Name, Content>): (ops: seq<Op>)
    ensures |ops| == |rs|
    ensures forall i :: 0 <= i < |ops| ==> ops[i] == RestoreOp(backups, rs[i])
  {
    seq(|rs|, i requires 0 <= i < |rs| => RestoreOp(backups, rs[i]))
  }

  predicate AllOld(files: map<Name, Content>, rs: seq<Record>) {
    forall i :: 0 <= i < |rs| ==> HashAt(files, rs[i].path) == rs[i].before
  }

  predicate AllNew(files: map<Name, Content>, rs: seq<Record>) {
    forall i :: 0 <= i < |rs| ==> HashAt(files, rs[i].path) == rs[i].after
  }

  predicate AllEither(files: map<Name, Content>, rs: seq<Record>) {
    forall i :: 0 <= i < |rs| ==>
      HashAt(files, rs[i].path) == rs[i].before || HashAt(files, rs[i].path) == rs[i].after
  }

  /** `_recover_patch_install`: what it decides, and the durable writes that follow. */
  function Recovery(w: World, manifest: set<Name>): (Outcome, seq<Op>) {
    if w.receipt.NoReceipt? then (Nothing, [])
    else if w.receipt.Unreadable? || w.receipt.rootHead != w.head then (Refused, [])
    else
      var rs := w.receipt.records;
      if rs == [] || !AllWellNamed(rs) then (Refused, [])
      else if AllOld(w.files, rs) then (RestoredOld, [DropReceipt])
      else if AllNew(w.files, rs) then
        if DirectoryMatches(w.files, manifest) then (CompletedNew, [PutExport(Hashes(w.files)), DropReceipt])
        else (Refused, [])
      else if !AllEither(w.files, rs) || !AllBackupsGood(rs) then (Refused, [])
      else (RestoredOld, RestoreOps(rs, Backups(rs)) + [DropReceipt])
  }

  /** `_validate_refresh_source_patch_directory`: how the next refresh judges its baseline. */
  datatype Baseline = AcceptedByExport | Removed | AskGit

  function JudgeBaseline(w: World): Baseline {
    if w.lastExport == Some(Hashes(w.files)) then AcceptedByExport
    else if w.lastExport.Some? && w.files == map[] && w.lastExport.value != map[] then Removed
    else AskGit
  }

  /** The baseline is accepted when it is what was exported last, and is missing when nothing is left of it. */
  lemma JudgesExactly(w: World)
    ensures JudgeBaseline(w).AcceptedByExport? <==> w.lastExport == Some(Hashes(w.files))
    ensures JudgeBaseline(w).Removed? <==> w.files == map[] && w.lastExport.Some? && w.lastExport.value != map[]
  {
  }

  // ---------- What the writes do ----------

  lemma {:induction false} ApplyConcat(w: World, xs: seq<Op>, ys: seq<Op>)
    ensures ApplyAll(w, xs + ys) == ApplyAll(ApplyAll(w, xs), ys)
  {
    if ys == [] {
      assert xs + ys == xs;
    } else {
      var n := |ys| - 1;
      assert xs + ys == (xs + ys[..n]) + [ys[n]];
      ApplyConcat(w, xs, ys[..n]);
      ApplySnoc(w, xs + ys[..n], ys[n]);
    }
  }

  lemma SetFileEffect(w: World, target: map<Name, Content>, name: Name)
    ensures var w' := Apply(w, SetFile(target, name));
      && w' == w.(files := w'.files)
      && HashAt(w'.files, name) == HashAt(target, name)
      && forall n :: n != name ==> HashAt(w'.files, n) == HashAt(w.files, n)
  {
  }

  lemma LastName(names: seq<Name>, k: nat, n: Name)
    requires |names| == k + 1
    ensures n in names <==> n in names[..k] || n == names[k]
  {
    assert names == names[..k] + [names[k]];
  }

  /** Setting some names to their state in `target` changes these names, and nothing else. */
  lemma {:induction false} SetFilesEffect(w: World, target: map<Name, Content>, names: seq<Name>)
    ensures var w' := ApplyAll(w, SetFiles(target, names));
      && w' == w.(files := w'.files)
      && forall n :: HashAt(w'.files, n) == if n in names then HashAt(target, n) else HashAt(w.files, n)
  {
    if names != [] {
      var k := |names| - 1;
      var mid := ApplyAll(w, SetFiles(target, names[..k]));
      var last := Apply(mid, SetFile(target, names[k]));
      SetFilesEffect(w, target, names[..k]);
      ApplySnoc(w, SetFiles(target, names[..k]), SetFile(target, names[k]));
      SetFileEffect(mid, target, names[k]);
      forall n
        ensures HashAt(last.files, n) == if n in names then HashAt(target, n) else HashAt(w.files, n)
      {
        LastName(names, k, n);
      }
      assert ApplyAll(w, SetFiles(target, names)) == last;
    }
  }

  lemma SetFilesPrefix(target: map<Name, Content>, names: seq<Name>, k: nat)
    requires k <= |names|
    ensures SetFiles(target, names)[..k] == SetFiles(target, names[..k])
  {
  }

  lemma SameHashesSameFiles(a: map<Name, Content>, b: map<Name, Content>)
    requires forall n :: HashAt(a, n) == HashAt(b, n)
    ensures a == b
  {
    forall n
      ensures n in a <==> n in b
      ensures n in a && n in b ==> a[n] == b[n]
    {
      assert HashAt(a, n) == HashAt(b, n);
    }
  }

  // ---------- Reachable states ----------

  /** Every name is in its old or in its new state. */
  ghost predicate Mix(files: map<Name, Content>, was: map<Name, Content>, next: map<Name, Content>) {
    forall n :: HashAt(files, n) == HashAt(was, n) || HashAt(files, n) == HashAt(next, n)
  }

  ghost predicate PatchNames(names: set<Name>) {
    forall n :: n in names ==> IsPatchFileName(n)
  }

  /** No install under way: the last export, if any, describes the directory. */
  ghost predicate Quiet(w: World) {
    && w.receipt.NoReceipt?
    && PatchNames(w.files.Keys)
    && (w.lastExport.None? || w.lastExport == Some(Hashes(w.files)))
  }

  /** An interrupted install from `was` to `next`. */
  ghost predicate Interrupted(w: World, was: map<Name, Content>, next: map<Name, Content>, names: seq<Name>, manifest: set<Name>) {
    && Lists(names, was.Keys + next.Keys) && PatchNames(was.Keys + next.Keys)
    && next.Keys == manifest && was != next
    && w.receipt == Pending(w.head, RecordsFor(was, next, names))
    && Mix(w.files, was, next)
    && (|| w.lastExport.None?
        || w.lastExport == Some(Hashes(was))
        || (w.files == next && w.lastExport == Some(Hashes(next))))
  }

  /** The world with HEAD back where it was when the receipt was written. */
  function AtReceipt(w: World): World {
    if w.receipt.Pending? then w.(head := w.receipt.rootHead) else w
  }

  ghost predicate Inv(w: World, manifest: set<Name>) {
    Quiet(w) || exists was, next, names :: Interrupted(AtReceipt(w), was, next, names, manifest)
  }

  // ---------- Crashing during an install ----------

  lemma DifferingNamesListed(was: map<Name, Content>, next: map<Name, Content>, names: seq<Name>, n: Name)
    requires Lists(names, was.Keys + next.Keys) && n !in names
    ensures HashAt(was, n) == HashAt(next, n) == None
  {
    assert n !in was.Keys + next.Keys;
  }

  /** After `k` of the file writes the directory is a mix, and after all of them it is the new set. */
  lemma ApplyingIsAMix(w: World, target: map<Name, Content>, order: seq<Name>, k: nat)
    requires ListsChanges(order, w.files, target) && k <= |order|
    ensures var w' := ApplyAll(w, SetFiles(target, order)[..k]);
      && w' == w.(files := w'.files) && Mix(w'.files, w.files, target)
      && (k == |order| ==> w'.files == target)
  {
    SetFilesPrefix(target, order, k);
    SetFilesEffect(w, target, order[..k]);
    var w' := ApplyAll(w, SetFiles(target, order)[..k]);
    if k == |order| {
      assert order[..k] == order;
      forall n
        ensures HashAt(w'.files, n) == HashAt(target, n)
      {
        if n !in order && n !in w.files.Keys + target.Keys {
          assert HashAt(w.files, n) == HashAt(target, n) == None;
        }
      }
      SameHashesSameFiles(w'.files, target);
    }
  }

  lemma ApplyOne(w: World, op: Op)
    ensures ApplyAll(w, [op]) == Apply(w, op)
  {
    ApplySnoc(w, [], op);
    assert [] + [op] == [op];
  }

  lemma ApplyThen(w: World, xs: seq<Op>, x: Op, y: Op)
    ensures ApplyAll(w, xs + [x, y]) == Apply(Apply(ApplyAll(w, xs), x), y)
    ensures ApplyAll(w, (xs + [x, y])[..|xs| + 1]) == Apply(ApplyAll(w, xs), x)
  {
    assert xs + [x, y] == xs + [x] + [y] && (xs + [x, y])[..|xs| + 1] == xs + [x];
    ApplySnoc(w, xs, x);
    ApplySnoc(w, xs + [x], y);
  }

  lemma CutInMiddle(x: seq<Op>, y: seq<Op>, z: seq<Op>, k: nat)
    requires k <= |y|
    ensures (x + y + z)[..|x| + k] == x + y[..k]
  {
  }

  lemma CutInLast(x: seq<Op>, y: seq<Op>, z: seq<Op>, k: nat)
    requires k <= |z|
    ensures (x + y + z)[..|x| + |y| + k] == x + y + z[..k]
  {
  }

  lemma InstallWrites(w: World, candidate: map<Name, Content>, names: seq<Name>, order: seq<Name>, j: nat)
    requires candidate != w.files && j <= |order|
    ensures var w1 := w.(receipt := Pending(w.head, RecordsFor(w.files, candidate, names)));
      ApplyAll(w, InstallOps(w, candidate, names, order)[..j + 1]) == ApplyAll(w1, SetFiles(candidate, order)[..j])
  {
    var put := PutReceipt(Pending(w.head, RecordsFor(w.files, candidate, names)));
    var sets := SetFiles(candidate, order);
    ApplyOne(w, put);
    ApplyConcat(w, [put], sets[..j]);
    CutInMiddle([put], sets, [PutExport(Hashes(candidate)), DropReceipt], j);
  }

  lemma InstallEnds(w: World, candidate: map<Name, Content>, names: seq<Name>, order: seq<Name>, head: seq<Op>)
    requires candidate != w.files
    requires head == [PutReceipt(Pending(w.head, RecordsFor(w.files, candidate, names)))] + SetFiles(candidate, order)
    ensures var ops := InstallOps(w, candidate, names, order);
      && |head| == |order| + 1 && |ops| == |order| + 3 && ops[..|order| + 1] == head
      && ApplyAll(w, ops[..|order| + 2]) == ApplyAll(w, head).(lastExport := Some(Hashes(candidate)))
      && ApplyAll(w, ops) == ApplyAll(w, head).(lastExport := Some(Hashes(candidate)), receipt := NoReceipt)
  {
    ApplyThen(w, head, PutExport(Hashes(candidate)), DropReceipt);
  }

  /** The writes of an install, cut after the receipt and `j` files, or in the two writes at the end. */
  lemma InstallPrefixes(w: World, candidate: map<Name, Content>, names: seq<Name>, order: seq<Name>, j: nat)
    requires candidate != w.files && j <= |order|
    ensures var ops := InstallOps(w, candidate, names, order);
      var w1 := w.(receipt := Pending(w.head, RecordsFor(w.files, candidate, names)));
      var done := ApplyAll(w1, SetFiles(candidate, order));
      && |ops| == |order| + 3
      && ApplyAll(w, ops[..j + 1]) == ApplyAll(w1, SetFiles(candidate, order)[..j])
      && ApplyAll(w, ops[..|order| + 2]) == done.(lastExport := Some(Hashes(candidate)))
      && ApplyAll(w, ops) == done.(lastExport := Some(Hashes(candidate)), receipt := NoReceipt)
  {
    var sets := SetFiles(candidate, order);
    InstallWrites(w, candidate, names, order, j);
    InstallWrites(w, candidate, names, order, |order|);
    assert sets[..|order|] == sets;
    InstallEnds(w, candidate, names, order,
                [PutReceipt(Pending(w.head, RecordsFor(w.files, candidate, names)))] + sets);
  }

  /** The process may die after any number `k` of an install's writes. */
  lemma InstallUpTo(
    w: World, candidate: map<Name, Content>, names: seq<Name>, order: seq<Name>, manifest: set<Name>, k: nat)
    requires Quiet(w) && candidate.Keys == manifest && PatchNames(manifest)
    requires Lists(names, w.files.Keys + candidate.Keys) && ListsChanges(order, w.files, candidate)
    requires k <= |InstallOps(w, candidate, names, order)|
    ensures var ops := InstallOps(w, candidate, names, order);
      var w' := ApplyAll(w, ops[..k]);
      && (k == |ops| ==> Quiet(w') && w'.files == candidate && w'.lastExport == Some(Hashes(candidate)))
      && (0 < k < |ops| ==> Interrupted(w', w.files, candidate, names, manifest))
      && (k == 0 ==> w' == w)
  {
    var ops := InstallOps(w, candidate, names, order);
    if k == |ops| {
      assert ops[..k] == ops;
      if candidate == w.files {
        ApplyOne(w, ops[0]);
      } else {
        InstallCompletes(w, candidate, names, order);
      }
    } else if k > 0 {
      InstallInterrupted(w, candidate, names, order, manifest, k);
    }
  }

  lemma InstallCompletes(w: World, candidate: map<Name, Content>, names: seq<Name>, order: seq<Name>)
    requires candidate != w.files && ListsChanges(order, w.files, candidate)
    ensures ApplyAll(w, InstallOps(w, candidate, names, order))
         == World(w.head, candidate, NoReceipt, Some(Hashes(candidate)))
  {
    InstallPrefixes(w, candidate, names, order, |order|);
    ApplyingIsAMix(w.(receipt := Pending(w.head, RecordsFor(w.files, candidate, names))), candidate, order, |order|);
    assert SetFiles(candidate, order)[..|order|] == SetFiles(candidate, order);
  }

  lemma ReceiptWritten(w: World, candidate: map<Name, Content>, names: seq<Name>, manifest: set<Name>)
    requires Quiet(w) && candidate.Keys == manifest && PatchNames(manifest) && candidate != w.files
    requires Lists(names, w.files.Keys + candidate.Keys)
    ensures Interrupted(w.(receipt := Pending(w.head, RecordsFor(w.files, candidate, names))),
                        w.files, candidate, names, manifest)
  {
  }

  lemma InstallInterrupted(
    w: World, candidate: map<Name, Content>, names: seq<Name>, order: seq<Name>, manifest: set<Name>, k: nat)
    requires Quiet(w) && candidate.Keys == manifest && PatchNames(manifest) && candidate != w.files
    requires Lists(names, w.files.Keys + candidate.Keys) && ListsChanges(order, w.files, candidate)
    requires 0 < k < |InstallOps(w, candidate, names, order)|
    ensures Interrupted(ApplyAll(w, InstallOps(w, candidate, names, order)[..k]), w.files, candidate, names, manifest)
  {
    var w1 := w.(receipt := Pending(w.head, RecordsFor(w.files, candidate, names)));
    var sets := SetFiles(candidate, order);
    var j := if k - 1 <= |order| then k - 1 else |order|;
    ReceiptWritten(w, candidate, names, manifest);
    InstallPrefixes(w, candidate, names, order, j);
    ApplyingIsAMix(w1, candidate, order, j);
    StillInterrupted(w1, ApplyAll(w1, sets[..j]), w.files, candidate, names, manifest);
    if k == |order| + 2 {
      assert sets[..|order|] == sets;
      Exported(ApplyAll(w1, sets), w.files, candidate, names, manifest);
    }
  }

  lemma Exported(w: World, was: map<Name, Content>, next: map<Name, Content>, names: seq<Name>, manifest: set<Name>)
    requires Interrupted(w, was, next, names, manifest) && w.files == next
    ensures Interrupted(w.(lastExport := Some(Hashes(next))), was, next, names, manifest)
  {
  }

  // ---------- Crashing during a recovery ----------

  lemma OldOrNewDirectory(files: map<Name, Content>, was: map<Name, Content>, next: map<Name, Content>, names: seq<Name>)
    requires Lists(names, was.Keys + next.Keys) && Mix(files, was, next)
    ensures AllOld(files, RecordsFor(was, next, names)) <==> files == was
    ensures AllNew(files, RecordsFor(was, next, names)) <==> files == next
    ensures AllEither(files, RecordsFor(was, next, names))
  {
    var rs := RecordsFor(was, next, names);
    forall n | n !in names
      ensures HashAt(files, n) == None == HashAt(was, n) == HashAt(next, n)
    {
      DifferingNamesListed(was, next, names, n);
    }
    if AllOld(files, rs) {
      forall n
        ensures HashAt(files, n) == HashAt(was, n)
      {
        if n in names {
          var i :| 0 <= i < |names| && names[i] == n;
          assert rs[i].path == n;
        }
      }
      SameHashesSameFiles(files, was);
    }
    if AllNew(files, rs) {
      forall n
        ensures HashAt(files, n) == HashAt(next, n)
      {
        if n in names {
          var i :| 0 <= i < |names| && names[i] == n;
          assert rs[i].path == n;
        }
      }
      SameHashesSameFiles(files, next);
    }
  }

  lemma {:induction false} BackupsAreOld(was: map<Name, Content>, rs: seq<Record>)
    requires forall i :: 0 <= i < |rs| && rs[i].before.Some? ==> rs[i].path in was && rs[i].beforeContent == Some(was[rs[i].path])
    ensures forall n :: n in Backups(rs) ==> n in was && Backups(rs)[n] == was[n]
    ensures forall i :: 0 <= i < |rs| && rs[i].before.Some? ==> rs[i].path in Backups(rs)
  {
    if rs != [] {
      BackupsAreOld(was, rs[..|rs| - 1]);
      assert forall i :: 0 <= i < |rs| - 1 ==> rs[..|rs| - 1][i] == rs[i];
    }
  }

  lemma RestoringIsSettingOld(was: map<Name, Content>, next: map<Name, Content>, names: seq<Name>, rs: seq<Record>)
    requires rs == RecordsFor(was, next, names)
    ensures RestoreOps(rs, Backups(rs)) == SetFiles(was, names) && AllBackupsGood(rs)
  {
    BackupsAreOld(was, rs);
  }

  /** After `k` restores the directory is still a mix, and after all of them it is the old set. */
  lemma RestoringIsAMix(
    w: World, was: map<Name, Content>, next: map<Name, Content>, names: seq<Name>, k: nat)
    requires Lists(names, was.Keys + next.Keys) && Mix(w.files, was, next) && k <= |names|
    ensures var w' := ApplyAll(w, SetFiles(was, names)[..k]);
      && w' == w.(files := w'.files) && Mix(w'.files, was, next)
      && (k == |names| ==> w'.files == was)
  {
    SetFilesPrefix(was, names, k);
    SetFilesEffect(w, was, names[..k]);
    var w' := ApplyAll(w, SetFiles(was, names)[..k]);
    if k == |names| {
      assert names[..k] == names;
      forall n
        ensures HashAt(w'.files, n) == HashAt(was, n)
      {
        if n !in names {
          DifferingNamesListed(was, next, names, n);
        }
      }
      SameHashesSameFiles(w'.files, was);
    }
  }

  lemma RecordsAreUsable(w: World, was: map<Name, Content>, next: map<Name, Content>, names: seq<Name>, manifest: set<Name>)
    requires Interrupted(w, was, next, names, manifest)
    ensures var rs := RecordsFor(was, next, names);
      && rs != [] && AllWellNamed(rs) && AllEither(w.files, rs)
      && (AllOld(w.files, rs) <==> w.files == was) && (AllNew(w.files, rs) <==> w.files == next)
  {
    OldOrNewDirectory(w.files, was, next, names);
    RecordsWellNamed(was, next, names);
    SomethingListed(was, next, names);
  }

  lemma RecoveryOf(w: World, manifest: set<Name>, rs: seq<Record>)
    requires w.receipt == Pending(w.head, rs)
    requires rs != [] && AllWellNamed(rs) && AllEither(w.files, rs) && AllBackupsGood(rs)
    requires AllNew(w.files, rs) ==> DirectoryMatches(w.files, manifest)
    ensures Recovery(w, manifest) ==
      if AllOld(w.files, rs) then (RestoredOld, [DropReceipt])
      else if AllNew(w.files, rs) then (CompletedNew, [PutExport(Hashes(w.files)), DropReceipt])
      else (RestoredOld, RestoreOps(rs, Backups(rs)) + [DropReceipt])
  {
  }

  /** What recovery decides about an interrupted install: never a refusal. */
  lemma RecoveryDecides(w: World, was: map<Name, Content>, next: map<Name, Content>, names: seq<Name>, manifest: set<Name>)
    requires Interrupted(w, was, next, names, manifest)
    ensures Recovery(w, manifest) ==
      if w.files == was then (RestoredOld, [DropReceipt])
      else if w.files == next then (CompletedNew, [PutExport(Hashes(next)), DropReceipt])
      else (RestoredOld, SetFiles(was, names) + [DropReceipt])
  {
    var rs := RecordsFor(was, next, names);
    RecordsAreUsable(w, was, next, names, manifest);
    RestoringIsSettingOld(was, next, names, rs);
    NextIsComplete(next, manifest);
    RecoveryOf(w, manifest, rs);
  }

  lemma NextIsComplete(next: map<Name, Content>, manifest: set<Name>)
    requires next.Keys == manifest
    ensures DirectoryMatches(next, manifest)
  {
  }

  lemma RecordsWellNamed(was: map<Name, Content>, next: map<Name, Content>, names: seq<Name>)
    requires Lists(names, was.Keys + next.Keys) && PatchNames(was.Keys + next.Keys)
    ensures AllWellNamed(RecordsFor(was, next, names))
  {
    forall i | 0 <= i < |names|
      ensures IsPatchFileName(names[i])
    {
      assert names[i] in names;
    }
  }

  lemma SomethingListed(was: map<Name, Content>, next: map<Name, Content>, names: seq<Name>)
    requires Lists(names, was.Keys + next.Keys) && was != next
    ensures names != []
  {
    assert names == [] ==> was.Keys == {} && next.Keys == {};
    assert was.Keys == {} ==> was == map[];
    assert next.Keys == {} ==> next == map[];
  }

  /** The process may also die after any number `k` of a recovery's writes. */
  lemma RecoverUpTo(
    w: World, was: map<Name, Content>, next: map<Name, Content>, names: seq<Name>, manifest: set<Name>, k: nat)
    requires Interrupted(w, was, next, names, manifest) && k <= |Recovery(w, manifest).1|
    ensures var (outcome, ops) := Recovery(w, manifest);
      var w' := ApplyAll(w, ops[..k]);
      && outcome in {RestoredOld, CompletedNew}
      && (k < |ops| ==> Interrupted(w', was, next, names, manifest))
      && (k == |ops| ==> Quiet(w') && w'.files == if outcome.CompletedNew? then next else was)
  {
    RecoveryDecides(w, was, next, names, manifest);
    if w.files == was {
      CleanUpUpTo(w, was, next, names, manifest, k);
    } else if w.files == next {
      CompleteUpTo(w, was, next, names, manifest, k);
    } else {
      RestoreUpTo(w, was, next, names, manifest, k);
    }
  }

  lemma CleanUpUpTo(
    w: World, was: map<Name, Content>, next: map<Name, Content>, names: seq<Name>, manifest: set<Name>, k: nat)
    requires Interrupted(w, was, next, names, manifest) && w.files == was && k <= 1
    ensures var w' := ApplyAll(w, [DropReceipt][..k]);
      && (k == 0 ==> w' == w) && (k == 1 ==> Quiet(w') && w'.files == was)
  {
    ApplyOne(w, DropReceipt);
    assert [DropReceipt][..1] == [DropReceipt];
  }

  lemma CompleteUpTo(
    w: World, was: map<Name, Content>, next: map<Name, Content>, names: seq<Name>, manifest: set<Name>, k: nat)
    requires Interrupted(w, was, next, names, manifest) && w.files == next && k <= 2
    ensures var w' := ApplyAll(w, [PutExport(Hashes(next)), DropReceipt][..k]);
      && (k < 2 ==> Interrupted(w', was, next, names, manifest))
      && (k == 2 ==> Quiet(w') && w'.files == next)
  {
    var ops := [PutExport(Hashes(next)), DropReceipt];
    ApplyThen(w, [], ops[0], ops[1]);
    assert [] + ops == ops && ops[..2] == ops;
  }

  lemma RestoreUpTo(
    w: World, was: map<Name, Content>, next: map<Name, Content>, names: seq<Name>, manifest: set<Name>, k: nat)
    requires Interrupted(w, was, next, names, manifest) && w.files != next && k <= |names| + 1
    ensures var w' := ApplyAll(w, (SetFiles(was, names) + [DropReceipt])[..k]);
      && (k <= |names| ==> Interrupted(w', was, next, names, manifest))
      && (k == |names| + 1 ==> Quiet(w') && w'.files == was)
  {
    var ops := SetFiles(was, names) + [DropReceipt];
    if k <= |names| {
      RestoringIsAMix(w, was, next, names, k);
      RestorePrefixes(w, was, names, k);
      StillInterrupted(w, ApplyAll(w, ops[..k]), was, next, names, manifest);
    } else {
      RestoreEnds(w, was, next, names, manifest);
      assert ops[..k] == ops;
    }
  }

  lemma RestoreEnds(w: World, was: map<Name, Content>, next: map<Name, Content>, names: seq<Name>, manifest: set<Name>)
    requires Interrupted(w, was, next, names, manifest) && w.files != next
    ensures ApplyAll(w, SetFiles(was, names) + [DropReceipt]) == w.(files := was, receipt := NoReceipt)
  {
    RestoringIsAMix(w, was, next, names, |names|);
    RestorePrefixes(w, was, names, |names|);
  }

  lemma StillInterrupted(
    w: World, w': World, was: map<Name, Content>, next: map<Name, Content>, names: seq<Name>, manifest: set<Name>)
    requires Interrupted(w, was, next, names, manifest)
    requires w'.head == w.head && w'.receipt == w.receipt && w'.lastExport == w.lastExport && Mix(w'.files, was, next)
    requires w.files != next || w'.files == next
    ensures Interrupted(w', was, next, names, manifest)
  {
  }

  lemma RestorePrefixes(w: World, was: map<Name, Content>, names: seq<Name>, j: nat)
    requires j <= |names|
    ensures var ops := SetFiles(was, names) + [DropReceipt];
      && ApplyAll(w, ops[..j]) == ApplyAll(w, SetFiles(was, names)[..j])
      && ApplyAll(w, ops) == ApplyAll(w, SetFiles(was, names)[..|names|]).(receipt := NoReceipt)
  {
    var sets := SetFiles(was, names);
    assert (sets + [DropReceipt])[..j] == sets[..j] && sets[..|names|] == sets;
    ApplySnoc(w, sets, DropReceipt);
  }

  // ---------- Runs ----------

  /**
   One refresh step, dying after `fuel` durable writes; `order` is the order `git apply` chose. HEAD
   of the outer repository may move at any time.
   */
  datatype Event =
    | Install(candidate: map<Name, Content>, names: seq<Name>, order: seq<Name>, fuel: nat)
    | Recover(fuel: nat)
    | MoveHead(head: string)

  function Writes(w: World, e: Event, manifest: set<Name>): seq<Op> {
    match e
    case Install(candidate, names, order, _) => InstallOps(w, candidate, names, order)
    case Recover(_) => Recovery(w, manifest).1
    case MoveHead(_) => []
  }

  /** A refresh installs only after its own recovery left no receipt. */
  ghost predicate Enabled(w: World, e: Event, manifest: set<Name>) {
    match e
    case Install(candidate, names, order, fuel) =>
      && w.receipt.NoReceipt? && candidate.Keys == manifest
      && Lists(names, w.files.Keys + candidate.Keys) && ListsChanges(order, w.files, candidate)
      && fuel <= |Writes(w, e, manifest)|
    case Recover(fuel) => fuel <= |Writes(w, e, manifest)|
    case MoveHead(_) => true
  }

  function After(w: World, e: Event, manifest: set<Name>): World
    requires !e.MoveHead? ==> e.fuel <= |Writes(w, e, manifest)|
  {
    if e.MoveHead? then w.(head := e.head) else ApplyAll(w, Writes(w, e, manifest)[..e.fuel])
  }

  ghost predicate IsRun(ws: seq<World>, es: seq<Event>, manifest: set<Name>) {
    && PatchNames(manifest) && |ws| == |es| + 1 && Quiet(ws[0])
    && forall i :: 0 <= i < |es| ==> StepAt(ws, es, manifest, i)
  }

  ghost predicate StepAt(ws: seq<World>, es: seq<Event>, manifest: set<Name>, i: nat)
    requires i < |es| && |ws| == |es| + 1
  {
    Enabled(ws[i], es[i], manifest) && ws[i + 1] == After(ws[i], es[i], manifest)
  }

  /** A receipt of another HEAD is refused, and nothing is written. */
  lemma OtherHeadIsRefused(w: World, manifest: set<Name>)
    requires w.receipt.Pending? && w.receipt.rootHead != w.head
    ensures Recovery(w, manifest) == (Refused, [])
  {
  }

  lemma InterruptedAtReceipt(
    w: World, was: map<Name, Content>, next: map<Name, Content>, names: seq<Name>, manifest: set<Name>)
    requires Interrupted(w, was, next, names, manifest)
    ensures AtReceipt(w) == w && Inv(w, manifest)
  {
  }

  lemma RecoverInterrupted(w: World, w': World, ops: seq<Op>, manifest: set<Name>, fuel: nat)
    requires Inv(w, manifest) && w.receipt.Pending? && w.receipt.rootHead == w.head
    requires ops == Recovery(w, manifest).1 && fuel <= |ops| && w' == ApplyAll(w, ops[..fuel])
    ensures Inv(w', manifest)
  {
    assert AtReceipt(w) == w;
    var was, next, names :| Interrupted(w, was, next, names, manifest);
    RecoverUpTo(w, was, next, names, manifest, fuel);
    if fuel < |ops| {
      InterruptedAtReceipt(w', was, next, names, manifest);
    }
  }

  lemma RecoverKeepsInv(w: World, fuel: nat, manifest: set<Name>)
    requires Inv(w, manifest) && fuel <= |Recovery(w, manifest).1|
    ensures Inv(ApplyAll(w, Recovery(w, manifest).1[..fuel]), manifest)
  {
    var ops := Recovery(w, manifest).1;
    if w.receipt.Pending? && w.receipt.rootHead == w.head {
      RecoverInterrupted(w, ApplyAll(w, ops[..fuel]), ops, manifest, fuel);
    } else if w.receipt.Pending? {
      OtherHeadIsRefused(w, manifest);
    }
  }

  lemma {:induction false} HeadStays(w: World, ops: seq<Op>)
    ensures ApplyAll(w, ops).head == w.head
  {
    if ops != [] {
      HeadStays(w, ops[..|ops| - 1]);
    }
  }

  lemma StepKeepsInv(w: World, e: Event, manifest: set<Name>)
    requires PatchNames(manifest) && Inv(w, manifest) && Enabled(w, e, manifest)
    ensures Inv(After(w, e, manifest), manifest)
  {
    match e
    case Install(candidate, names, order, fuel) =>
      InstallUpTo(w, candidate, names, order, manifest, fuel);
      if 0 < fuel < |Writes(w, e, manifest)| {
        InterruptedAtReceipt(After(w, e, manifest), w.files, candidate, names, manifest);
      }
    case Recover(fuel) => RecoverKeepsInv(w, fuel, manifest);
    case MoveHead(head) =>
      assert w.receipt.Pending? ==> AtReceipt(w.(head := head)) == AtReceipt(w);
  }

  lemma {:induction false} RunKeepsInv(ws: seq<World>, es: seq<Event>, manifest: set<Name>, i: nat)
    requires IsRun(ws, es, manifest) && i < |ws|
    ensures Inv(ws[i], manifest)
  {
    if i > 0 {
      RunKeepsInv(ws, es, manifest, i - 1);
      assert StepAt(ws, es, manifest, i - 1);
      StepKeepsInv(ws[i - 1], es[i - 1], manifest);
    }
  }

  /**
   In every reachable state, with any number of crashes in installs and recoveries: no receipt means
   the last export is absent or describes the directory, so the next refresh accepts its baseline.
   */
  lemma NoReceiptMeansAcceptedBaseline(ws: seq<World>, es: seq<Event>, manifest: set<Name>, i: nat)
    requires IsRun(ws, es, manifest) && i < |ws| && ws[i].receipt.NoReceipt?
    ensures ws[i].lastExport.None? || ws[i].lastExport == Some(Hashes(ws[i].files))
    ensures ws[i].lastExport.Some? ==> JudgeBaseline(ws[i]).AcceptedByExport?
  {
    RunKeepsInv(ws, es, manifest, i);
  }

  /** An install from `was` to `next` that is over, one way or the other, or interrupted. */
  ghost predicate AllOrNothing(w: World, was: map<Name, Content>, next: map<Name, Content>, names: seq<Name>, manifest: set<Name>) {
    if w.receipt.NoReceipt? then w.files == was || w.files == next
    else Interrupted(AtReceipt(w), was, next, names, manifest)
  }

  lemma AfterInstall(w: World, e: Event, manifest: set<Name>)
    requires PatchNames(manifest) && Quiet(w) && e.Install? && Enabled(w, e, manifest)
    ensures AllOrNothing(After(w, e, manifest), w.files, e.candidate, e.names, manifest)
  {
    InstallUpTo(w, e.candidate, e.names, e.order, manifest, e.fuel);
  }

  lemma AfterRecover(
    w: World, e: Event, was: map<Name, Content>, next: map<Name, Content>, names: seq<Name>, manifest: set<Name>)
    requires AllOrNothing(w, was, next, names, manifest) && !e.Install? && Enabled(w, e, manifest)
    ensures AllOrNothing(After(w, e, manifest), was, next, names, manifest)
  {
    if e.MoveHead? {
      assert w.receipt.Pending? ==> AtReceipt(w.(head := e.head)) == AtReceipt(w);
    } else if w.receipt.Pending? && w.receipt.rootHead == w.head {
      assert AtReceipt(w) == w;
      RecoverUpTo(w, was, next, names, manifest, e.fuel);
      HeadStays(w, Recovery(w, manifest).1[..e.fuel]);
    } else if w.receipt.Pending? {
      OtherHeadIsRefused(w, manifest);
    }
  }

  lemma InstallStep(ws: seq<World>, es: seq<Event>, manifest: set<Name>, at: nat, start: World, install: Event, end: World)
    requires IsRun(ws, es, manifest) && at < |es|
    requires start == ws[at] && install == es[at] && install.Install? && end == ws[at + 1]
    ensures AllOrNothing(end, start.files, install.candidate, install.names, manifest)
  {
    RunKeepsInv(ws, es, manifest, at);
    assert StepAt(ws, es, manifest, at);
    AfterInstall(start, install, manifest);
  }

  lemma RecoverStep(ws: seq<World>, es: seq<Event>, manifest: set<Name>, at: nat, last: World, end: World,
                    was: map<Name, Content>, next: map<Name, Content>, names: seq<Name>)
    requires IsRun(ws, es, manifest) && at < |es| && !es[at].Install?
    requires last == ws[at] && end == ws[at + 1] && AllOrNothing(last, was, next, names, manifest)
    ensures AllOrNothing(end, was, next, names, manifest)
  {
    assert StepAt(ws, es, manifest, at);
    AfterRecover(last, es[at], was, next, names, manifest);
  }

  /**
   An install that dies is undone or completed as a whole: whatever crashes follow and wherever HEAD
   moves, once no receipt is left the directory is as it was before the install, or as the candidate.
   */
  lemma {:induction false} InterruptedInstallIsAtomic(
    ws: seq<World>, es: seq<Event>, manifest: set<Name>, at: nat, i: nat, start: World, install: Event, end: World)
    requires IsRun(ws, es, manifest) && at < i < |ws|
    requires start == ws[at] && install == es[at] && install.Install? && end == ws[i]
    requires forall j :: at < j < i ==> !es[j].Install?
    ensures AllOrNothing(end, start.files, install.candidate, install.names, manifest)
    decreases i
  {
    if i == at + 1 {
      InstallStep(ws, es, manifest, at, start, install, end);
    } else {
      var last := ws[i - 1];
      InterruptedInstallIsAtomic(ws, es, manifest, at, i - 1, start, install, last);
      RecoverStep(ws, es, manifest, i - 1, last, end, start.files, install.candidate, install.names);
    }
  }

  /** In every reachable state recovery refuses exactly while HEAD is elsewhere; otherwise it can finish. */
  lemma ReachableRecoveryRefusesIff(ws: seq<World>, es: seq<Event>, manifest: set<Name>, i: nat)
    requires IsRun(ws, es, manifest) && i < |ws|
    ensures var (outcome, ops) := Recovery(ws[i], manifest);
      && (outcome.Refused? <==> ws[i].receipt.Pending? && ws[i].receipt.rootHead != ws[i].head)
      && (!outcome.Refused? ==> Quiet(ApplyAll(ws[i], ops)))
  {
    RunKeepsInv(ws, es, manifest, i);
    var w := ws[i];
    if w.receipt.Pending? && w.receipt.rootHead == w.head {
      var was, next, names :| Interrupted(AtReceipt(w), was, next, names, manifest);
      var ops := Recovery(w, manifest).1;
      assert AtReceipt(w) == w;
      RecoverUpTo(w, was, next, names, manifest, |ops|);
      assert ops[..|ops|] == ops;
    }
  }

  /** Until HEAD is back, files, receipt and export stay as they are, whatever recoveries are tried. */
  lemma {:induction false} NothingChangesAtAnotherHead(
    ws: seq<World>, es: seq<Event>, manifest: set<Name>, lo: nat, hi: nat)
    requires IsRun(ws, es, manifest) && lo <= hi < |ws| && ws[lo].receipt.Pending?
    requires forall j :: lo <= j < hi ==> ws[j].head != ws[lo].receipt.rootHead
    ensures ws[hi] == ws[lo].(head := ws[hi].head)
    decreases hi
  {
    if lo < hi {
      NothingChangesAtAnotherHead(ws, es, manifest, lo, hi - 1);
      assert StepAt(ws, es, manifest, hi - 1);
      if es[hi - 1].Recover? {
        OtherHeadIsRefused(ws[hi - 1], manifest);
      }
    }
  }

  // ---------- Recovery of any world, edited from outside or not ----------

  /** Records that name the same path agree on its old state; those an install writes name no path twice. */
  ghost predicate Agree(rs: seq<Record>) {
    forall i, j :: 0 <= i < |rs| && 0 <= j < |rs| && rs[i].path == rs[j].path ==> rs[i].before == rs[j].before
  }

  lemma {:induction false} BackupOf(rs: seq<Record>, i: nat) returns (j: nat)
    requires AllBackupsGood(rs) && i < |rs| && rs[i].before.Some?
    ensures j < |rs| && rs[j].path == rs[i].path && rs[i].path in Backups(rs)
    ensures rs[j].before == Some(Sha256(Backups(rs)[rs[i].path]))
  {
    var n := |rs| - 1;
    if rs[n].path == rs[i].path && rs[n].before.Some? {
      j := n;
    } else {
      j := BackupOf(rs[..n], i);
    }
  }

  ghost predicate NamedUpTo(rs: seq<Record>, k: nat, name: Name) {
    exists j :: 0 <= j < k && j < |rs| && rs[j].path == name
  }

  /** Restoring the first `k` records brings the paths they name to their old states. */
  ghost predicate Restored(w: World, w': World, rs: seq<Record>, k: nat) {
    && w' == w.(files := w'.files)
    && forall i :: 0 <= i < |rs| ==>
         HashAt(w'.files, rs[i].path) == if NamedUpTo(rs, k, rs[i].path) then rs[i].before else HashAt(w.files, rs[i].path)
  }

  lemma {:induction false} RestoreEffect(w: World, rs: seq<Record>, ops: seq<Op>, k: nat)
    requires Agree(rs) && k <= |rs| && AllBackupsGood(rs) && ops == RestoreOps(rs, Backups(rs))
    ensures Restored(w, ApplyAll(w, ops[..k]), rs, k)
  {
    if k > 0 {
      RestoreEffect(w, rs, ops, k - 1);
      ApplyNext(w, ops, k - 1, RestoreOp(Backups(rs), rs[k - 1]));
      RestoreOne(w, ApplyAll(w, ops[..k - 1]), rs, k - 1);
    }
  }

  lemma RestoreOne(start: World, w: World, rs: seq<Record>, k: nat)
    requires Agree(rs) && k < |rs| && AllBackupsGood(rs) && Restored(start, w, rs, k)
    ensures Restored(start, Apply(w, RestoreOp(Backups(rs), rs[k])), rs, k + 1)
  {
    var backups := Backups(rs);
    if rs[k].before.Some? {
      var j := BackupOf(rs, k);
    }
    RestoreOpEffect(w, backups, rs[k]);
    OneMoreRestored(start, w, Apply(w, RestoreOp(backups, rs[k])), rs, k);
  }

  lemma RestoreOpEffect(w: World, backups: map<Name, Content>, r: Record)
    requires r.before.Some? ==> r.path in backups && r.before == Some(Sha256(backups[r.path]))
    ensures SetTo(w, Apply(w, RestoreOp(backups, r)), r.path, r.before)
  {
  }

  /** One path gets a new state and nothing else changes. */
  ghost predicate SetTo(w: World, w': World, name: Name, state: Option<Hash>) {
    && w' == w.(files := w'.files) && HashAt(w'.files, name) == state
    && forall n :: n != name ==> HashAt(w'.files, n) == HashAt(w.files, n)
  }

  lemma OneMoreNamed(rs: seq<Record>, k: nat, name: Name)
    requires k < |rs|
    ensures NamedUpTo(rs, k + 1, name) <==> NamedUpTo(rs, k, name) || rs[k].path == name
  {
  }

  lemma OneMoreRestored(start: World, w: World, w': World, rs: seq<Record>, k: nat)
    requires Agree(rs) && k < |rs| && Restored(start, w, rs, k) && SetTo(w, w', rs[k].path, rs[k].before)
    ensures Restored(start, w', rs, k + 1)
  {
    forall i | 0 <= i < |rs|
      ensures HashAt(w'.files, rs[i].path) ==
        if NamedUpTo(rs, k + 1, rs[i].path) then rs[i].before else HashAt(start.files, rs[i].path)
    {
      OneMoreNamed(rs, k, rs[i].path);
    }
  }

  /**
   From any world, edited from outside or not: a refusal (an unreadable receipt, another HEAD, foreign
   content, a bad backup) writes nothing; a recovery cut after `k` writes keeps its receipt; a finished
   one drops it and leaves every receipt path new or, when it restores, old: the latter exactly when
   records that name the same path agree. Then every cut leaves each path old or new as well.
   */
  lemma RecoveryIsAllOrNothing(w: World, manifest: set<Name>, k: nat)
    requires !w.receipt.NoReceipt? && k <= |Recovery(w, manifest).1|
    ensures var (outcome, ops) := Recovery(w, manifest);
      var rs := if w.receipt.Pending? then w.receipt.records else [];
      var w' := ApplyAll(w, ops[..k]);
      && (outcome.Refused? ==> ops == [] && w' == w)
      && (!outcome.Refused? && k < |ops| ==> w'.receipt == w.receipt && (Agree(rs) ==> AllEither(w'.files, rs)))
      && (outcome.RestoredOld? && k == |ops| ==> w'.receipt.NoReceipt? && (AllOld(w'.files, rs) <==> Agree(rs)))
      && (outcome.CompletedNew? && k == |ops| ==>
            w'.receipt.NoReceipt? && AllNew(w'.files, rs) && w'.lastExport == Some(Hashes(w'.files)))
  {
    var (outcome, ops) := Recovery(w, manifest);
    var rs := if w.receipt.Pending? then w.receipt.records else [];
    if outcome.CompletedNew? {
      CompleteCut(w, k);
    } else if outcome.RestoredOld? && AllOld(w.files, rs) {
      ApplyOne(w, DropReceipt);
      assert ops[..1] == ops;
      OldMeansAgreed(w.files, rs);
    } else if outcome.RestoredOld? {
      RestoreAnyCut(w, rs, k);
    }
  }

  /** The receipt belongs to this HEAD and names patch files. */
  predicate Belongs(w: World) {
    && w.receipt.Pending? && w.receipt.rootHead == w.head && w.receipt.records != []
    && forall i :: 0 <= i < |w.receipt.records| ==> IsPatchFileName(w.receipt.records[i].path)
  }

  /**
   Which way a recovery goes, from any world with a receipt: it writes nothing unless the receipt
   belongs here; it cleans up when all paths are old, completes when all are new and the directory
   is the manifest's, and restores when all are old or new and every backup is good.
   */
  lemma RecoveryGoesExactly(w: World, manifest: set<Name>)
    requires !w.receipt.NoReceipt?
    ensures var (outcome, ops) := Recovery(w, manifest);
      var rs := if w.receipt.Pending? then w.receipt.records else [];
      if !Belongs(w) then outcome.Refused?
      else if AllOld(w.files, rs) then outcome.RestoredOld? && ops == [DropReceipt]
      else if AllNew(w.files, rs) then
        if w.files.Keys == manifest then outcome.CompletedNew? else outcome.Refused?
      else if AllEither(w.files, rs) && AllBackupsGood(rs) then outcome.RestoredOld? && |ops| == |rs| + 1
      else outcome.Refused?
    ensures Recovery(w, manifest).0.Refused? <==> Recovery(w, manifest).1 == []
  {
  }

  /** Whatever a recovery writes, names that its receipt does not list keep their files. */
  lemma RecoveryTouchesOnly(w: World, manifest: set<Name>, k: nat, name: Name)
    requires w.receipt.Pending? && k <= |Recovery(w, manifest).1|
    requires forall i :: 0 <= i < |w.receipt.records| ==> w.receipt.records[i].path != name
    ensures var w' := ApplyAll(w, Recovery(w, manifest).1[..k]);
      && HashAt(w'.files, name) == HashAt(w.files, name) && w'.head == w.head
      && (!Recovery(w, manifest).0.CompletedNew? ==> w'.lastExport == w.lastExport)
      && (Recovery(w, manifest).0.CompletedNew? ==> w'.files == w.files)
  {
    var (outcome, ops) := Recovery(w, manifest);
    var rs := w.receipt.records;
    if outcome.CompletedNew? {
      CompleteCut(w, k);
    } else {
      forall i | 0 <= i < k
        ensures TouchesOnly(ops[i], rs)
      {
        if ops != [DropReceipt] && i < |rs| {
          assert ops[i] == RestoreOp(Backups(rs), rs[i]);
        }
      }
      OthersStay(w, ops[..k], rs, name);
    }
  }

  /** The op sets or drops a file that the records list, or the receipt. */
  predicate TouchesOnly(op: Op, rs: seq<Record>) {
    match op
    case PutFile(n, _) => exists i :: 0 <= i < |rs| && rs[i].path == n
    case DropFile(n) => exists i :: 0 <= i < |rs| && rs[i].path == n
    case DropReceipt => true
    case _ => false
  }

  lemma {:induction false} OthersStay(w: World, ops: seq<Op>, rs: seq<Record>, name: Name)
    requires forall i :: 0 <= i < |ops| ==> TouchesOnly(ops[i], rs)
    requires forall i :: 0 <= i < |rs| ==> rs[i].path != name
    ensures var w' := ApplyAll(w, ops);
      HashAt(w'.files, name) == HashAt(w.files, name) && w'.head == w.head && w'.lastExport == w.lastExport
  {
    if ops != [] {
      OthersStay(w, ops[..|ops| - 1], rs, name);
      assert TouchesOnly(ops[|ops| - 1], rs);
    }
  }

  lemma OldMeansAgreed(files: map<Name, Content>, rs: seq<Record>)
    requires AllOld(files, rs)
    ensures Agree(rs)
  {
  }

  lemma CompleteCut(w: World, k: nat)
    requires k <= 2
    ensures var w' := ApplyAll(w, [PutExport(Hashes(w.files)), DropReceipt][..k]);
      w' == w.(lastExport := if k == 0 then w.lastExport else Some(Hashes(w.files)),
               receipt := if k == 2 then NoReceipt else w.receipt)
  {
    var ops := [PutExport(Hashes(w.files)), DropReceipt];
    ApplyOne(w, ops[0]);
    ApplyThen(w, [], ops[0], ops[1]);
    assert [] + ops == ops && ops[..1] == [ops[0]] && ops[..2] == ops;
  }

  lemma RestoreAnyCut(w: World, rs: seq<Record>, k: nat)
    requires k <= |rs| + 1 && AllEither(w.files, rs) && AllBackupsGood(rs)
    ensures var w' := ApplyAll(w, (RestoreOps(rs, Backups(rs)) + [DropReceipt])[..k]);
      && (k <= |rs| ==> w'.receipt == w.receipt && (Agree(rs) ==> AllEither(w'.files, rs)))
      && (k == |rs| + 1 ==> w'.receipt.NoReceipt? && (AllOld(w'.files, rs) <==> Agree(rs)))
  {
    var j := if k <= |rs| then k else |rs|;
    var sets := RestoreOps(rs, Backups(rs));
    var ops := sets + [DropReceipt];
    RestoreKeepsReceipt(w, rs, Backups(rs), j);
    RestoreCut(w, sets, j);
    assert k == |rs| + 1 ==> ops[..k] == ops;
    var w' := ApplyAll(w, ops[..k]);
    if Agree(rs) {
      RestoreEffect(w, rs, sets, j);
      assert forall i :: 0 <= i < |rs| ==> j == |rs| ==> NamedUpTo(rs, j, rs[i].path);
    } else if AllOld(w'.files, rs) {
      OldMeansAgreed(w'.files, rs);
    }
  }

  lemma {:induction false} RestoreKeepsReceipt(w: World, rs: seq<Record>, backups: map<Name, Content>, k: nat)
    requires k <= |rs|
    ensures ApplyAll(w, RestoreOps(rs, backups)[..k]).receipt == w.receipt
  {
    if k > 0 {
      var ops := RestoreOps(rs, backups);
      RestoreKeepsReceipt(w, rs, backups, k - 1);
      ApplyNext(w, ops, k - 1, ops[k - 1]);
    }
  }

  lemma RestoreCut(w: World, sets: seq<Op>, j: nat)
    requires j <= |sets|
    ensures var ops := sets + [DropReceipt];
      && ApplyAll(w, ops[..j]) == ApplyAll(w, sets[..j])
      && ApplyAll(w, ops) == ApplyAll(w, sets[..|sets|]).(receipt := NoReceipt)
  {
    assert (sets + [DropReceipt])[..j] == sets[..j] && sets[..|sets|] == sets;
    ApplySnoc(w, sets, DropReceipt);
  }

  // ---------- The install and the recovery as they run ----------

  class PatchStore {
    var head: string
    var files: map<Name, Content>
    var receipt: Receipt
    var lastExport: Option<map<Name, Hash>>
    var fuel: nat  // durable writes left before the process dies

    function View(): World
      reads this
    {
      World(head, files, receipt, lastExport)
    }

    /** One durable write, unless the process dies first. */
    method Write(op: Op) returns (alive: bool)
      modifies this
      ensures alive == (old(fuel) > 0)
      ensures alive ==> View() == Apply(old(View()), op) && fuel == old(fuel) - 1
      ensures !alive ==> View() == old(View()) && fuel == 0
    {
      if fuel == 0 {
        return false;
      }
      fuel := fuel - 1;
      match op {
        case PutReceipt(r) => receipt := r;
        case DropReceipt => receipt := NoReceipt;
        case PutFile(name, content) => files := files[name := content];
        case DropFile(name) => files := files - {name};
        case PutExport(hashes) => lastExport := Some(hashes);
      }
      return true;
    }

    /** Consecutive writes: the ones the fuel lasts for happen, in order. */
    method WriteEach(ops: seq<Op>) returns (alive: bool)
      modifies this
      ensures alive == (old(fuel) >= |ops|)
      ensures View() == ApplyAll(old(View()), ops[..Min(old(fuel), |ops|)])
      ensures fuel == SaturatingSub(old(fuel), |ops|)
    {
      ghost var w := View();
      for i := 0 to |ops|
        invariant View() == ApplyAll(w, ops[..i]) && fuel == old(fuel) - i
      {
        assert ops[..i + 1] == ops[..i] + [ops[i]];
        ApplySnoc(w, ops[..i], ops[i]);
        var ok := Write(ops[i]);
        if !ok {
          return false;
        }
      }
      return true;
    }

    method InstallPatchFiles(candidate: map<Name, Content>, names: seq<Name>, order: seq<Name>) returns (done: bool)
      requires ListsChanges(order, files, candidate)
      modifies this
      ensures var ops := InstallOps(old(View()), candidate, names, order);
        && done == (old(fuel) >= |ops|)
        && View() == ApplyAll(old(View()), ops[..Min(old(fuel), |ops|)])
    {
      ghost var w, start := View(), fuel;
      ghost var ops := InstallOps(w, candidate, names, order);
      if candidate == files {
        done := WriteEach([PutExport(Hashes(files))]);
        return;
      }
      var put := PutReceipt(Pending(head, RecordsFor(files, candidate, names)));
      var alive := WriteEach([put]);
      if !alive {
        return false;
      }
      assert [put][..1] == [put];
      var sets, last := SetFiles(candidate, order), [PutExport(Hashes(candidate)), DropReceipt];
      alive := WriteEach(sets);
      ghost var written := Min(start - 1, |order|);
      ApplyConcat(w, [put], sets[..written]);
      CutInMiddle([put], sets, last, written);
      if !alive {
        return false;
      }
      assert sets[..|order|] == sets;
      done := WriteEach(last);
      ghost var rest := Min(start - 1 - |order|, 2);
      ApplyConcat(w, [put] + sets, last[..rest]);
      CutInLast([put], sets, last, rest);
    }

    /** Every backup is checked before any file is restored. */
    method ReadBackups(rs: seq<Record>) returns (backups: Option<map<Name, Content>>)
      ensures backups == if AllBackupsGood(rs) then Some(Backups(rs)) else None
    {
      var read: map<Name, Content> := map[];
      for i := 0 to |rs|
        invariant AllBackupsGood(rs[..i]) && read == Backups(rs[..i])
      {
        assert rs[..i + 1][..i] == rs[..i];
        if rs[i].before.Some? {
          if rs[i].beforeContent.None? || Sha256(rs[i].beforeContent.value) != rs[i].before.value {
            return None;
          }
          read := read[rs[i].path := rs[i].beforeContent.value];
        }
      }
      assert rs[..|rs|] == rs;
      return Some(read);
    }

    method RecoverPatchInstall(manifest: set<Name>) returns (outcome: Outcome, done: bool)
      modifies this
      ensures var (decided, ops) := Recovery(old(View()), manifest);
        && outcome == decided
        && done == (old(fuel) >= |ops|)
        && View() == ApplyAll(old(View()), ops[..Min(old(fuel), |ops|)])
    {
      if receipt.NoReceipt? {
        return Nothing, true;
      }
      if receipt.Unreadable? || receipt.rootHead != head {
        return Refused, true;
      }
      var rs := receipt.records;
      if rs == [] || !AllWellNamed(rs) {
        return Refused, true;
      }
      if AllOld(files, rs) {
        done := WriteEach([DropReceipt]);
        return RestoredOld, done;
      }
      if AllNew(files, rs) {
        if !DirectoryMatches(files, manifest) {
          return Refused, true;
        }
        done := WriteEach([PutExport(Hashes(files)), DropReceipt]);
        return CompletedNew, done;
      }
      if !AllEither(files, rs) {
        return Refused, true;
      }
      var backups := ReadBackups(rs);
      if backups.None? {
        return Refused, true;
      }
      done := WriteEach(RestoreOps(rs, backups.value) + [DropReceipt]);
      return RestoredOld, done;
    }
  }
}
