/**
 Which install receipts a recovery survives: it may die after any of its writes, and the next one
 starts from what it left. Receipts are whatever the file says; an install writes only agreeing ones.
 */
module RecoveryCuts {
  import opened Common
  import opened PatchInstall

  /** The state to which restoring a record brings its path. */
  function Target(rs: seq<Record>, i: nat): Option<Hash>
    requires i < |rs|
  {
    if rs[i].before.None? || rs[i].path !in Backups(rs) then None else Some(Sha256(Backups(rs)[rs[i].path]))
  }

  /** Record j knows the state that restoring record i leaves. */
  predicate Accepted(rs: seq<Record>, i: nat, j: nat)
    requires i < |rs| && j < |rs|
  {
    Target(rs, i) == rs[j].before || Target(rs, i) == rs[j].after
  }

  /** What a record is restored to is an old or a new state for every record of the same path. */
  predicate TargetsFit(rs: seq<Record>) {
    forall i, j :: 0 <= i < |rs| && 0 <= j < |rs| && rs[i].path == rs[j].path ==> Accepted(rs, i, j)
  }

  // ---------- What a cut restore leaves ----------

  lemma RestoresTarget(w: World, rs: seq<Record>, i: nat)
    requires i < |rs|
    ensures SetTo(w, Apply(w, RestoreOp(Backups(rs), rs[i])), rs[i].path, Target(rs, i))
  {
  }

  /** One of the first k records names this path and gave it its state. */
  ghost predicate GivenBy(files: map<Name, Content>, rs: seq<Record>, k: nat, name: Name) {
    exists j :: 0 <= j < k && j < |rs| && rs[j].path == name && HashAt(files, name) == Target(rs, j)
  }

  ghost predicate KeptOrGiven(files: map<Name, Content>, files': map<Name, Content>, rs: seq<Record>, k: nat, name: Name) {
    HashAt(files', name) == HashAt(files, name) || GivenBy(files', rs, k, name)
  }

  lemma OneMoreGiven(w: World, w': World, rs: seq<Record>, k: nat, files: map<Name, Content>, name: Name)
    requires k < |rs| && KeptOrGiven(files, w.files, rs, k, name) && SetTo(w, w', rs[k].path, Target(rs, k))
    ensures KeptOrGiven(files, w'.files, rs, k + 1, name)
  {
    if name != rs[k].path && GivenBy(w.files, rs, k, name) {
      var j :| 0 <= j < k && j < |rs| && rs[j].path == name && HashAt(w.files, name) == Target(rs, j);
      assert HashAt(w'.files, name) == Target(rs, j);
    }
  }

  lemma {:induction false} CutState(w: World, rs: seq<Record>, ops: seq<Op>, k: nat, name: Name)
    requires ops == RestoreOps(rs, Backups(rs)) && k <= |rs|
    ensures var w' := ApplyAll(w, ops[..k]);
      w' == w.(files := w'.files) && KeptOrGiven(w.files, w'.files, rs, k, name)
  {
    if k > 0 {
      var before := ApplyAll(w, ops[..k - 1]);
      CutState(w, rs, ops, k - 1, name);
      ApplyNext(w, ops, k - 1, RestoreOp(Backups(rs), rs[k - 1]));
      RestoresTarget(before, rs, k - 1);
      OneMoreGiven(before, ApplyAll(w, ops[..k]), rs, k - 1, w.files, name);
    }
  }

  lemma JustGiven(w: World, rs: seq<Record>, ops: seq<Op>, i: nat)
    requires ops == RestoreOps(rs, Backups(rs)) && i < |rs|
    ensures HashAt(ApplyAll(w, ops[..i + 1]).files, rs[i].path) == Target(rs, i)
  {
    ApplyNext(w, ops, i, RestoreOp(Backups(rs), rs[i]));
    RestoresTarget(ApplyAll(w, ops[..i]), rs, i);
  }

  ghost predicate EitherAfter(w: World, rs: seq<Record>, ops: seq<Op>, k: nat)
    requires k <= |ops|
  {
    AllEither(ApplyAll(w, ops[..k]).files, rs)
  }

  lemma FittingCutIsEither(w: World, rs: seq<Record>, ops: seq<Op>, k: nat)
    requires AllEither(w.files, rs) && TargetsFit(rs) && ops == RestoreOps(rs, Backups(rs)) && k <= |rs|
    ensures EitherAfter(w, rs, ops, k)
  {
    var files := ApplyAll(w, ops[..k]).files;
    forall i | 0 <= i < |rs|
      ensures HashAt(files, rs[i].path) == rs[i].before || HashAt(files, rs[i].path) == rs[i].after
    {
      CutState(w, rs, ops, k, rs[i].path);
      if GivenBy(files, rs, k, rs[i].path) {
        var j :| 0 <= j < k && j < |rs| && rs[j].path == rs[i].path && HashAt(files, rs[i].path) == Target(rs, j);
        assert Accepted(rs, j, i);
      }
    }
  }

  /** No cut leaves a path in a state foreign to one of its records exactly when the targets fit. */
  lemma EitherAtEveryCutIff(w: World, rs: seq<Record>, ops: seq<Op>)
    requires AllEither(w.files, rs) && ops == RestoreOps(rs, Backups(rs))
    ensures (forall k :: 0 <= k <= |rs| ==> EitherAfter(w, rs, ops, k)) <==> TargetsFit(rs)
  {
    if TargetsFit(rs) {
      forall k | 0 <= k <= |rs|
        ensures EitherAfter(w, rs, ops, k)
      {
        FittingCutIsEither(w, rs, ops, k);
      }
    }
    if forall k :: 0 <= k <= |rs| ==> EitherAfter(w, rs, ops, k) {
      forall i, j | 0 <= i < |rs| && 0 <= j < |rs| && rs[i].path == rs[j].path
        ensures Accepted(rs, i, j)
      {
        JustGiven(w, rs, ops, i);
        assert EitherAfter(w, rs, ops, i + 1);
      }
    }
  }

  /** What is restored is an old state of some record of that path. */
  lemma TargetIsOld(rs: seq<Record>, i: nat) returns (m: nat)
    requires AllBackupsGood(rs) && i < |rs|
    ensures m < |rs| && rs[m].path == rs[i].path && rs[m].before == Target(rs, i)
  {
    m := i;
    if rs[i].before.Some? {
      m := BackupOf(rs, i);
    }
  }

  /** Restoring never makes everything new that was not new before. */
  lemma RestoringIsNotCompleting(w: World, rs: seq<Record>, ops: seq<Op>, k: nat)
    requires AllEither(w.files, rs) && AllBackupsGood(rs) && ops == RestoreOps(rs, Backups(rs)) && k <= |rs|
    requires AllNew(ApplyAll(w, ops[..k]).files, rs)
    ensures AllNew(w.files, rs)
  {
    var files := ApplyAll(w, ops[..k]).files;
    forall i | 0 <= i < |rs|
      ensures HashAt(w.files, rs[i].path) == rs[i].after
    {
      CutState(w, rs, ops, k, rs[i].path);
      if GivenBy(files, rs, k, rs[i].path) {
        var j :| 0 <= j < k && j < |rs| && rs[j].path == rs[i].path && HashAt(files, rs[i].path) == Target(rs, j);
        var m := TargetIsOld(rs, j);
        assert rs[m].path == rs[i].path && rs[m].before == Target(rs, j) == rs[m].after;
      }
    }
  }

  // ---------- Which receipts survive any crashes ----------

  /** What a recovery that dies after k writes, or finishes, leaves. */
  function AfterCut(w: World, manifest: set<Name>, k: nat): World {
    var ops := Recovery(w, manifest).1;
    ApplyAll(w, ops[..Min(k, |ops|)])
  }

  function AfterCuts(w: World, manifest: set<Name>, cuts: seq<nat>): World {
    if cuts == [] then w else AfterCut(AfterCuts(w, manifest, cuts[..|cuts| - 1]), manifest, cuts[|cuts| - 1])
  }

  predicate Refuses(w: World, manifest: set<Name>) {
    Recovery(w, manifest).0.Refused?
  }

  /** Nothing is left to restore, or restoring leaves no foreign state. */
  predicate Survivable(w: World) {
    w.receipt.Pending? ==>
      var rs := w.receipt.records; AllOld(w.files, rs) || AllNew(w.files, rs) || TargetsFit(rs)
  }

  /** A recovery that is about to restore. */
  ghost predicate Restores(w: World, rs: seq<Record>) {
    && w.receipt == Pending(w.head, rs)
    && rs != [] && AllWellNamed(rs) && AllEither(w.files, rs) && AllBackupsGood(rs)
    && !AllOld(w.files, rs) && !AllNew(w.files, rs)
  }

  lemma RestoresOps(w: World, manifest: set<Name>, rs: seq<Record>)
    requires Restores(w, rs)
    ensures Recovery(w, manifest) == (RestoredOld, RestoreOps(rs, Backups(rs)) + [DropReceipt])
  {
    RecoveryOf(w, manifest, rs);
  }

  lemma RefusesIff(w: World, manifest: set<Name>, rs: seq<Record>)
    requires w.receipt == Pending(w.head, rs) && rs != [] && AllWellNamed(rs) && AllBackupsGood(rs)
    requires AllNew(w.files, rs) ==> AllOld(w.files, rs)
    ensures Refuses(w, manifest) <==> !AllEither(w.files, rs)
  {
  }

  /** After a cut restore the next recovery refuses exactly when some path is in a foreign state. */
  lemma CutRestoreRefusesIff(w: World, manifest: set<Name>, rs: seq<Record>, ops: seq<Op>, k: nat)
    requires Restores(w, rs) && ops == RestoreOps(rs, Backups(rs)) && k <= |rs|
    ensures AfterCut(w, manifest, k) == ApplyAll(w, ops[..k])
    ensures AfterCut(w, manifest, k).receipt == w.receipt
    ensures Refuses(AfterCut(w, manifest, k), manifest) <==> !EitherAfter(w, rs, ops, k)
  {
    RestoresOps(w, manifest, rs);
    assert (ops + [DropReceipt])[..k] == ops[..k];
    var w' := ApplyAll(w, ops[..k]);
    CutState(w, rs, ops, k, rs[0].path);
    if AllNew(w'.files, rs) {
      RestoringIsNotCompleting(w, rs, ops, k);
    }
    RefusesIff(w', manifest, rs);
  }

  lemma FinishedRestore(w: World, manifest: set<Name>, rs: seq<Record>, k: nat)
    requires Restores(w, rs) && k > |rs|
    ensures AfterCut(w, manifest, k).receipt.NoReceipt?
  {
    var ops := RestoreOps(rs, Backups(rs));
    RestoresOps(w, manifest, rs);
    assert (ops + [DropReceipt])[..|rs| + 1] == ops + [DropReceipt];
    ApplySnoc(w, ops, DropReceipt);
  }

  lemma RestoreSurvives(w: World, manifest: set<Name>, rs: seq<Record>, k: nat)
    requires Restores(w, rs) && TargetsFit(rs)
    ensures var w' := AfterCut(w, manifest, k); !Refuses(w', manifest) && Survivable(w')
  {
    if k > |rs| {
      FinishedRestore(w, manifest, rs, k);
    } else {
      CutRestoreRefusesIff(w, manifest, rs, RestoreOps(rs, Backups(rs)), k);
      FittingCutIsEither(w, rs, RestoreOps(rs, Backups(rs)), k);
    }
  }

  lemma CleanUpSurvives(w: World, manifest: set<Name>, k: nat)
    requires !Refuses(w, manifest) && w.receipt.Pending?
    requires AllOld(w.files, w.receipt.records) || AllNew(w.files, w.receipt.records)
    ensures var w' := AfterCut(w, manifest, k); !Refuses(w', manifest) && Survivable(w')
  {
    var ops := Recovery(w, manifest).1;
    if AllOld(w.files, w.receipt.records) {
      ApplyOne(w, DropReceipt);
      assert ops[..0] == [] && ops[..1] == ops;
    } else {
      CompleteCut(w, Min(k, 2));
    }
  }

  lemma CutSurvives(w: World, manifest: set<Name>, k: nat)
    requires !Refuses(w, manifest) && Survivable(w)
    ensures var w' := AfterCut(w, manifest, k); !Refuses(w', manifest) && Survivable(w')
  {
    if w.receipt.Pending? {
      var rs := w.receipt.records;
      if AllOld(w.files, rs) || AllNew(w.files, rs) {
        CleanUpSurvives(w, manifest, k);
      } else {
        RestoreSurvives(w, manifest, rs, k);
      }
    }
  }

  lemma {:induction false} CutsSurvive(w: World, manifest: set<Name>, cuts: seq<nat>)
    requires !Refuses(w, manifest) && Survivable(w)
    ensures var w' := AfterCuts(w, manifest, cuts); !Refuses(w', manifest) && Survivable(w')
  {
    if cuts != [] {
      var n := |cuts| - 1;
      CutsSurvive(w, manifest, cuts[..n]);
      CutSurvives(AfterCuts(w, manifest, cuts[..n]), manifest, cuts[n]);
    }
  }

  /** When restoring leaves a foreign state, one crash is enough to be refused. */
  lemma OneCutIsRefused(w: World, manifest: set<Name>) returns (k: nat)
    requires !Refuses(w, manifest) && !Survivable(w)
    ensures Refuses(AfterCut(w, manifest, k), manifest)
  {
    var rs := w.receipt.records;
    var ops := RestoreOps(rs, Backups(rs));
    EitherAtEveryCutIff(w, rs, ops);
    k :| 0 <= k <= |rs| && !EitherAfter(w, rs, ops, k);
    CutRestoreRefusesIff(w, manifest, rs, ops, k);
  }

  ghost predicate GoesOn(w: World, manifest: set<Name>, cuts: seq<nat>) {
    !Refuses(AfterCuts(w, manifest, cuts), manifest)
  }

  lemma OneCut(w: World, manifest: set<Name>, k: nat)
    ensures AfterCuts(w, manifest, [k]) == AfterCut(w, manifest, k)
  {
    assert [k][..0] == [];
    assert AfterCuts(w, manifest, []) == w;
  }

  /**
   From any world whose recovery is not refused: however often and wherever it dies, the next one is
   not refused either, exactly when nothing is left to restore or the receipt's targets fit.
   */
  lemma RecoverySurvivesIff(w: World, manifest: set<Name>)
    requires !Refuses(w, manifest)
    ensures (forall cuts :: GoesOn(w, manifest, cuts)) <==> Survivable(w)
  {
    if Survivable(w) {
      forall cuts
        ensures GoesOn(w, manifest, cuts)
      {
        CutsSurvive(w, manifest, cuts);
      }
    } else {
      var k := OneCutIsRefused(w, manifest);
      OneCut(w, manifest, k);
      assert !GoesOn(w, manifest, [k]);
    }
  }

  /** Receipts whose records agree on old states, as those an install writes do, survive all crashes. */
  lemma AgreeingReceiptSurvives(w: World, manifest: set<Name>, cuts: seq<nat>)
    requires !Refuses(w, manifest) && (w.receipt.Pending? ==> Agree(w.receipt.records))
    ensures GoesOn(w, manifest, cuts)
  {
    if w.receipt.Pending? && AllBackupsGood(w.receipt.records) {
      AgreeingTargetsFit(w.receipt.records);
    }
    CutsSurvive(w, manifest, cuts);
  }

  lemma AgreeingTargetsFit(rs: seq<Record>)
    requires Agree(rs) && AllBackupsGood(rs)
    ensures TargetsFit(rs)
  {
    forall i, j | 0 <= i < |rs| && 0 <= j < |rs| && rs[i].path == rs[j].path
      ensures Accepted(rs, i, j)
    {
      var m := TargetIsOld(rs, i);
      assert rs[m].before == Target(rs, i);
    }
  }

  // ---------- Receipts that name a path twice ----------

  const FIRST: Name := "0001-a.patch"
  const SECOND: Name := "0002-b.patch"
  const X := Some(Sha256("x"))
  const Y := Some(Sha256("y"))
  const Z := Some(Sha256("z"))

  /** Records can disagree and fit all the same: each one's old state is the other's new one. */
  lemma DisagreeingRecordsMayFit(rs: seq<Record>)
    requires rs == [Record(FIRST, X, Z, Some("x")), Record(FIRST, Z, X, Some("z"))]
    ensures !Agree(rs) && TargetsFit(rs)
  {
    assert rs[0].path == rs[1].path && rs[0].before != rs[1].before;
    assert rs[..1] == [rs[0]];
    assert Backups(rs) == Backups(rs[..1])[FIRST := "z"];
  }

  /** Two records for one path, with different old states, and one for another path. */
  function TwiceNamed(): seq<Record> {
    [Record(FIRST, X, Y, Some("x")), Record(FIRST, Z, Y, Some("z")), Record(SECOND, X, Y, Some("x"))]
  }

  lemma TwiceNamedIsUsable(rs: seq<Record>)
    requires rs == TwiceNamed()
    ensures AllWellNamed(rs) && AllBackupsGood(rs)
  {
    assert FIRST[6..] == ".patch" && SECOND[6..] == ".patch";
    SingleLetterName(FIRST);
    SingleLetterName(SECOND);
  }

  lemma SingleLetterName(name: Name)
    requires |name| == 12 && (forall i :: 0 <= i < 4 ==> '0' <= name[i] <= '9')
    requires name[4] == '-' && 'a' <= name[5] <= 'z' && name[6..] == ".patch"
    ensures IsPatchFileName(name)
  {
    assert name[5..|name| - 6] == [name[5]];
  }

  lemma LastBackupCounts(rs: seq<Record>, two: seq<Record>)
    requires rs == TwiceNamed() && two == rs[..2]
    ensures FIRST in Backups(rs) && Backups(rs)[FIRST] == "z"
  {
    assert rs[..|rs| - 1] == two && two[|two| - 1] == rs[1];
    assert FIRST in Backups(two) && Backups(two)[FIRST] == "z";
  }

  lemma TwiceNamedStates(files: map<Name, Content>, rs: seq<Record>)
    requires rs == TwiceNamed() && FIRST in files && SECOND in files && files[SECOND] == "x"
    ensures files[FIRST] == "y" ==> !AllOld(files, rs) && !AllNew(files, rs) && AllEither(files, rs)
    ensures files[FIRST] == "z" ==> !AllOld(files, rs) && !AllNew(files, rs) && !AllEither(files, rs)
  {
    assert HashAt(files, rs[0].path) == Some(Sha256(files[FIRST]));
    assert HashAt(files, rs[1].path) == Some(Sha256(files[FIRST]));
    assert HashAt(files, rs[2].path) == X;
  }

  lemma FirstWrite(rs: seq<Record>, op: Op)
    requires rs == TwiceNamed() && op == (RestoreOps(rs, Backups(rs)) + [DropReceipt])[0]
    ensures op == PutFile(FIRST, "z")
  {
    LastBackupCounts(rs, rs[..2]);
  }

  /** Records that disagree can stop recovery for good: cut after its first write, it refuses from then on. */
  lemma DisagreeingReceiptGetsStuck(w: World, manifest: set<Name>, rs: seq<Record>, ops: seq<Op>)
    requires rs == TwiceNamed() && w.receipt == Pending(w.head, rs) && w.files == map[FIRST := "y", SECOND := "x"]
    requires ops == Recovery(w, manifest).1
    ensures !Recovery(w, manifest).0.Refused? && |ops| > 1
    ensures Recovery(ApplyAll(w, ops[..1]), manifest).0.Refused?
  {
    TwiceNamedIsUsable(rs);
    TwiceNamedStates(w.files, rs);
    RecoveryOf(w, manifest, rs);
    FirstWrite(rs, ops[0]);
    ApplyOne(w, ops[0]);
    assert ops[..1] == [ops[0]];
    TwiceNamedStates(Apply(w, ops[0]).files, rs);
  }
}
