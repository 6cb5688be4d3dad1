/**
 Path ownership: a manifest gives each patch some files and directory prefixes. Accepting the
 manifest makes owners unique, so splitting a tree's changes by owner and applying the parts in
 series order rebuilds the tree. A tree is a map from path to content; a patch records, for each
 path it touches, the content before and after.
 */
module Ownership {
  import opened Common

  type Path = string

  type Content = string

  type Tree = map<Path, Content>

  datatype PatchSpec = PatchSpec(file: string, files: seq<Path>, prefixes: seq<Path>) {
    predicate Owns(path: Path) {
      path in files || exists i :: 0 <= i < |prefixes| && prefixes[i] <= path
    }
  }

  // ---------- Validating ownership ----------

  datatype Entry = Entry(path: Path, isPrefix: bool, owner: nat)

  predicate Overlap(left: Entry, right: Entry) {
    || left.path == right.path
    || (left.isPrefix && left.path <= right.path)
    || (right.isPrefix && right.path <= left.path)
  }

  function EntriesOf(paths: seq<Path>, isPrefix: bool, owner: nat): (es: seq<Entry>)
    ensures |es| == |paths| && forall i :: 0 <= i < |es| ==> es[i] == Entry(paths[i], isPrefix, owner)
  {
    seq(|paths|, i requires 0 <= i < |paths| => Entry(paths[i], isPrefix, owner))
  }

  /** The entries of the first `count` patches, files before prefixes. */
  function Entries(patches: seq<PatchSpec>, count: nat): seq<Entry>
    requires count <= |patches|
  {
    if count == 0 then []
    else
      Entries(patches, count - 1)
      + EntriesOf(patches[count - 1].files, false, count - 1)
      + EntriesOf(patches[count - 1].prefixes, true, count - 1)
  }

  predicate NoOverlaps(es: seq<Entry>) {
    forall i, j :: 0 <= i < j < |es| ==> !Overlap(es[i], es[j])
  }

  /** `_validate_ownership`: compares every entry with every later one. */
  method ValidateOwnership(patches: seq<PatchSpec>) returns (accepted: bool)
    ensures accepted <==> NoOverlaps(Entries(patches, |patches|))
  {
    var entries: seq<Entry> := [];
    for k := 0 to |patches|
      invariant entries == Entries(patches, k)
    {
      entries := entries + EntriesOf(patches[k].files, false, k) + EntriesOf(patches[k].prefixes, true, k);
    }
    for i := 0 to |entries|
      invariant forall a, b :: 0 <= a < i && a < b < |entries| ==> !Overlap(entries[a], entries[b])
    {
      for j := i + 1 to |entries|
        invariant forall b :: i < b < j ==> !Overlap(entries[i], entries[b])
      {
        if Overlap(entries[i], entries[j]) {
          return false;
        }
      }
    }
    return true;
  }

  /** The entry of some patch that makes it an owner of the path. */
  ghost predicate Claims(e: Entry, path: Path) {
    if e.isPrefix then e.path <= path else e.path == path
  }

  lemma {:induction false} OwnerHasEntry(patches: seq<PatchSpec>, count: nat, k: nat, path: Path) returns (at: nat)
    requires k < count <= |patches| && patches[k].Owns(path)
    ensures var es := Entries(patches, count); at < |es| && es[at].owner == k && Claims(es[at], path)
  {
    var before := Entries(patches, count - 1);
    if k < count - 1 {
      at := OwnerHasEntry(patches, count - 1, k, path);
      assert Entries(patches, count)[at] == before[at];
    } else {
      var fs, ps := patches[k].files, patches[k].prefixes;
      if path in fs {
        var i :| 0 <= i < |fs| && fs[i] == path;
        at := |before| + i;
      } else {
        var i :| 0 <= i < |ps| && ps[i] <= path;
        at := |before| + |fs| + i;
      }
    }
  }

  lemma {:induction false} EntryHasOwner(patches: seq<PatchSpec>, count: nat, at: nat, path: Path)
    requires count <= |patches| && at < |Entries(patches, count)| && Claims(Entries(patches, count)[at], path)
    ensures Entries(patches, count)[at].owner < count && patches[Entries(patches, count)[at].owner].Owns(path)
  {
    var e := Entries(patches, count)[at];
    var before := Entries(patches, count - 1);
    var fs, ps := patches[count - 1].files, patches[count - 1].prefixes;
    if at < |before| {
      assert before[at] == e;
      EntryHasOwner(patches, count - 1, at, path);
    } else if at < |before| + |fs| {
      assert fs[at - |before|] == path;
    } else {
      assert ps[at - |before| - |fs|] <= path;
    }
  }

  lemma PrefixesOfOnePath(p: Path, q: Path, path: Path)
    requires p <= path && q <= path
    ensures p <= q || q <= p
  {
    assert p == path[..|p|] && q == path[..|q|];
    if |p| <= |q| {
      assert q[..|p|] == path[..|q|][..|p|] == p;
    } else {
      assert p[..|q|] == path[..|p|][..|q|] == q;
    }
  }

  lemma ClaimsOverlap(e: Entry, f: Entry, path: Path)
    requires Claims(e, path) && Claims(f, path)
    ensures Overlap(e, f) && Overlap(f, e)
  {
    if e.isPrefix && f.isPrefix {
      PrefixesOfOnePath(e.path, f.path, path);
    }
  }

  /** In an accepted manifest only one entry claims a path. */
  lemma OneClaim(es: seq<Entry>, path: Path, i: nat, j: nat)
    requires NoOverlaps(es) && i < |es| && j < |es| && Claims(es[i], path) && Claims(es[j], path)
    ensures i == j
  {
    ClaimsOverlap(es[i], es[j], path);
  }

  /** An accepted manifest gives every path at most one owner. */
  lemma AcceptedMeansOneOwner(patches: seq<PatchSpec>, path: Path, k: nat, l: nat)
    requires NoOverlaps(Entries(patches, |patches|))
    requires k < |patches| && l < |patches| && patches[k].Owns(path) && patches[l].Owns(path)
    ensures k == l
  {
    var i := OwnerHasEntry(patches, |patches|, k, path);
    var j := OwnerHasEntry(patches, |patches|, l, path);
    OneClaim(Entries(patches, |patches|), path, i, j);
  }

  /** A refusal over two patches is never spurious: some path has both as owners. */
  lemma OverlapMeansTwoOwners(patches: seq<PatchSpec>, i: nat, j: nat)
    requires var es := Entries(patches, |patches|);
      i < |es| && j < |es| && Overlap(es[i], es[j])
    ensures var es := Entries(patches, |patches|);
      var path := if |es[i].path| >= |es[j].path| then es[i].path else es[j].path;
      && es[i].owner < |patches| && es[j].owner < |patches|
      && patches[es[i].owner].Owns(path) && patches[es[j].owner].Owns(path)
  {
    var es := Entries(patches, |patches|);
    var path := if |es[i].path| >= |es[j].path| then es[i].path else es[j].path;
    assert Claims(es[i], path) && Claims(es[j], path);
    EntryHasOwner(patches, |patches|, i, path);
    EntryHasOwner(patches, |patches|, j, path);
  }

  // ---------- Splitting a tree by owner ----------

  datatype OwnerResult = Owner(index: nat) | NoOwner | ManyOwners

  function Owners(patches: seq<PatchSpec>, count: nat, path: Path): (ks: seq<nat>)
    requires count <= |patches|
    ensures forall k: int :: k in ks <==> 0 <= k < count && patches[k].Owns(path)
  {
    if count == 0 then []
    else Owners(patches, count - 1, path) + if patches[count - 1].Owns(path) then [count - 1] else []
  }

  /** `owner_for`. */
  function OwnerFor(patches: seq<PatchSpec>, path: Path): OwnerResult {
    var owners := Owners(patches, |patches|, path);
    if owners == [] then NoOwner else if |owners| != 1 then ManyOwners else Owner(owners[0])
  }

  predicate Increasing(ks: seq<nat>) {
    forall i, j :: 0 <= i < j < |ks| ==> ks[i] < ks[j]
  }

  lemma {:induction false} OwnersIncrease(patches: seq<PatchSpec>, count: nat, path: Path)
    requires count <= |patches|
    ensures Increasing(Owners(patches, count, path))
  {
    if count > 0 {
      OwnersIncrease(patches, count - 1, path);
      ExtendIncreasing(Owners(patches, count - 1, path), count - 1);
    }
  }

  lemma ExtendIncreasing(ks: seq<nat>, next: nat)
    requires Increasing(ks) && forall k :: k in ks ==> k < next
    ensures Increasing(ks + [next]) && ks + [] == ks
  {
    forall i | 0 <= i < |ks|
      ensures ks[i] < next
    {
      assert ks[i] in ks;
    }
  }

  lemma AtMostOneListed(patches: seq<PatchSpec>, path: Path)
    requires NoOverlaps(Entries(patches, |patches|))
    ensures |Owners(patches, |patches|, path)| <= 1
  {
    var ks := Owners(patches, |patches|, path);
    OwnersIncrease(patches, |patches|, path);
    if |ks| > 1 {
      assert ks[0] in ks && ks[1] in ks && ks[0] < ks[1];
      AcceptedMeansOneOwner(patches, path, ks[0], ks[1]);
    }
  }

  /** With an accepted manifest `owner_for` names the k-th patch exactly when that patch owns the path. */
  lemma OwnerForIsTheOwner(patches: seq<PatchSpec>, path: Path, k: nat)
    requires NoOverlaps(Entries(patches, |patches|))
    ensures !OwnerFor(patches, path).ManyOwners?
    ensures OwnerFor(patches, path) == Owner(k) <==> k < |patches| && patches[k].Owns(path)
  {
    AtMostOneListed(patches, path);
    SingleOwner(patches, path, k);
  }

  lemma SingleOwner(patches: seq<PatchSpec>, path: Path, k: nat)
    requires |Owners(patches, |patches|, path)| <= 1
    ensures !OwnerFor(patches, path).ManyOwners?
    ensures OwnerFor(patches, path) == Owner(k) <==> k < |patches| && patches[k].Owns(path)
  {
    var ks := Owners(patches, |patches|, path);
    assert k in ks <==> k < |patches| && patches[k].Owns(path);
    assert k in ks <==> ks != [] && ks[0] == k;
  }

  function ContentAt(tree: Tree, path: Path): Option<Content> {
    if path in tree then Some(tree[path]) else None
  }

  /** The paths where two trees differ (`_changed_paths`). */
  function Changed(base: Tree, tree: Tree): set<Path> {
    set path | path in base.Keys + tree.Keys && ContentAt(base, path) != ContentAt(tree, path)
  }

  /** A patch: for each path it touches, what it expects and what it leaves. */
  datatype Change = Change(before: Option<Content>, after: Option<Content>)

  type Patch = map<Path, Change>

  /** `git diff` of two trees, restricted to some of the changed paths. */
  function Diff(base: Tree, tree: Tree, selected: set<Path>): Patch {
    map path | path in Changed(base, tree) && path in selected :: Change(ContentAt(base, path), ContentAt(tree, path))
  }

  datatype ApplyResult = Applied(tree: Tree) | Rejected

  /** `git apply --check`: the tree has what the patch expects. */
  predicate Matches(tree: Tree, patch: Patch) {
    forall path | path in patch :: ContentAt(tree, path) == patch[path].before
  }

  predicate TouchesOnly(specs: seq<PatchSpec>, patch: Patch, k: nat) {
    forall path | path in patch :: OwnerFor(specs, path) == Owner(k)
  }

  /** `git apply --check` and then `git apply`. */
  function ApplyPatch(tree: Tree, patch: Patch): ApplyResult {
    if !Matches(tree, patch) then Rejected
    else
      Applied((tree - patch.Keys) + map path | path in patch && patch[path].after.Some? :: patch[path].after.value)
  }

  lemma ApplyPatchEffect(tree: Tree, patch: Patch)
    requires ApplyPatch(tree, patch).Applied?
    ensures forall path :: ContentAt(ApplyPatch(tree, patch).tree, path)
              == if path in patch then patch[path].after else ContentAt(tree, path)
  {
  }

  /** The changed paths owned by the k-th patch. */
  function Part(patches: seq<PatchSpec>, changed: set<Path>, k: nat): set<Path> {
    set path | path in changed && OwnerFor(patches, path) == Owner(k)
  }

  predicate AllOwned(patches: seq<PatchSpec>, changed: set<Path>) {
    forall path | path in changed :: OwnerFor(patches, path).Owner?
  }

  /** The series that a refresh writes, or the reason it stops. */
  datatype SeriesResult = Series(patches: seq<Patch>) | UnownedPath | EmptyPatch

  function SplitSeries(patches: seq<PatchSpec>, base: Tree, tree: Tree): SeriesResult {
    var changed := Changed(base, tree);
    if !AllOwned(patches, changed) then UnownedPath
    else if exists k | 0 <= k < |patches| :: Part(patches, changed, k) == {} then EmptyPatch
    else Series(seq(|patches|, k requires 0 <= k < |patches| => Diff(base, tree, Part(patches, changed, k))))
  }

  /** One turn of `apply_patch_series`. */
  function ApplyNext(specs: seq<PatchSpec>, tree: Tree, patch: Patch, k: nat): ApplyResult {
    if patch == map[] || !TouchesOnly(specs, patch, k) then Rejected else ApplyPatch(tree, patch)
  }

  /** `apply_patch_series` up to the k-th patch: each may only touch paths that its own spec owns. */
  function ApplyFirst(specs: seq<PatchSpec>, start: Tree, series: seq<Patch>, k: nat): ApplyResult
    requires k <= |series|
  {
    if k == 0 then Applied(start)
    else
      match ApplyFirst(specs, start, series, k - 1)
      case Rejected => Rejected
      case Applied(before) => ApplyNext(specs, before, series[k - 1], k - 1)
  }

  lemma {:induction false} RejectedStays(specs: seq<PatchSpec>, start: Tree, series: seq<Patch>, k: nat, n: nat)
    requires k <= n <= |series| && ApplyFirst(specs, start, series, k).Rejected?
    ensures ApplyFirst(specs, start, series, n).Rejected?
    decreases n
  {
    if k < n {
      RejectedStays(specs, start, series, k, n - 1);
    }
  }

  lemma FirstUnfolds(specs: seq<PatchSpec>, start: Tree, series: seq<Patch>, k: nat, before: Tree, now: ApplyResult)
    requires k < |series| && ApplyFirst(specs, start, series, k) == Applied(before)
    requires now == ApplyNext(specs, before, series[k], k)
    ensures ApplyFirst(specs, start, series, k + 1) == now
  {
  }

  lemma StopsHere(specs: seq<PatchSpec>, start: Tree, series: seq<Patch>, k: nat, tree: Tree)
    requires k < |series| && ApplyFirst(specs, start, series, k) == Applied(tree)
    requires ApplyNext(specs, tree, series[k], k).Rejected?
    ensures ApplyFirst(specs, start, series, |series|) == Rejected
  {
    FirstUnfolds(specs, start, series, k, tree, Rejected);
    RejectedStays(specs, start, series, k + 1, |series|);
  }

  method ApplySeries(specs: seq<PatchSpec>, start: Tree, series: seq<Patch>) returns (r: ApplyResult)
    requires |series| == |specs|
    ensures r == ApplyFirst(specs, start, series, |series|)
  {
    var tree := start;
    for k := 0 to |series|
      invariant ApplyFirst(specs, start, series, k) == Applied(tree)
    {
      var patch := series[k];
      if patch == map[] || !TouchesOnly(specs, patch, k) {
        StopsHere(specs, start, series, k, tree);
        return Rejected;
      }
      var next := ApplyPatch(tree, patch);
      if next.Rejected? {
        StopsHere(specs, start, series, k, tree);
        return Rejected;
      }
      FirstUnfolds(specs, start, series, k, tree, next);
      tree := next.tree;
    }
    return Applied(tree);
  }

  // ---------- Which series apply ----------

  /** The k-th patch owns the path, and no other one does. */
  ghost predicate OwnedAlone(specs: seq<PatchSpec>, path: Path, k: nat) {
    && k < |specs| && specs[k].Owns(path)
    && forall j :: 0 <= j < |specs| && specs[j].Owns(path) ==> j == k
  }

  lemma FirstTwoDiffer(ks: seq<nat>)
    requires Increasing(ks) && |ks| > 1
    ensures ks[0] in ks && ks[1] in ks && ks[0] != ks[1]
  {
  }

  lemma OnlyOne(ks: seq<nat>, k: nat)
    requires Increasing(ks) && k in ks && forall l :: l in ks ==> l == k
    ensures ks == [k]
  {
    assert ks[0] in ks;
    if |ks| > 1 {
      FirstTwoDiffer(ks);
    }
  }

  /** `owner_for` names a patch exactly when it is the only owner, whatever the manifest. */
  lemma OwnerForIff(specs: seq<PatchSpec>, path: Path, k: nat)
    ensures OwnerFor(specs, path) == Owner(k) <==> OwnedAlone(specs, path, k)
  {
    var ks := Owners(specs, |specs|, path);
    OwnersIncrease(specs, |specs|, path);
    if OwnedAlone(specs, path, k) {
      OnlyOne(ks, k);
    }
    if OwnerFor(specs, path) == Owner(k) {
      assert ks == [k] && k in ks;
      assert forall j :: 0 <= j < |specs| && specs[j].Owns(path) ==> j in ks;
    }
  }

  /** A patch of its own paths only, which expects the contents the start tree has. */
  ghost predicate FitsStart(specs: seq<PatchSpec>, start: Tree, patch: Patch, k: nat) {
    && patch != map[]
    && forall path :: path in patch ==> OwnedAlone(specs, path, k) && ContentAt(start, path) == patch[path].before
  }

  /** The tree has the new contents wherever one of the first k patches touches it, and is the start elsewhere. */
  ghost predicate Patched(start: Tree, series: seq<Patch>, k: nat, tree: Tree)
    requires k <= |series|
  {
    && (forall j, path :: 0 <= j < k && path in series[j] ==> ContentAt(tree, path) == series[j][path].after)
    && (forall path :: (forall j :: 0 <= j < k ==> path !in series[j]) ==> ContentAt(tree, path) == ContentAt(start, path))
  }

  lemma NextAppliesIff(specs: seq<PatchSpec>, tree: Tree, patch: Patch, k: nat)
    ensures ApplyNext(specs, tree, patch, k).Applied? <==> FitsStart(specs, tree, patch, k)
    ensures ApplyNext(specs, tree, patch, k).Applied? ==>
      forall path :: ContentAt(ApplyNext(specs, tree, patch, k).tree, path)
        == if path in patch then patch[path].after else ContentAt(tree, path)
  {
    forall path
      ensures OwnerFor(specs, path) == Owner(k) <==> OwnedAlone(specs, path, k)
    {
      OwnerForIff(specs, path, k);
    }
    if ApplyNext(specs, tree, patch, k).Applied? {
      ApplyPatchEffect(tree, patch);
    }
  }

  /** Patches that own their paths alone do not meet: a later one finds what the start had. */
  lemma LaterFindsStart(specs: seq<PatchSpec>, start: Tree, series: seq<Patch>, k: nat, tree: Tree)
    requires k < |series| && Patched(start, series, k, tree)
    requires forall j :: 0 <= j < k ==> FitsStart(specs, start, series[j], j)
    ensures FitsStart(specs, tree, series[k], k) <==> FitsStart(specs, start, series[k], k)
  {
    forall path | path in series[k] && OwnedAlone(specs, path, k)
      ensures ContentAt(tree, path) == ContentAt(start, path)
    {
      forall j: nat | j < k
        ensures path !in series[j]
      {
        assert path in series[j] ==> OwnedAlone(specs, path, j);
      }
    }
  }

  lemma OneMorePatched(specs: seq<PatchSpec>, start: Tree, series: seq<Patch>, k: nat, tree: Tree, next: Tree)
    requires k < |series| && Patched(start, series, k, tree)
    requires forall j :: 0 <= j <= k ==> FitsStart(specs, start, series[j], j)
    requires forall path :: ContentAt(next, path) == if path in series[k] then series[k][path].after else ContentAt(tree, path)
    ensures Patched(start, series, k + 1, next)
  {
    forall j, path | 0 <= j < k + 1 && path in series[j]
      ensures ContentAt(next, path) == series[j][path].after
    {
      assert OwnedAlone(specs, path, j);
      if path in series[k] {
        assert OwnedAlone(specs, path, k);
      }
    }
  }

  ghost predicate AllFitStart(specs: seq<PatchSpec>, start: Tree, series: seq<Patch>, k: nat)
    requires k <= |series|
  {
    forall j :: 0 <= j < k ==> FitsStart(specs, start, series[j], j)
  }

  lemma SeriesStep(specs: seq<PatchSpec>, start: Tree, series: seq<Patch>, k: nat, before: Tree)
    requires k < |series| && AllFitStart(specs, start, series, k) && Patched(start, series, k, before)
    ensures var next := ApplyNext(specs, before, series[k], k);
      && (next.Applied? <==> AllFitStart(specs, start, series, k + 1))
      && (next.Applied? ==> Patched(start, series, k + 1, next.tree))
  {
    LaterFindsStart(specs, start, series, k, before);
    NextAppliesIff(specs, before, series[k], k);
    if FitsStart(specs, start, series[k], k) {
      OneMorePatched(specs, start, series, k, before, ApplyNext(specs, before, series[k], k).tree);
    }
  }

  ghost predicate SeriesState(specs: seq<PatchSpec>, start: Tree, series: seq<Patch>, k: nat, r: ApplyResult)
    requires k <= |series|
  {
    && (r.Applied? <==> AllFitStart(specs, start, series, k))
    && (r.Applied? ==> Patched(start, series, k, r.tree))
  }

  lemma SeriesNext(specs: seq<PatchSpec>, start: Tree, series: seq<Patch>, k: nat, r: ApplyResult)
    requires k < |series| && SeriesState(specs, start, series, k, r)
    ensures SeriesState(specs, start, series, k + 1,
                        if r.Rejected? then Rejected else ApplyNext(specs, r.tree, series[k], k))
  {
    if r.Applied? {
      SeriesStep(specs, start, series, k, r.tree);
    }
  }

  /**
   A series applies exactly when each patch is not empty, touches only paths that its spec alone
   owns, and expects the contents of the start tree; then the tree has all their new contents and
   is otherwise as it was.
   */
  lemma {:induction false} SeriesAppliesIff(specs: seq<PatchSpec>, start: Tree, series: seq<Patch>, k: nat)
    requires k <= |series|
    ensures SeriesState(specs, start, series, k, ApplyFirst(specs, start, series, k))
  {
    if k > 0 {
      SeriesAppliesIff(specs, start, series, k - 1);
      SeriesNext(specs, start, series, k - 1, ApplyFirst(specs, start, series, k - 1));
    }
  }

  /** The tree once the parts of the first `k` owners are in place. */
  ghost predicate PartsInPlace(specs: seq<PatchSpec>, base: Tree, tree: Tree, now: Tree, k: nat) {
    forall path :: ContentAt(now, path) ==
      if OwnerFor(specs, path).Owner? && OwnerFor(specs, path).index < k then ContentAt(tree, path)
      else ContentAt(base, path)
  }

  lemma UnchangedContent(base: Tree, tree: Tree, path: Path)
    requires path !in Changed(base, tree)
    ensures ContentAt(base, path) == ContentAt(tree, path)
  {
  }

  ghost predicate IsPart(specs: seq<PatchSpec>, base: Tree, tree: Tree, patch: Patch, k: nat) {
    var part := Part(specs, Changed(base, tree), k);
    part != {} && patch == Diff(base, tree, part)
  }

  lemma PartIsListed(specs: seq<PatchSpec>, base: Tree, tree: Tree, series: seq<Patch>, k: nat)
    requires SplitSeries(specs, base, tree) == Series(series) && k < |specs|
    ensures |series| == |specs| && IsPart(specs, base, tree, series[k], k)
  {
  }

  lemma NextPartApplies(specs: seq<PatchSpec>, base: Tree, tree: Tree, patch: Patch, k: nat, before: Tree) returns (now: Tree)
    requires k < |specs| && IsPart(specs, base, tree, patch, k) && PartsInPlace(specs, base, tree, before, k)
    ensures ApplyNext(specs, before, patch, k) == Applied(now) && PartsInPlace(specs, base, tree, now, k + 1)
  {
    PartApplies(specs, base, tree, before, k);
    OneMorePart(specs, base, tree, before, k);
    now := ApplyNext(specs, before, patch, k).tree;
  }

  lemma NothingInPlace(specs: seq<PatchSpec>, base: Tree, tree: Tree)
    ensures PartsInPlace(specs, base, tree, base, 0)
  {
  }

  /** After the first `k` parts exactly the changes of the first `k` owners are in place. */
  lemma {:induction false} PartsApplyInOrder(specs: seq<PatchSpec>, base: Tree, tree: Tree, series: seq<Patch>, k: nat)
    returns (now: Tree)
    requires SplitSeries(specs, base, tree) == Series(series) && k <= |specs| == |series|
    ensures ApplyFirst(specs, base, series, k) == Applied(now)
    ensures PartsInPlace(specs, base, tree, now, k)
  {
    if k == 0 {
      NothingInPlace(specs, base, tree);
      now := base;
    } else {
      var before := PartsApplyInOrder(specs, base, tree, series, k - 1);
      PartIsListed(specs, base, tree, series, k - 1);
      now := NextPartApplies(specs, base, tree, series[k - 1], k - 1, before);
      FirstUnfolds(specs, base, series, k - 1, before, Applied(now));
    }
  }

  lemma AllPartsAreTheTree(specs: seq<PatchSpec>, base: Tree, tree: Tree, now: Tree)
    requires AllOwned(specs, Changed(base, tree)) && PartsInPlace(specs, base, tree, now, |specs|)
    ensures now == tree
  {
    forall path
      ensures ContentAt(now, path) == ContentAt(tree, path)
    {
      OwnerInRange(specs, path);
      if path !in Changed(base, tree) {
        UnchangedContent(base, tree, path);
      }
    }
    SameContents(now, tree);
  }

  lemma OneMorePart(specs: seq<PatchSpec>, base: Tree, tree: Tree, now: Tree, k: nat)
    requires k < |specs| && PartsInPlace(specs, base, tree, now, k)
    requires ApplyPatch(now, Diff(base, tree, Part(specs, Changed(base, tree), k))).Applied?
    ensures PartsInPlace(specs, base, tree, ApplyPatch(now, Diff(base, tree, Part(specs, Changed(base, tree), k))).tree, k + 1)
  {
    var patch := Diff(base, tree, Part(specs, Changed(base, tree), k));
    var next := ApplyPatch(now, patch).tree;
    ApplyPatchEffect(now, patch);
    forall path
      ensures ContentAt(next, path) ==
        if OwnerFor(specs, path).Owner? && OwnerFor(specs, path).index < k + 1 then ContentAt(tree, path)
        else ContentAt(base, path)
    {
      if path !in Changed(base, tree) {
        UnchangedContent(base, tree, path);
      }
    }
  }

  /** One part meets the contents it expects, because no earlier part touched its paths. */
  lemma PartApplies(specs: seq<PatchSpec>, base: Tree, tree: Tree, before: Tree, k: nat)
    requires k < |specs| && Part(specs, Changed(base, tree), k) != {}
    requires PartsInPlace(specs, base, tree, before, k)
    ensures var patch := Diff(base, tree, Part(specs, Changed(base, tree), k));
      && patch.Keys == Part(specs, Changed(base, tree), k)
      && patch != map[] && TouchesOnly(specs, patch, k) && Matches(before, patch)
  {
    var part := Part(specs, Changed(base, tree), k);
    var patch := Diff(base, tree, part);
    assert patch.Keys == part;
    var path :| path in part;
    assert path in patch;
  }

  /**
   Round trip: whenever a refresh can write its series, applying that series in order onto the base
   is accepted at every step and rebuilds the tree.
   */
  lemma SplitThenReplayRebuildsTheTree(specs: seq<PatchSpec>, base: Tree, tree: Tree)
    requires SplitSeries(specs, base, tree).Series?
    ensures ApplyFirst(specs, base, SplitSeries(specs, base, tree).patches, |specs|) == Applied(tree)
  {
    var series := SplitSeries(specs, base, tree).patches;
    var now := PartsApplyInOrder(specs, base, tree, series, |specs|);
    AllPartsAreTheTree(specs, base, tree, now);
  }

  lemma OwnerInRange(specs: seq<PatchSpec>, path: Path)
    ensures OwnerFor(specs, path).Owner? ==> OwnerFor(specs, path).index < |specs|
  {
    var ks := Owners(specs, |specs|, path);
    if ks != [] {
      assert ks[0] in ks;
    }
  }

  lemma SameContents(a: Tree, b: Tree)
    requires forall path :: ContentAt(a, path) == ContentAt(b, path)
    ensures a == b
  {
    forall path
      ensures path in a <==> path in b
      ensures path in a && path in b ==> a[path] == b[path]
    {
      assert ContentAt(a, path) == ContentAt(b, path);
    }
  }

  ghost predicate HasOwner(specs: seq<PatchSpec>, path: Path) {
    exists k :: 0 <= k < |specs| && specs[k].Owns(path)
  }

  ghost predicate OwnsSome(spec: PatchSpec, paths: set<Path>) {
    exists path :: path in paths && spec.Owns(path)
  }

  lemma HasOwnerIff(specs: seq<PatchSpec>, path: Path)
    requires NoOverlaps(Entries(specs, |specs|))
    ensures OwnerFor(specs, path).Owner? <==> HasOwner(specs, path)
  {
    var r := OwnerFor(specs, path);
    if r.Owner? {
      OwnerForIsTheOwner(specs, path, r.index);
    }
    if HasOwner(specs, path) {
      var k :| 0 <= k < |specs| && specs[k].Owns(path);
      OwnerForIsTheOwner(specs, path, k);
    }
  }

  lemma PartIsOwned(specs: seq<PatchSpec>, changed: set<Path>, k: nat)
    requires NoOverlaps(Entries(specs, |specs|)) && k < |specs|
    ensures Part(specs, changed, k) != {} <==> OwnsSome(specs[k], changed)
  {
    if OwnsSome(specs[k], changed) {
      var path :| path in changed && specs[k].Owns(path);
      OwnerForIsTheOwner(specs, path, k);
      assert path in Part(specs, changed, k);
    }
    if Part(specs, changed, k) != {} {
      var path :| path in Part(specs, changed, k);
      OwnerForIsTheOwner(specs, path, k);
    }
  }

  lemma AllOwnedIff(specs: seq<PatchSpec>, changed: set<Path>)
    requires NoOverlaps(Entries(specs, |specs|))
    ensures AllOwned(specs, changed) <==> forall path :: path in changed ==> HasOwner(specs, path)
  {
    forall path | path in changed
      ensures OwnerFor(specs, path).Owner? <==> HasOwner(specs, path)
    {
      HasOwnerIff(specs, path);
    }
  }

  lemma NoEmptyPartIff(specs: seq<PatchSpec>, changed: set<Path>)
    requires NoOverlaps(Entries(specs, |specs|))
    ensures (forall k :: 0 <= k < |specs| ==> Part(specs, changed, k) != {})
       <==> (forall k :: 0 <= k < |specs| ==> OwnsSome(specs[k], changed))
  {
    forall k | 0 <= k < |specs|
      ensures Part(specs, changed, k) != {} <==> OwnsSome(specs[k], changed)
    {
      PartIsOwned(specs, changed, k);
    }
  }

  lemma SplitSeriesIff(specs: seq<PatchSpec>, base: Tree, tree: Tree)
    ensures SplitSeries(specs, base, tree).Series? <==>
      && AllOwned(specs, Changed(base, tree))
      && (forall k :: 0 <= k < |specs| ==> Part(specs, Changed(base, tree), k) != {})
  {
  }

  /**
   With an accepted manifest a refresh stops exactly when a changed path has no owner at all or a
   patch owns none of the changed paths, never because of two owners.
   */
  lemma AcceptedManifestSplits(specs: seq<PatchSpec>, base: Tree, tree: Tree)
    requires NoOverlaps(Entries(specs, |specs|))
    ensures SplitSeries(specs, base, tree).Series? <==>
      && (forall path :: path in Changed(base, tree) ==> HasOwner(specs, path))
      && (forall k :: 0 <= k < |specs| ==> OwnsSome(specs[k], Changed(base, tree)))
  {
    AllOwnedIff(specs, Changed(base, tree));
    NoEmptyPartIff(specs, Changed(base, tree));
    SplitSeriesIff(specs, base, tree);
  }
}
