/**
 The `needs` graph of a workflow's jobs and the search that decides release gates: whether a job
 depends, directly or not, on a required one. The graph is whatever the file says: it may be
 cyclic, name jobs that do not exist or hold values that are not mappings.
 */
module JobGraph {
  datatype Yaml = Text(text: string) | List(items: seq<Yaml>) | Mapping(entries: map<string, Yaml>) | Scalar

  type Jobs = map<string, Yaml>

  /** `needs` is one name or a list of nothing but names; anything else counts as none. */
  function Needs(job: map<string, Yaml>): seq<string> {
    if "needs" !in job then []
    else
      match job["needs"]
      case Text(text) => [text]
      case List(items) => if AllText(items) then Texts(items) else []
      case _ => []
  }

  predicate AllText(items: seq<Yaml>) {
    forall i :: 0 <= i < |items| ==> items[i].Text?
  }

  function Texts(items: seq<Yaml>): (r: seq<string>)
    requires AllText(items)
    ensures |r| == |items| && forall i :: 0 <= i < |items| ==> items[i] == Text(r[i])
  {
    if items == [] then [] else Texts(items[..|items| - 1]) + [items[|items| - 1].text]
  }

  /** The names a job needs directly; a name that is not a job needs nothing. */
  function Parents(jobs: Jobs, name: string): seq<string> {
    if name in jobs && jobs[name].Mapping? then Needs(jobs[name].entries) else []
  }

  /** A job needs exactly the one name it gives, or the names of a list that holds nothing else. */
  lemma ParentIff(jobs: Jobs, name: string, parent: string)
    ensures parent in Parents(jobs, name) <==>
      && name in jobs && jobs[name].Mapping? && "needs" in jobs[name].entries
      && var needs := jobs[name].entries["needs"];
         || needs == Text(parent)
         || (needs.List? && Text(parent) in needs.items && forall item :: item in needs.items ==> item.Text?)
  {
    if name in jobs && jobs[name].Mapping? && "needs" in jobs[name].entries && jobs[name].entries["needs"].List? {
      var items := jobs[name].entries["needs"].items;
      assert AllText(items) <==> forall item :: item in items ==> item.Text?;
      if AllText(items) {
        assert forall i :: 0 <= i < |items| ==> items[i] == Text(Texts(items)[i]);
      }
    }
  }

  // ---------- Reachability ----------

  ghost predicate IsPath(jobs: Jobs, path: seq<string>) {
    path != [] && forall i :: 0 < i < |path| ==> path[i] in Parents(jobs, path[i - 1])
  }

  ghost predicate Reachable(jobs: Jobs, start: string, target: string) {
    exists path :: IsPath(jobs, path) && path[0] == start && path[|path| - 1] == target
  }

  /** Whatever a set of jobs needs is in the set. */
  ghost predicate Closed(jobs: Jobs, names: set<string>) {
    forall name, parent :: name in names && parent in Parents(jobs, name) ==> parent in names
  }

  /** A job cannot be run, with all it needs, without running the target too. */
  ghost predicate Inseparable(jobs: Jobs, start: string, target: string) {
    forall names :: Closed(jobs, names) && start in names ==> target in names
  }

  lemma ReachableStart(jobs: Jobs, start: string)
    ensures Reachable(jobs, start, start)
  {
    assert IsPath(jobs, [start]);
  }

  lemma ReachableThrough(jobs: Jobs, start: string, parent: string, target: string)
    requires parent in Parents(jobs, start) && Reachable(jobs, parent, target)
    ensures Reachable(jobs, start, target)
  {
    var path :| IsPath(jobs, path) && path[0] == parent && path[|path| - 1] == target;
    assert IsPath(jobs, [start] + path);
  }

  lemma {:induction false} ClosedHoldsPath(jobs: Jobs, names: set<string>, path: seq<string>)
    requires Closed(jobs, names) && IsPath(jobs, path) && path[0] in names
    ensures path[|path| - 1] in names
  {
    if |path| > 1 {
      ClosedHoldsPath(jobs, names, path[..|path| - 1]);
    }
  }

  lemma ReachableIsInseparable(jobs: Jobs, start: string, target: string)
    requires Reachable(jobs, start, target)
    ensures Inseparable(jobs, start, target)
  {
    var path :| IsPath(jobs, path) && path[0] == start && path[|path| - 1] == target;
    forall names | Closed(jobs, names) && start in names ensures target in names {
      ClosedHoldsPath(jobs, names, path);
    }
  }

  // ---------- What a gate means for a run ----------

  /** A run starts each job once, after everything it needs. */
  ghost predicate Schedule(jobs: Jobs, order: seq<string>) {
    forall i, parent :: 0 <= i < |order| && parent in Parents(jobs, order[i]) ==> parent in order[..i]
  }

  lemma PathTail(jobs: Jobs, path: seq<string>)
    requires IsPath(jobs, path) && |path| > 1
    ensures IsPath(jobs, path[1..]) && path[1] in Parents(jobs, path[0])
  {
    assert forall j :: 0 < j < |path[1..]| ==> path[1..][j] == path[j + 1] && path[1..][j - 1] == path[j];
  }

  /** In every run, a job that is reached through `needs` comes no later than the job that needs it. */
  lemma {:induction false} NeededComesFirst(jobs: Jobs, order: seq<string>, i: nat, path: seq<string>) returns (k: nat)
    requires Schedule(jobs, order) && i < |order|
    requires IsPath(jobs, path) && path[0] == order[i]
    ensures k <= i && order[k] == path[|path| - 1] && (|path| > 1 ==> k < i)
    decreases |path|
  {
    if |path| == 1 {
      k := i;
    } else {
      PathTail(jobs, path);
      var j :| 0 <= j < i && order[..i][j] == path[1];
      k := NeededComesFirst(jobs, order, j, path[1..]);
    }
  }

  /** A gate that accepts means: whenever a run reaches the job, the required one has come before it. */
  lemma GateHoldsInEveryRun(jobs: Jobs, order: seq<string>, i: nat, required: string)
    requires Schedule(jobs, order) && i < |order|
    requires Reachable(jobs, order[i], required) && order[i] != required
    ensures required in order[..i]
  {
    var path :| IsPath(jobs, path) && path[0] == order[i] && path[|path| - 1] == required;
    var k := NeededComesFirst(jobs, order, i, path);
    assert order[..i][k] == required;
  }

  // ---------- The search ----------

  class Visited {
    var names: set<string>

    constructor ()
      ensures names == {}
    {
      names := {};
    }
  }

  /** Every name the graph mentions. */
  function Mentioned(jobs: Jobs): set<string> {
    jobs.Keys + set name, parent | name in jobs && parent in Parents(jobs, name) :: parent
  }

  /** What a search visits besides `before`: never the target, and all it needs is visited too. */
  ghost predicate Explored(jobs: Jobs, before: set<string>, after: set<string>, target: string) {
    forall name :: name in after && name !in before ==>
      name != target && forall parent :: parent in Parents(jobs, name) ==> parent in after
  }

  /** Siblings share one visited set, so a search may be cut short by what another has seen. */
  method HasAncestor(jobs: Jobs, start: string, target: string, visited: Visited, ghost universe: set<string>)
    returns (found: bool)
    requires start in universe && Mentioned(jobs) <= universe && visited.names <= universe
    modifies visited
    ensures old(visited.names) <= visited.names <= universe
    ensures found ==> Reachable(jobs, start, target)
    ensures !found ==> start in visited.names && start != target
    ensures !found ==> Explored(jobs, old(visited.names), visited.names, target)
    decreases universe - visited.names, 1
  {
    if start == target {
      ReachableStart(jobs, start);
      return true;
    }
    if start in visited.names {
      return false;
    }
    visited.names := visited.names + {start};
    if start !in jobs || !jobs[start].Mapping? {
      return false;
    }
    var parents := Needs(jobs[start].entries);
    for i := 0 to |parents|
      invariant old(visited.names) + {start} <= visited.names <= universe
      invariant Explored(jobs, old(visited.names) + {start}, visited.names, target)
      invariant forall k :: 0 <= k < i ==> parents[k] in visited.names
    {
      assert parents[i] in Parents(jobs, start);
      ghost var before := visited.names;
      found := HasAncestor(jobs, parents[i], target, visited, universe);
      if found {
        ReachableThrough(jobs, start, parents[i], target);
        return;
      }
    }
    found := false;
  }

  /** The search answers exactly whether the target is the start or reachable through `needs`, cycles or not. */
  method DependsOn(jobs: Jobs, start: string, target: string) returns (found: bool)
    ensures found <==> Reachable(jobs, start, target)
    ensures found <==> Inseparable(jobs, start, target)
  {
    var visited := new Visited();
    found := HasAncestor(jobs, start, target, visited, Mentioned(jobs) + {start});
    if found {
      ReachableIsInseparable(jobs, start, target);
    } else {
      assert Closed(jobs, visited.names);
      if Reachable(jobs, start, target) {
        ReachableIsInseparable(jobs, start, target);
      }
    }
  }
}
