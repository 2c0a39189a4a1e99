/**
 * The BOSH manifest data model of bosh/manifest.go: the dynamically typed
 * property tree, the dotted-path lens resolver with its typed accessors, and
 * the resolution of a logical job name against a manifest's jobs and
 * instance groups.
 */
module Bosh {

  import opened Options
  import Search
  import GoStrings

  // ---------------------------------------------------------------------
  // Values and properties
  // ---------------------------------------------------------------------

  /**
   * A decoded YAML value as the Go code sees it through `interface{}`.
   * Only `Tree` is a `Properties`; a map of any other Go type (such as
   * `map[string]string`) is a `Dict`, which the resolver cannot descend.
   */
  datatype Value =
    | Tree(props: map<string, Value>)  // a nested `Properties`
    | Str(s: string)
    | Int(i: int)
    | Bool(b: bool)
    | Null                             // an untyped nil
    | List(items: seq<Value>)          // a slice of any element type
    | Dict(entries: map<string, Value>) // a map that is not a `Properties`
    | Other                            // any other scalar (floats, ...)

  /** `Properties`: keys are strings, since only those can be hit by a lens. */
  type Properties = map<string, Value>

  /** The errors the resolver returns; their texts are the source's. */
  datatype Error = ValueNotFound | ValueNotAString | ValueNotAnInteger | ValueNotABoolean
  {
    function Message(): (msg: string)
    {
      match this
      case ValueNotFound => "value not found"
      case ValueNotAString => "value not a string"
      case ValueNotAnInteger => "value not an integer"
      case ValueNotABoolean => "value not a boolean"
    }
  }

  /** A Go call returning `(val, err)`, or panicking instead of returning. */
  datatype Result<T> = Return(val: T, err: Option<Error>) | Panic

  /** The call returned with a nil error. */
  predicate Succeeded<T>(r: Result<T>)
  {
    r.Return? && r.err.None?
  }

  /** The call returned with a non-nil error. */
  predicate Failed<T>(r: Result<T>)
  {
    r.Return? && r.err.Some?
  }

  /** `Find`'s answer for a missing key: `nil` and "value not found". */
  const NotFound: Result<Value> := Return(Null, Some(ValueNotFound))

  // ---------------------------------------------------------------------
  // The lens resolver
  // ---------------------------------------------------------------------

  /**
   * `Properties.Find`: split the lens on '.'; one segment is looked up
   * directly; otherwise the first segment must hold a nested `Properties`,
   * and the rest of the segments, joined again, are resolved inside it.
   * An intermediate value that is not a `Properties` is a panic.
   */
  function Find(p: Properties, lens: string): (r: Result<Value>)
    ensures Failed(r) ==> r == NotFound
    ensures r.Panic? ==> '.' in lens
    decreases |lens|
  {
    var matchers := GoStrings.Split(lens, '.');
    if |matchers| == 1 then
      if matchers[0] in p then Return(p[matchers[0]], None) else NotFound
    else
      var m := matchers[0];
      GoStrings.SplitMany(lens, '.');
      if m in p then
        match p[m]
        case Tree(n) =>
          GoStrings.JoinTailShorter(lens, '.');
          Find(n, GoStrings.Join(matchers[1..], '.'))
        case _ => Panic
      else NotFound
  }

  /** An empty (or nil) `Properties` finds nothing and never panics. */
  lemma FindInEmpty(lens: string)
    ensures Find(map[], lens) == NotFound
  {
  }

  /**
   * A single-segment lens is a direct key lookup: the stored value with no
   * error when present, "value not found" when absent, and never a panic.
   */
  lemma FindSingleSegment(p: Properties, key: string)
    requires '.' !in key
    ensures Find(p, key) == if key in p then Return(p[key], None) else NotFound
  {
    GoStrings.SplitNoSep(key, '.');
  }

  /**
   * A lens `k.rest` with a dot-free head: "value not found" when `k` is
   * absent, whatever `rest` is; the lookup of `rest` in the subtree when `k`
   * holds a `Properties`; a panic when `k` holds anything else.
   */
  lemma FindNested(p: Properties, k: string, rest: string)
    requires '.' !in k
    ensures Find(p, k + "." + rest) ==
      if k !in p then NotFound
      else if p[k].Tree? then Find(p[k].props, rest)
      else Panic
  {
    var lens := k + "." + rest;
    GoStrings.SplitAppend(k, rest, '.');
    GoStrings.JoinSplit(rest, '.');
    assert GoStrings.Split(lens, '.')[1..] == GoStrings.Split(rest, '.');
  }

  /**
   * The lens resolver over an already-split path: the first segment is
   * looked up; the last one yields its value, an intermediate one must hold a
   * `Properties` to descend into, and anything else is a panic.
   */
  function FindPath(p: Properties, segs: seq<string>): (r: Result<Value>)
    requires |segs| >= 1
    ensures Failed(r) ==> r == NotFound
    ensures r.Panic? ==> |segs| > 1
    decreases |segs|
  {
    var k := segs[0];
    if |segs| == 1 then (if k in p then Return(p[k], None) else NotFound)
    else if k !in p then NotFound
    else if p[k].Tree? then FindPath(p[k].props, segs[1..])
    else Panic
  }

  /** Resolving a join of dot-free segments is resolving the segments. */
  lemma {:induction false} FindJoin(p: Properties, segs: seq<string>)
    requires |segs| >= 1
    requires forall i :: 0 <= i < |segs| ==> '.' !in segs[i]
    ensures Find(p, GoStrings.Join(segs, '.')) == FindPath(p, segs)
    decreases |segs|
  {
    if |segs| == 1 {
      FindSingleSegment(p, segs[0]);
    } else {
      var rest := GoStrings.Join(segs[1..], '.');
      assert GoStrings.Join(segs, '.') == segs[0] + "." + rest;
      FindNested(p, segs[0], rest);
      if segs[0] in p && p[segs[0]].Tree? {
        FindJoin(p[segs[0]].props, segs[1..]);
      }
    }
  }

  /** Every lens resolves as the segments it splits into. */
  lemma FindAsPath(p: Properties, lens: string)
    ensures Find(p, lens) == FindPath(p, GoStrings.Split(lens, '.'))
  {
    GoStrings.JoinSplit(lens, '.');
    FindJoin(p, GoStrings.Split(lens, '.'));
  }

  /** The nested tree `{segs[0]: {segs[1]: ... {segs[n-1]: leaf}}}`. */
  function Nest(segs: seq<string>, leaf: Value): (p: Properties)
    requires |segs| >= 1
    decreases |segs|
  {
    if |segs| == 1 then map[segs[0] := leaf]
    else map[segs[0] := Tree(Nest(segs[1..], leaf))]
  }

  /**
   * Following a lens through nested `Properties` reaches the leaf and
   * returns it unchanged, whatever its type (a slice included).
   */
  lemma {:induction false} FindNest(segs: seq<string>, leaf: Value)
    requires |segs| >= 1
    requires forall i :: 0 <= i < |segs| ==> '.' !in segs[i]
    ensures Find(Nest(segs, leaf), GoStrings.Join(segs, '.')) == Return(leaf, None)
    decreases |segs|
  {
    if |segs| == 1 {
      FindSingleSegment(Nest(segs, leaf), segs[0]);
    } else {
      var rest := GoStrings.Join(segs[1..], '.');
      assert GoStrings.Join(segs, '.') == segs[0] + "." + rest;
      FindNested(Nest(segs, leaf), segs[0], rest);
      FindNest(segs[1..], leaf);
    }
  }

  // ---------------------------------------------------------------------
  // Typed accessors
  // ---------------------------------------------------------------------

  /**
   * `Properties.FindString`: `Find`, then a string type assertion. Every
   * failure returns `""`.
   */
  function FindString(p: Properties, lens: string): (r: Result<string>)
    ensures Succeeded(r) <==> Succeeded(Find(p, lens)) && Find(p, lens).val.Str?
    ensures Succeeded(r) ==> Find(p, lens).val == Str(r.val)
    ensures r.Panic? <==> Find(p, lens).Panic?
    ensures Failed(r) ==> r.val == ""
    ensures Failed(Find(p, lens)) ==> r.err == Find(p, lens).err
    ensures Succeeded(Find(p, lens)) && !Find(p, lens).val.Str? ==> r.err == Some(ValueNotAString)
  {
    match Find(p, lens)
    case Panic => Panic
    case Return(v, err) =>
      if err.Some? then Return("", err)
      else if v.Str? then Return(v.s, None)
      else Return("", Some(ValueNotAString))
  }

  /**
   * `Properties.FindInt`: `Find`, then an int type assertion. Every failure
   * returns `0`.
   */
  function FindInt(p: Properties, lens: string): (r: Result<int>)
    ensures Succeeded(r) <==> Succeeded(Find(p, lens)) && Find(p, lens).val.Int?
    ensures Succeeded(r) ==> Find(p, lens).val == Int(r.val)
    ensures r.Panic? <==> Find(p, lens).Panic?
    ensures Failed(r) ==> r.val == 0
    ensures Failed(Find(p, lens)) ==> r.err == Find(p, lens).err
    ensures Succeeded(Find(p, lens)) && !Find(p, lens).val.Int? ==> r.err == Some(ValueNotAnInteger)
  {
    match Find(p, lens)
    case Panic => Panic
    case Return(v, err) =>
      if err.Some? then Return(0, err)
      else if v.Int? then Return(v.i, None)
      else Return(0, Some(ValueNotAnInteger))
  }

  /**
   * `Properties.FindBool`: `Find`, then a bool type assertion. Every failure
   * returns `false`, so a stored `false` differs from a failure only by the
   * nil error.
   */
  function FindBool(p: Properties, lens: string): (r: Result<bool>)
    ensures Succeeded(r) <==> Succeeded(Find(p, lens)) && Find(p, lens).val.Bool?
    ensures Succeeded(r) ==> Find(p, lens).val == Bool(r.val)
    ensures r.Panic? <==> Find(p, lens).Panic?
    ensures Failed(r) ==> r.val == false
    ensures Failed(Find(p, lens)) ==> r.err == Find(p, lens).err
    ensures Succeeded(Find(p, lens)) && !Find(p, lens).val.Bool? ==> r.err == Some(ValueNotABoolean)
  {
    match Find(p, lens)
    case Panic => Panic
    case Return(v, err) =>
      if err.Some? then Return(false, err)
      else if v.Bool? then Return(v.b, None)
      else Return(false, Some(ValueNotABoolean))
  }

  /**
   * The typed accessors exclude one another: a stored string is neither an
   * int nor a bool, and a stored int is not a string; the rejecting accessor
   * reports its own wrong-type error.
   */
  lemma TypedAccessorsExclusive(p: Properties, lens: string)
    ensures Succeeded(FindString(p, lens)) ==>
      FindInt(p, lens) == Return(0, Some(ValueNotAnInteger)) &&
      FindBool(p, lens) == Return(false, Some(ValueNotABoolean))
    ensures Succeeded(FindInt(p, lens)) ==>
      FindString(p, lens) == Return("", Some(ValueNotAString)) &&
      FindBool(p, lens) == Return(false, Some(ValueNotABoolean))
    ensures Succeeded(FindBool(p, lens)) ==>
      FindString(p, lens) == Return("", Some(ValueNotAString)) &&
      FindInt(p, lens) == Return(0, Some(ValueNotAnInteger))
  {
  }

  // ---------------------------------------------------------------------
  // Jobs, instance groups and the manifest
  // ---------------------------------------------------------------------

  datatype Job = Job(n: string, p: Properties)
  {
    function Name(): (s: string) { n }
    function Props(): (props: Properties) { p }
  }

  datatype InstanceGroup = InstanceGroup(n: string, p: Properties)
  {
    function Name(): (s: string) { n }
    function Props(): (props: Properties) { p }
  }

  /** The `OMJob` interface: either a job or an instance group. */
  datatype OMJob = JobItem(job: Job) | GroupItem(group: InstanceGroup)
  {
    function Name(): (s: string)
    {
      match this
      case JobItem(j) => j.Name()
      case GroupItem(g) => g.Name()
    }

    function Props(): (props: Properties)
    {
      match this
      case JobItem(j) => j.Props()
      case GroupItem(g) => g.Props()
    }
  }

  /** A manifest; an absent `jobs` or `instance_groups` list is empty. */
  datatype Manifest = Manifest(jobs: seq<Job>, instanceGroups: seq<InstanceGroup>)

  /** `NewJob`: the given name and nil properties, in which nothing is found. */
  function NewJob(name: string): (j: Job)
    ensures j.Name() == name
    ensures forall lens :: Find(j.Props(), lens) == NotFound
  {
    Job(name, map[])
  }

  /** `NewInstanceGroup`: the given name and nil properties. */
  function NewInstanceGroup(name: string): (g: InstanceGroup)
    ensures g.Name() == name
    ensures forall lens :: Find(g.Props(), lens) == NotFound
  {
    InstanceGroup(name, map[])
  }

  /** The characters that are not literal in a Go regular expression. */
  const RegexMetacharacters: string := "\\.+*?()|[]{}^$"

  /** A name that is taken literally when spliced into a pattern. */
  predicate IsLiteralPattern(s: string)
  {
    forall i :: 0 <= i < |s| ==> s[i] !in RegexMetacharacters
  }

  /** The generated per-partition job name prefix searched for. */
  function PartitionPrefix(name: string): (prefix: string)
  {
    name + "-partition"
  }

  /** Job `j` is a partition of the logical job `name`. */
  predicate IsPartitionOf(j: Job, name: string)
  {
    PartitionPrefix(name) <= j.Name()
  }

  /** The outcome of `JobNamed`: the entity found, or the panic it raises. */
  datatype JobLookup = Resolved(job: OMJob) | NoSuchJob(jobName: string)

  /**
   * The precedence `JobNamed` implements, stated directly: an instance group
   * named exactly `name` (the first one) wins; otherwise the first job whose
   * name starts with `name + "-partition"`; otherwise the lookup fails.
   */
  function ResolveJob(m: Manifest, name: string): (r: JobLookup)
    ensures r.Resolved? && r.job.GroupItem? ==>
      r.job.group in m.instanceGroups && r.job.Name() == name
    ensures r.Resolved? && r.job.JobItem? ==>
      r.job.job in m.jobs && IsPartitionOf(r.job.job, name)
    ensures r.NoSuchJob? ==> r.jobName == PartitionPrefix(name)
  {
    match Search.FirstIndex(m.instanceGroups, (g: InstanceGroup) => g.Name() == name)
    case Some(i) => Resolved(GroupItem(m.instanceGroups[i]))
    case None =>
      match Search.FirstIndex(m.jobs, (j: Job) => IsPartitionOf(j, name))
      case Some(i) => Resolved(JobItem(m.jobs[i]))
      case None => NoSuchJob(PartitionPrefix(name))
  }

  /**
   * `Manifest.JobNamed`: scan the jobs for the first partition of `name`,
   * then scan the instance groups for the first one named `name`, which
   * overwrites any job found; panic if neither scan hit. The anchored
   * pattern `"^" + name + "-partition"` is a literal prefix test, since
   * `name` holds no metacharacters.
   */
  method JobNamed(m: Manifest, name: string) returns (r: JobLookup)
    requires IsLiteralPattern(name)
    ensures r == ResolveJob(m, name)
  {
    var jobName := PartitionPrefix(name);
    var job: Option<OMJob> := None;
    var i := 0;
    while i < |m.jobs|
      invariant 0 <= i <= |m.jobs|
      invariant job == None
      invariant forall k :: 0 <= k < i ==> !IsPartitionOf(m.jobs[k], name)
    {
      if jobName <= m.jobs[i].Name() {
        job := Some(JobItem(m.jobs[i]));
        break;
      }
      i := i + 1;
    }
    ghost var jobMatch := job;
    assert jobMatch == match Search.FirstIndex(m.jobs, (j: Job) => IsPartitionOf(j, name))
      case Some(k) => Some(JobItem(m.jobs[k]))
      case None => None;
    var g := 0;
    while g < |m.instanceGroups|
      invariant 0 <= g <= |m.instanceGroups|
      invariant job == jobMatch
      invariant forall k :: 0 <= k < g ==> m.instanceGroups[k].Name() != name
    {
      if m.instanceGroups[g].Name() == name {
        job := Some(GroupItem(m.instanceGroups[g]));
        break;
      }
      g := g + 1;
    }
    if job == None {
      return NoSuchJob(jobName);
    }
    return Resolved(job.value);
  }

  /**
   * An instance group named exactly `name` is returned, the first such in
   * list order, whatever partition jobs the manifest also has.
   */
  lemma ResolveGroupWins(m: Manifest, name: string, i: nat)
    requires i < |m.instanceGroups| && m.instanceGroups[i].Name() == name
    requires forall k :: 0 <= k < i ==> m.instanceGroups[k].Name() != name
    ensures ResolveJob(m, name) == Resolved(GroupItem(m.instanceGroups[i]))
  {
  }

  /**
   * With no instance group named `name`, the first job in list order whose
   * name starts with `name + "-partition"` is returned.
   */
  lemma ResolvePartitionFallback(m: Manifest, name: string, i: nat)
    requires forall k :: 0 <= k < |m.instanceGroups| ==> m.instanceGroups[k].Name() != name
    requires i < |m.jobs| && IsPartitionOf(m.jobs[i], name)
    requires forall k :: 0 <= k < i ==> !IsPartitionOf(m.jobs[k], name)
    ensures ResolveJob(m, name) == Resolved(JobItem(m.jobs[i]))
  {
  }

  /**
   * The lookup fails exactly when no instance group is named `name` and no
   * job is a partition of it; it then reports the `-partition` name. A
   * successful lookup returns an entity carrying the name it was found by.
   */
  lemma ResolveFailsIffNoMatch(m: Manifest, name: string)
    ensures ResolveJob(m, name).NoSuchJob? <==>
      (forall k :: 0 <= k < |m.instanceGroups| ==> m.instanceGroups[k].Name() != name) &&
      (forall k :: 0 <= k < |m.jobs| ==> !IsPartitionOf(m.jobs[k], name))
    ensures ResolveJob(m, name).NoSuchJob? ==> ResolveJob(m, name).jobName == name + "-partition"
    ensures ResolveJob(m, name).Resolved? ==>
      var j := ResolveJob(m, name).job;
      (j.GroupItem? && j.Name() == name) || (j.JobItem? && PartitionPrefix(name) <= j.Name())
  {
  }
}
