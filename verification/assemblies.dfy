/** Reflection as data: a loaded assembly (module), the type descriptors it
    declares, the references it names, and the host's load capabilities. */
module Assemblies {
  /** A declared type as `GetLoadableTypes` reports it: `FullName`, `IsClass`,
      `IsNested` and the `Location` of the assembly that owns it. */
  datatype TypeDesc = TypeDesc(fullName: string, isClass: bool, isNested: bool, location: string)

  /** An `AssemblyName` from `GetReferencedAssemblies`: the simple `Name` and the
      full identity string `FullName` (name, version, culture, key token). */
  datatype AssemblyName = AssemblyName(name: string, fullName: string)

  /** A loaded assembly: its simple name, file location, loadable types and
      references in declared order. */
  datatype Assembly = Assembly(name: string, location: string, types: seq<TypeDesc>, refs: seq<AssemblyName>)

  /** What one load call does: return an assembly, throw `FileNotFoundException`,
      throw `FileLoadException`, or throw anything else. */
  datatype LoadOutcome = Loaded(assembly: Assembly) | NotFound | Conflict | Faulted(cause: string)

  /** A failure that propagates out of the resolver: a load exception other than
      the two swallowed ones, or `SingleOrDefault` finding two types of one name. */
  datatype Failure = LoadFault(cause: string) | AmbiguousType(className: string)

  /** The host runtime: `Assembly.Load(string)`, `Assembly.Load(AssemblyName)`
      and `Assembly.LoadFrom(path)`, plus the finite set of assembly names the
      environment can ever present as references. */
  datatype Host = Host(
    universe: set<string>,
    byFullName: string -> LoadOutcome,
    byIdentity: AssemblyName -> LoadOutcome,
    fromPath: string -> LoadOutcome)

  predicate RefsWithin(refs: seq<AssemblyName>, names: set<string>) {
    forall i :: 0 <= i < |refs| ==> refs[i].name in names
  }

  predicate OutcomeWithin(o: LoadOutcome, names: set<string>) {
    o.Loaded? ==> RefsWithin(o.assembly.refs, names)
  }

  /** Every assembly any strategy can produce references only names of the
      host's universe: the reference graph is finite. */
  ghost predicate Closed(host: Host) {
    && (forall s :: OutcomeWithin(host.byFullName(s), host.universe))
    && (forall r :: OutcomeWithin(host.byIdentity(r), host.universe))
    && (forall p :: OutcomeWithin(host.fromPath(p), host.universe))
  }

  /** The reference names considered so far, as a set. */
  function Names(visited: seq<string>): set<string> {
    set x | x in visited
  }

  /** `visited'` extends `visited` by names of `universe`, each added only when
      it was not yet present: nothing is ever considered twice. */
  predicate Grows(visited: seq<string>, visited': seq<string>, universe: set<string>) {
    && |visited| <= |visited'|
    && visited'[..|visited|] == visited
    && (forall i :: |visited| <= i < |visited'| ==> visited'[i] in universe)
    && (forall j, i :: 0 <= j < i < |visited'| && |visited| <= i ==> visited'[j] != visited'[i])
  }

  predicate Distinct(s: seq<string>) {
    forall i, j :: 0 <= i < j < |s| ==> s[i] != s[j]
  }

  lemma GrowsReflexive(visited: seq<string>, universe: set<string>)
    ensures Grows(visited, visited, universe)
  {
    assert visited[..|visited|] == visited;
  }

  lemma {:induction false} GrowsTransitive(v0: seq<string>, v1: seq<string>, v2: seq<string>, universe: set<string>)
    requires Grows(v0, v1, universe) && Grows(v1, v2, universe)
    ensures Grows(v0, v2, universe)
  {
    assert v2[..|v0|] == v1[..|v1|][..|v0|];
    forall j, i | 0 <= j < i < |v2| && |v0| <= i
      ensures v2[j] != v2[i]
    {
      if i < |v1| {
        assert v2[i] == v1[i] && v2[j] == v1[j];
      }
    }
  }

  /** Considering one fresh name of the universe is growth. */
  lemma GrowsByOne(visited: seq<string>, name: string, universe: set<string>)
    requires name in universe && name !in visited
    ensures Grows(visited, visited + [name], universe)
  {
    assert (visited + [name])[..|visited|] == visited;
  }

  /** How many names of the universe are still unconsidered: the termination
      measure of every walk. */
  function Unvisited(universe: set<string>, visited: seq<string>): nat {
    |universe - Names(visited)|
  }

  /** Considering a fresh name of the universe leaves one name fewer to consider. */
  lemma ConsiderShrinks(visited: seq<string>, name: string, universe: set<string>)
    requires name in universe && name !in visited
    ensures Unvisited(universe, visited + [name]) < Unvisited(universe, visited)
  {
    var before := universe - Names(visited);
    var after := universe - Names(visited + [name]);
    assert after == before - {name};
  }

  /** One step of a walk over a reference list: consider a fresh name, then
      grow twice more (the branch below it and the remaining siblings). */
  lemma GrowsStep(visited: seq<string>, name: string, next: seq<string>, final: seq<string>, universe: set<string>)
    requires name in universe && name !in visited
    requires Grows(visited + [name], next, universe) && Grows(next, final, universe)
    ensures Grows(visited, final, universe)
    ensures |final| - |visited| >= 1 + (|next| - |visited + [name]|) + (|final| - |next|)
  {
    GrowsByOne(visited, name, universe);
    GrowsTransitive(visited, visited + [name], next, universe);
    GrowsTransitive(visited, next, final, universe);
  }

  /** Growth keeps the considered list free of repetitions. */
  lemma {:induction false} GrowsKeepsDistinct(visited: seq<string>, visited': seq<string>, universe: set<string>)
    requires Distinct(visited) && Grows(visited, visited', universe)
    ensures Distinct(visited')
  {
    forall i, j | 0 <= i < j < |visited'|
      ensures visited'[i] != visited'[j]
    {
      if j < |visited| {
        assert visited'[i] == visited[i] && visited'[j] == visited[j];
      }
    }
  }
}
