/** `ResolveNamespaceTypesFromReferences`: every top-level class under a
    namespace, from every assembly reachable from the root. */
module NamespaceLookup {
  import opened Wrappers
  import opened Strings
  import opened Assemblies
  import opened Paths
  import opened Loader
  import opened Walker

  /** The `Where` filter: name starts with the prefix, owning assembly is not
      the excluded one, a class, not nested. */
  predicate IsCandidate(t: TypeDesc, prefix: string, excludeLocation: string) {
    StartsWith(t.fullName, prefix) && t.location != excludeLocation && t.isClass && !t.isNested
  }

  /** The matches among one assembly's types, in declaration order: a single
      type is kept exactly when it passes the filter, and with
      `CandidatesAppend` this fixes the order and the multiplicity of the rest. */
  function Candidates(types: seq<TypeDesc>, prefix: string, excludeLocation: string): (r: seq<TypeDesc>)
    ensures forall t :: t in r <==> t in types && IsCandidate(t, prefix, excludeLocation)
    ensures |r| <= |types|
    ensures |types| == 1 ==> r == if IsCandidate(types[0], prefix, excludeLocation) then types else []
  {
    if types == [] then []
    else
      var rest := Candidates(types[1..], prefix, excludeLocation);
      if IsCandidate(types[0], prefix, excludeLocation) then [types[0]] + rest else rest
  }

  /** Filtering distributes over concatenation: the matches of `s + u` are
      the matches of `s` followed by those of `u`, so order is kept and a type
      declared twice is returned twice. */
  lemma {:induction false} CandidatesAppend(s: seq<TypeDesc>, u: seq<TypeDesc>, prefix: string, excludeLocation: string)
    ensures Candidates(s + u, prefix, excludeLocation)
         == Candidates(s, prefix, excludeLocation) + Candidates(u, prefix, excludeLocation)
    decreases |s|
  {
    if s == [] {
      assert s + u == u;
    } else {
      assert (s + u)[1..] == s[1..] + u;
      CandidatesAppend(s[1..], u, prefix, excludeLocation);
    }
  }

  /** The types collected so far and the reference names considered by then. */
  datatype Harvest = Harvest(types: seq<TypeDesc>, visited: seq<string>)

  /** The private overload: this assembly's matches, then the results of every
      reference not yet considered, appended in declared order. */
  function CollectIn(env: Env, a: Assembly, prefix: string, excludeLocation: string, visited: seq<string>): (r: Result<Harvest, Failure>)
    requires LoadsWithin(env) && RefsWithin(a.refs, env.universe)
    ensures r.Success? ==> Unvisited(env.universe, r.value.visited) <= Unvisited(env.universe, visited)
    ensures r.Success? ==> forall k :: 0 <= k < |r.value.types| ==> IsCandidate(r.value.types[k], prefix, excludeLocation)
    decreases Unvisited(env.universe, visited), 1, 0
  {
    var here := Candidates(a.types, prefix, excludeLocation);
    match CollectInRefs(env, a.refs, DirectoryName(a.location), prefix, excludeLocation, visited)
    case Failure(e) => Failure(e)
    case Success(below) => Success(Harvest(here + below.types, below.visited))
  }

  /** The `foreach` over references: every reference not yet considered is
      marked, loaded, and descended into, whether or not matches were found. */
  function CollectInRefs(env: Env, refs: seq<AssemblyName>, folder: string, prefix: string, excludeLocation: string, visited: seq<string>): (r: Result<Harvest, Failure>)
    requires LoadsWithin(env) && RefsWithin(refs, env.universe)
    ensures r.Success? ==> Unvisited(env.universe, r.value.visited) <= Unvisited(env.universe, visited)
    ensures r.Success? ==> forall k :: 0 <= k < |r.value.types| ==> IsCandidate(r.value.types[k], prefix, excludeLocation)
    decreases Unvisited(env.universe, visited), 0, |refs|
  {
    if refs == [] then Success(Harvest([], visited))
    else
      var reference := refs[0];
      if reference.name in visited then CollectInRefs(env, refs[1..], folder, prefix, excludeLocation, visited)
      else
        var considered := visited + [reference.name];
        ConsiderShrinks(visited, reference.name, env.universe);
        match env.load(reference, folder)
        case Failure(e) => Failure(e)
        case Success(None) => CollectInRefs(env, refs[1..], folder, prefix, excludeLocation, considered)
        case Success(Some(loaded)) =>
          match CollectIn(env, loaded, prefix, excludeLocation, considered)
          case Failure(e) => Failure(e)
          case Success(inner) =>
            match CollectInRefs(env, refs[1..], folder, prefix, excludeLocation, inner.visited)
            case Failure(e) => Failure(e)
            case Success(rest) => Success(Harvest(inner.types + rest.types, rest.visited))
  }

  /** The public overload: the prefix is `nspace + "."`, the excluded location
      is the root's own, the considered list starts empty; an empty array when
      nothing matches. */
  function ResolveNamespaceTypes(host: Host, root: Assembly, nspace: string): (r: Result<seq<TypeDesc>, Failure>)
    requires Closed(host) && RefsWithin(root.refs, host.universe)
    ensures r.Success? ==> forall k :: 0 <= k < |r.value| ==>
      && StartsWith(r.value[k].fullName, nspace + ".")
      && r.value[k].isClass
      && !r.value[k].isNested
      && r.value[k].location != root.location
  {
    match CollectIn(HostEnv(host), root, nspace + ".", root.location, [])
    case Failure(e) => Failure(e)
    case Success(h) => Success(h.types)
  }

  /** The reference answer: the matches of every assembly of a walk order,
      concatenated in that order, duplicates kept. */
  function Gather(order: seq<Assembly>, prefix: string, excludeLocation: string): seq<TypeDesc>
    decreases |order|
  {
    if order == [] then []
    else Candidates(order[0].types, prefix, excludeLocation) + Gather(order[1..], prefix, excludeLocation)
  }

  lemma {:induction false} GatherAppend(a: seq<Assembly>, b: seq<Assembly>, prefix: string, excludeLocation: string)
    ensures Gather(a + b, prefix, excludeLocation) == Gather(a, prefix, excludeLocation) + Gather(b, prefix, excludeLocation)
    decreases |a|
  {
    if a == [] {
      assert a + b == b;
    } else {
      assert (a + b)[1..] == a[1..] + b;
      GatherAppend(a[1..], b, prefix, excludeLocation);
    }
  }

  /** A type is gathered exactly when some assembly of the order declares it
      and it passes the filter. */
  lemma {:induction false} GatherMembership(order: seq<Assembly>, prefix: string, excludeLocation: string, t: TypeDesc)
    ensures t in Gather(order, prefix, excludeLocation)
        <==> IsCandidate(t, prefix, excludeLocation) && exists k :: 0 <= k < |order| && t in order[k].types
    decreases |order|
  {
    if order != [] {
      GatherMembership(order[1..], prefix, excludeLocation, t);
      if exists k :: 0 <= k < |order| && t in order[k].types {
        var k :| 0 <= k < |order| && t in order[k].types;
        if k > 0 {
          assert order[1..][k - 1] == order[k];
        }
      }
      if exists k :: 0 <= k < |order[1..]| && t in order[1..][k] .types {
        var k :| 0 <= k < |order[1..]| && t in order[1..][k].types;
        assert order[k + 1] == order[1..][k];
      }
    }
  }

  /** The search result seen through the walk: the failure that stopped the
      walk, or the gathered matches of the walk order with the walk's
      considered names. */
  function Expected(w: Visit, prefix: string, excludeLocation: string): Result<Harvest, Failure> {
    match w.fault
    case Some(e) => Failure(e)
    case None => Success(Harvest(Gather(w.order, prefix, excludeLocation), w.visited))
  }

  /** Accumulation: the namespace search is the full depth-first walk with
      the filter applied to every assembly reached, results appended in order. */
  lemma {:induction false} CollectInIsGather(env: Env, a: Assembly, prefix: string, excludeLocation: string, visited: seq<string>)
    requires LoadsWithin(env) && RefsWithin(a.refs, env.universe)
    ensures CollectIn(env, a, prefix, excludeLocation, visited)
         == Expected(WalkFrom(env, a, visited), prefix, excludeLocation)
    decreases Unvisited(env.universe, visited), 1, 0
  {
    var folder := DirectoryName(a.location);
    CollectInRefsIsGather(env, a.refs, folder, prefix, excludeLocation, visited);
    var w := WalkRefs(env, a.refs, folder, visited);
    assert ([a] + w.order)[1..] == w.order;
  }

  /** The namespace search, too, considers every reference name at most once:
      its considered list is the walk's. */
  lemma CollectInGrows(env: Env, a: Assembly, prefix: string, excludeLocation: string, visited: seq<string>)
    requires LoadsWithin(env) && RefsWithin(a.refs, env.universe)
    requires CollectIn(env, a, prefix, excludeLocation, visited).Success?
    ensures Grows(visited, CollectIn(env, a, prefix, excludeLocation, visited).value.visited, env.universe)
  {
    CollectInIsGather(env, a, prefix, excludeLocation, visited);
    WalkFromGrows(env, a, visited);
  }

  lemma {:induction false} CollectInRefsIsGather(env: Env, refs: seq<AssemblyName>, folder: string, prefix: string, excludeLocation: string, visited: seq<string>)
    requires LoadsWithin(env) && RefsWithin(refs, env.universe)
    ensures CollectInRefs(env, refs, folder, prefix, excludeLocation, visited)
         == Expected(WalkRefs(env, refs, folder, visited), prefix, excludeLocation)
    decreases Unvisited(env.universe, visited), 0, |refs|
  {
    if refs != [] {
      var reference := refs[0];
      if reference.name in visited {
        CollectInRefsIsGather(env, refs[1..], folder, prefix, excludeLocation, visited);
      } else {
        var considered := visited + [reference.name];
        ConsiderShrinks(visited, reference.name, env.universe);
        match env.load(reference, folder)
        case Failure(_) =>
        case Success(None) =>
          CollectInRefsIsGather(env, refs[1..], folder, prefix, excludeLocation, considered);
        case Success(Some(loaded)) =>
          CollectInIsGather(env, loaded, prefix, excludeLocation, considered);
          var inner := WalkFrom(env, loaded, considered);
          if inner.fault.None? {
            CollectInRefsIsGather(env, refs[1..], folder, prefix, excludeLocation, inner.visited);
            var rest := WalkRefs(env, refs[1..], folder, inner.visited);
            GatherAppend(inner.order, rest.order, prefix, excludeLocation);
          }
      }
    }
  }

  /** The namespace search fails exactly when a load on the walk fails, with
      that failure; otherwise it returns exactly the top-level classes under
      `nspace + "."` declared outside the root's location by assemblies the
      walk reaches: nothing else, and nothing of those left out. */
  lemma ResolveNamespaceTypesIsGather(host: Host, root: Assembly, nspace: string, t: TypeDesc)
    requires Closed(host) && RefsWithin(root.refs, host.universe)
    ensures var w := WalkFrom(HostEnv(host), root, []);
      w.fault.Some? ==> ResolveNamespaceTypes(host, root, nspace) == Failure(w.fault.value)
    ensures var w := WalkFrom(HostEnv(host), root, []);
      w.fault.None? ==>
        && ResolveNamespaceTypes(host, root, nspace) == Success(Gather(w.order, nspace + ".", root.location))
        && (t in ResolveNamespaceTypes(host, root, nspace).value
            <==> IsCandidate(t, nspace + ".", root.location) && exists k :: 0 <= k < |w.order| && t in w.order[k].types)
  {
    var w := WalkFrom(HostEnv(host), root, []);
    CollectInIsGather(HostEnv(host), root, nspace + ".", root.location, []);
    GatherMembership(w.order, nspace + ".", root.location, t);
  }

  /** The trailing separator is part of the prefix: a type named exactly
      `nspace`, or one in a namespace that merely starts with the same
      letters, is never returned. */
  lemma PrefixBoundary(host: Host, root: Assembly, nspace: string, t: TypeDesc)
    requires Closed(host) && RefsWithin(root.refs, host.universe)
    requires ResolveNamespaceTypes(host, root, nspace).Success?
    requires t.fullName == nspace || (StartsWith(t.fullName, nspace) && |t.fullName| > |nspace| && t.fullName[|nspace|] != '.')
    ensures t !in ResolveNamespaceTypes(host, root, nspace).value
  {
  }
}
