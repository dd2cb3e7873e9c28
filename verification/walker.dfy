/** The depth-first walk over the reference graph that both resolver searches
    share: the order in which assemblies are reached, up to the first load
    failure. The two lookups are proved against it. */
module Walker {
  import opened Wrappers
  import opened Assemblies
  import opened Paths
  import opened Loader

  /** The assemblies reached, in depth-first pre-order, the considered names
      afterwards, and the first load failure, if any. A failure ends the walk:
      `order` then holds what was reached before it. */
  datatype Visit = Visit(order: seq<Assembly>, visited: seq<string>, fault: Option<Failure>)

  /** The walk from `a`: `a` itself, then each reference not yet considered,
      marked as considered, loaded next to `a`, and walked in turn. */
  function WalkFrom(env: Env, a: Assembly, visited: seq<string>): (r: Visit)
    requires LoadsWithin(env) && RefsWithin(a.refs, env.universe)
    ensures Unvisited(env.universe, r.visited) <= Unvisited(env.universe, visited)
    ensures |r.order| >= 1 && r.order[0] == a
    decreases Unvisited(env.universe, visited), 1, 0
  {
    var v := WalkRefs(env, a.refs, DirectoryName(a.location), visited);
    Visit([a] + v.order, v.visited, v.fault)
  }

  /** The walk over a reference list, in declared order. */
  function WalkRefs(env: Env, refs: seq<AssemblyName>, folder: string, visited: seq<string>): (r: Visit)
    requires LoadsWithin(env) && RefsWithin(refs, env.universe)
    ensures Unvisited(env.universe, r.visited) <= Unvisited(env.universe, visited)
    decreases Unvisited(env.universe, visited), 0, |refs|
  {
    if refs == [] then Visit([], visited, None)
    else
      var reference := refs[0];
      if reference.name in visited then WalkRefs(env, refs[1..], folder, visited)
      else
        var considered := visited + [reference.name];
        ConsiderShrinks(visited, reference.name, env.universe);
        match env.load(reference, folder)
        case Failure(e) => Visit([], considered, Some(e))
        case Success(None) => WalkRefs(env, refs[1..], folder, considered)
        case Success(Some(loaded)) =>
          var inner := WalkFrom(env, loaded, considered);
          if inner.fault.Some? then inner
          else
            var rest := WalkRefs(env, refs[1..], folder, inner.visited);
            Visit(inner.order + rest.order, rest.visited, rest.fault)
  }

  /** Each reference name is considered at most once per walk, and no more
      assemblies are reached after the start than names are newly
      considered: no name is loaded twice, even on cyclic graphs. */
  lemma {:induction false} WalkFromGrows(env: Env, a: Assembly, visited: seq<string>)
    requires LoadsWithin(env) && RefsWithin(a.refs, env.universe)
    ensures Grows(visited, WalkFrom(env, a, visited).visited, env.universe)
    ensures |WalkFrom(env, a, visited).order| - 1
         <= |WalkFrom(env, a, visited).visited| - |visited|
    decreases Unvisited(env.universe, visited), 1, 0
  {
    WalkRefsGrows(env, a.refs, DirectoryName(a.location), visited);
  }

  lemma {:induction false} WalkRefsGrows(env: Env, refs: seq<AssemblyName>, folder: string, visited: seq<string>)
    requires LoadsWithin(env) && RefsWithin(refs, env.universe)
    ensures Grows(visited, WalkRefs(env, refs, folder, visited).visited, env.universe)
    ensures |WalkRefs(env, refs, folder, visited).order|
         <= |WalkRefs(env, refs, folder, visited).visited| - |visited|
    decreases Unvisited(env.universe, visited), 0, |refs|, 1
  {
    if refs == [] {
      GrowsReflexive(visited, env.universe);
    } else if refs[0].name in visited {
      WalkRefsGrows(env, refs[1..], folder, visited);
    } else {
      WalkRefsGrowsConsidered(env, refs, folder, visited);
    }
  }

  /** The step of `WalkRefsGrows` for a reference whose name is newly considered. */
  lemma {:induction false} WalkRefsGrowsConsidered(env: Env, refs: seq<AssemblyName>, folder: string, visited: seq<string>)
    requires LoadsWithin(env) && RefsWithin(refs, env.universe)
    requires refs != [] && refs[0].name !in visited
    ensures Grows(visited, WalkRefs(env, refs, folder, visited).visited, env.universe)
    ensures |WalkRefs(env, refs, folder, visited).order|
         <= |WalkRefs(env, refs, folder, visited).visited| - |visited|
    decreases Unvisited(env.universe, visited), 0, |refs|, 0
  {
    var reference := refs[0];
    var considered := visited + [reference.name];
    ConsiderShrinks(visited, reference.name, env.universe);
    var w := WalkRefs(env, refs, folder, visited);
    match env.load(reference, folder)
    case Failure(e) =>
      assert w == Visit([], considered, Some(e));
      GrowsReflexive(considered, env.universe);
      GrowsStep(visited, reference.name, considered, considered, env.universe);
    case Success(None) =>
      var rest := WalkRefs(env, refs[1..], folder, considered);
      assert w == rest;
      GrowsReflexive(considered, env.universe);
      WalkRefsGrows(env, refs[1..], folder, considered);
      GrowsStep(visited, reference.name, considered, rest.visited, env.universe);
    case Success(Some(loaded)) =>
      var inner := WalkFrom(env, loaded, considered);
      WalkFromGrows(env, loaded, considered);
      if inner.fault.Some? {
        assert w == inner;
        GrowsReflexive(inner.visited, env.universe);
        GrowsStep(visited, reference.name, inner.visited, inner.visited, env.universe);
      } else {
        var rest := WalkRefs(env, refs[1..], folder, inner.visited);
        assert w == Visit(inner.order + rest.order, rest.visited, rest.fault);
        WalkRefsGrows(env, refs[1..], folder, inner.visited);
        GrowsStep(visited, reference.name, inner.visited, rest.visited, env.universe);
      }
  }

  /** From the public entry point, with an empty considered list, the walk
      considers every reference name at most once and reaches at most one
      assembly per considered name besides the root. */
  lemma WalkFromRootConsidersOnce(env: Env, root: Assembly)
    requires LoadsWithin(env) && RefsWithin(root.refs, env.universe)
    ensures Distinct(WalkFrom(env, root, []).visited)
    ensures forall i :: 0 <= i < |WalkFrom(env, root, []).visited| ==> WalkFrom(env, root, []).visited[i] in env.universe
    ensures |WalkFrom(env, root, []).order| <= |WalkFrom(env, root, []).visited| + 1
  {
    WalkFromGrows(env, root, []);
    GrowsKeepsDistinct([], WalkFrom(env, root, []).visited, env.universe);
  }

  /** One step of the walk from `a`, given the walk over its references. */
  lemma WalkFromStep(env: Env, a: Assembly, visited: seq<string>, below: Visit)
    requires LoadsWithin(env) && RefsWithin(a.refs, env.universe)
    requires WalkRefs(env, a.refs, DirectoryName(a.location), visited) == below
    ensures WalkFrom(env, a, visited) == Visit([a] + below.order, below.visited, below.fault)
  {
  }

  /** A reference already considered is passed over without loading. */
  lemma WalkRefsSkip(env: Env, refs: seq<AssemblyName>, folder: string, visited: seq<string>)
    requires LoadsWithin(env) && RefsWithin(refs, env.universe)
    requires refs != [] && refs[0].name in visited
    ensures WalkRefs(env, refs, folder, visited) == WalkRefs(env, refs[1..], folder, visited)
  {
  }

  /** A newly considered reference that loads is walked, then, if that walk
      met no failure, the rest follow with the names it considered. */
  lemma WalkRefsDescend(env: Env, refs: seq<AssemblyName>, folder: string, visited: seq<string>,
                        loaded: Assembly, inner: Visit, rest: Visit)
    requires LoadsWithin(env) && RefsWithin(refs, env.universe)
    requires refs != [] && refs[0].name !in visited
    requires env.load(refs[0], folder) == Success(Some(loaded))
    requires RefsWithin(loaded.refs, env.universe)
    requires WalkFrom(env, loaded, visited + [refs[0].name]) == inner && inner.fault.None?
    requires WalkRefs(env, refs[1..], folder, inner.visited) == rest
    ensures WalkRefs(env, refs, folder, visited) == Visit(inner.order + rest.order, rest.visited, rest.fault)
  {
  }

  /** A newly considered reference whose load fails ends the walk there. */
  lemma WalkRefsFault(env: Env, refs: seq<AssemblyName>, folder: string, visited: seq<string>, e: Failure)
    requires LoadsWithin(env) && RefsWithin(refs, env.universe)
    requires refs != [] && refs[0].name !in visited
    requires env.load(refs[0], folder) == Failure(e)
    ensures WalkRefs(env, refs, folder, visited) == Visit([], visited + [refs[0].name], Some(e))
  {
  }
}
