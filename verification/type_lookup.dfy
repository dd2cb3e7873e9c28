/** `ResolveTypeFromReferences`: the first type of a given full name in the
    depth-first walk of the reference graph. */
module TypeLookup {
  import opened Wrappers
  import opened Assemblies
  import opened Paths
  import opened Loader
  import opened Walker

  /** `SingleOrDefault(t => t.FullName == className)` over an assembly's types:
      null when none matches, the match when exactly one does, and an
      exception when several do. */
  function SingleNamed(types: seq<TypeDesc>, className: string): (r: Result<Option<TypeDesc>, Failure>)
    ensures r == Success(None) <==> forall i :: 0 <= i < |types| ==> types[i].fullName != className
    ensures r.Success? && r.value.Some? ==>
      exists k :: 0 <= k < |types| && types[k] == r.value.value && types[k].fullName == className
        && forall i :: 0 <= i < |types| && types[i].fullName == className ==> i == k
    ensures r.Failure? <==>
      exists i, j :: 0 <= i < j < |types| && types[i].fullName == className && types[j].fullName == className
    ensures r.Failure? ==> r.error == AmbiguousType(className)
    decreases |types|
  {
    if types == [] then Success(None)
    else
      var rest := SingleNamed(types[1..], className);
      assert forall i :: 1 <= i < |types| ==> types[i] == types[1..][i - 1];
      if types[0].fullName != className then
        rest
      else if rest == Success(None) then Success(Some(types[0]))
      else
        Failure(AmbiguousType(className))
  }

  /** The outcome of a search and the reference names considered by it. */
  datatype Search = Search(found: Option<TypeDesc>, visited: seq<string>)

  /** The private overload: the assembly's own types first, then each
      reference not yet considered, depth first; the first hit ends the search. */
  function FindIn(env: Env, a: Assembly, className: string, visited: seq<string>): (r: Result<Search, Failure>)
    requires LoadsWithin(env) && RefsWithin(a.refs, env.universe)
    ensures r.Success? ==> Unvisited(env.universe, r.value.visited) <= Unvisited(env.universe, visited)
    ensures r.Success? && r.value.found.Some? ==> r.value.found.value.fullName == className
    decreases Unvisited(env.universe, visited), 1, 0
  {
    match SingleNamed(a.types, className)
    case Failure(e) => Failure(e)
    case Success(Some(t)) => Success(Search(Some(t), visited))
    case Success(None) => FindInRefs(env, a.refs, DirectoryName(a.location), className, visited)
  }

  /** The `foreach` over references: skip considered names, mark the name,
      skip unloadable references and fruitless branches, stop at a hit. */
  function FindInRefs(env: Env, refs: seq<AssemblyName>, folder: string, className: string, visited: seq<string>): (r: Result<Search, Failure>)
    requires LoadsWithin(env) && RefsWithin(refs, env.universe)
    ensures r.Success? ==> Unvisited(env.universe, r.value.visited) <= Unvisited(env.universe, visited)
    ensures r.Success? && r.value.found.Some? ==> r.value.found.value.fullName == className
    decreases Unvisited(env.universe, visited), 0, |refs|
  {
    if refs == [] then Success(Search(None, visited))
    else
      var reference := refs[0];
      if reference.name in visited then FindInRefs(env, refs[1..], folder, className, visited)
      else
        var considered := visited + [reference.name];
        ConsiderShrinks(visited, reference.name, env.universe);
        match env.load(reference, folder)
        case Failure(e) => Failure(e)
        case Success(None) => FindInRefs(env, refs[1..], folder, className, considered)
        case Success(Some(loaded)) =>
          match FindIn(env, loaded, className, considered)
          case Failure(e) => Failure(e)
          case Success(inner) =>
            if inner.found.Some? then Success(inner)
            else FindInRefs(env, refs[1..], folder, className, inner.visited)
  }

  /** The public overload: a fresh, empty considered list (the root's own name
      is not in it); null when nothing matches. */
  function ResolveType(host: Host, root: Assembly, className: string): (r: Result<Option<TypeDesc>, Failure>)
    requires Closed(host) && RefsWithin(root.refs, host.universe)
    ensures r.Success? && r.value.Some? ==> r.value.value.fullName == className
  {
    match FindIn(HostEnv(host), root, className, [])
    case Failure(e) => Failure(e)
    case Success(s) => Success(s.found)
  }

  /** Self-priority: a type the root declares is returned and no reference is
      even considered, let alone loaded. */
  lemma SelfPriority(host: Host, root: Assembly, className: string, k: int)
    requires Closed(host) && RefsWithin(root.refs, host.universe)
    requires 0 <= k < |root.types| && root.types[k].fullName == className
    requires forall i :: 0 <= i < |root.types| && i != k ==> root.types[i].fullName != className
    ensures FindIn(HostEnv(host), root, className, []) == Success(Search(Some(root.types[k]), []))
    ensures ResolveType(host, root, className) == Success(Some(root.types[k]))
  {
    var r := SingleNamed(root.types, className);
    assert r.Success? && r.value.Some?;
  }

  /** The type search, too, considers every reference name at most once. */
  lemma {:induction false} FindInGrows(env: Env, a: Assembly, className: string, visited: seq<string>)
    requires LoadsWithin(env) && RefsWithin(a.refs, env.universe)
    requires FindIn(env, a, className, visited).Success?
    ensures Grows(visited, FindIn(env, a, className, visited).value.visited, env.universe)
    decreases Unvisited(env.universe, visited), 1, 0
  {
    if SingleNamed(a.types, className) == Success(None) {
      FindInRefsGrows(env, a.refs, DirectoryName(a.location), className, visited);
    } else {
      GrowsReflexive(visited, env.universe);
    }
  }

  lemma {:induction false} FindInRefsGrows(env: Env, refs: seq<AssemblyName>, folder: string, className: string, visited: seq<string>)
    requires LoadsWithin(env) && RefsWithin(refs, env.universe)
    requires FindInRefs(env, refs, folder, className, visited).Success?
    ensures Grows(visited, FindInRefs(env, refs, folder, className, visited).value.visited, env.universe)
    decreases Unvisited(env.universe, visited), 0, |refs|
  {
    if refs == [] {
      GrowsReflexive(visited, env.universe);
    } else if refs[0].name in visited {
      FindInRefsGrows(env, refs[1..], folder, className, visited);
    } else {
      var reference := refs[0];
      var considered := visited + [reference.name];
      ConsiderShrinks(visited, reference.name, env.universe);
      var loaded := env.load(reference, folder).value;
      if loaded.Some? {
        var inner := FindIn(env, loaded.value, className, considered).value;
        FindInGrows(env, loaded.value, className, considered);
        if inner.found.Some? {
          GrowsReflexive(inner.visited, env.universe);
          GrowsStep(visited, reference.name, inner.visited, inner.visited, env.universe);
        } else {
          FindInRefsGrows(env, refs[1..], folder, className, inner.visited);
          GrowsStep(visited, reference.name, inner.visited,
                    FindInRefs(env, refs[1..], folder, className, inner.visited).value.visited, env.universe);
        }
      } else {
        GrowsReflexive(considered, env.universe);
        FindInRefsGrows(env, refs[1..], folder, className, considered);
        GrowsStep(visited, reference.name, considered,
                  FindInRefs(env, refs[1..], folder, className, considered).value.visited, env.universe);
      }
    }
  }

  /** The reference answer: the first assembly of a walk order that declares
      `className` decides (its single type, or the ambiguity failure). */
  function FirstMatch(order: seq<Assembly>, className: string): (r: Result<Option<TypeDesc>, Failure>)
    ensures r.Success? && r.value.Some? ==> exists k :: 0 <= k < |order| && r.value.value in order[k].types
    ensures r == Success(None) <==> forall k, i :: 0 <= k < |order| && 0 <= i < |order[k].types| ==> order[k].types[i].fullName != className
    decreases |order|
  {
    if order == [] then Success(None)
    else
      var here := SingleNamed(order[0].types, className);
      var rest := FirstMatch(order[1..], className);
      assert forall k :: 1 <= k < |order| ==> order[k] == order[1..][k - 1];
      if here == Success(None) then rest else here
  }

  lemma {:induction false} FirstMatchAppend(a: seq<Assembly>, b: seq<Assembly>, className: string)
    ensures FirstMatch(a + b, className)
         == if FirstMatch(a, className) == Success(None) then FirstMatch(b, className) else FirstMatch(a, className)
    decreases |a|
  {
    if a == [] {
      assert a + b == b;
    } else {
      assert (a + b)[1..] == a[1..] + b;
      FirstMatchAppend(a[1..], b, className);
    }
  }

  function Found(r: Result<Search, Failure>): Result<Option<TypeDesc>, Failure> {
    match r
    case Failure(e) => Failure(e)
    case Success(s) => Success(s.found)
  }

  /** The reference answer over a walk: the first match among the assemblies
      reached; when none of them declares `className`, the failure that ended
      the walk, or null when the walk ran to completion. */
  function Answer(w: Visit, className: string): Result<Option<TypeDesc>, Failure> {
    var m := FirstMatch(w.order, className);
    if m == Success(None) && w.fault.Some? then Failure(w.fault.value) else m
  }

  /** The search gives the reference answer; when that is null it has
      considered exactly the names the full walk considers. */
  predicate Agrees(r: Result<Search, Failure>, w: Visit, className: string) {
    if Answer(w, className) == Success(None) then r == Success(Search(None, w.visited))
    else Found(r) == Answer(w, className)
  }

  /** First match wins: the search returns the first match in depth-first,
      declared-reference order, even when a load further on would fail; it
      fails only with a failure met before any match. */
  lemma {:induction false} FindInIsFirstMatch(env: Env, a: Assembly, className: string, visited: seq<string>)
    requires LoadsWithin(env) && RefsWithin(a.refs, env.universe)
    ensures Agrees(FindIn(env, a, className, visited), WalkFrom(env, a, visited), className)
    decreases Unvisited(env.universe, visited), 1, 0
  {
    var folder := DirectoryName(a.location);
    var w := WalkRefs(env, a.refs, folder, visited);
    assert ([a] + w.order)[1..] == w.order;
    if SingleNamed(a.types, className) == Success(None) {
      FindInRefsIsFirstMatch(env, a.refs, folder, className, visited);
    }
  }

  lemma {:induction false} FindInRefsIsFirstMatch(env: Env, refs: seq<AssemblyName>, folder: string, className: string, visited: seq<string>)
    requires LoadsWithin(env) && RefsWithin(refs, env.universe)
    ensures Agrees(FindInRefs(env, refs, folder, className, visited), WalkRefs(env, refs, folder, visited), className)
    decreases Unvisited(env.universe, visited), 0, |refs|, 1
  {
    if refs != [] {
      if refs[0].name in visited {
        FindInRefsIsFirstMatch(env, refs[1..], folder, className, visited);
      } else {
        FindInRefsIsFirstMatchConsidered(env, refs, folder, className, visited);
      }
    }
  }

  /** The step of `FindInRefsIsFirstMatch` for a reference whose name is newly considered. */
  lemma {:induction false} FindInRefsIsFirstMatchConsidered(env: Env, refs: seq<AssemblyName>, folder: string, className: string, visited: seq<string>)
    requires LoadsWithin(env) && RefsWithin(refs, env.universe)
    requires refs != [] && refs[0].name !in visited
    ensures Agrees(FindInRefs(env, refs, folder, className, visited), WalkRefs(env, refs, folder, visited), className)
    decreases Unvisited(env.universe, visited), 0, |refs|, 0
  {
    var reference := refs[0];
    var considered := visited + [reference.name];
    ConsiderShrinks(visited, reference.name, env.universe);
    match env.load(reference, folder)
    case Failure(_) =>
    case Success(None) =>
      FindInRefsIsFirstMatch(env, refs[1..], folder, className, considered);
    case Success(Some(loaded)) =>
      var inner := WalkFrom(env, loaded, considered);
      FindInIsFirstMatch(env, loaded, className, considered);
      if inner.fault.None? {
        var rest := WalkRefs(env, refs[1..], folder, inner.visited);
        FirstMatchAppend(inner.order, rest.order, className);
        if FirstMatch(inner.order, className) == Success(None) {
          FindInRefsIsFirstMatch(env, refs[1..], folder, className, inner.visited);
        }
      }
  }

  /** The public result is the reference answer over the walk from the root
      with an empty considered list: the first match if any assembly reached
      declares `className`, otherwise the failure that stopped the walk, and
      otherwise null, not an error. */
  lemma ResolveTypeIsFirstMatch(host: Host, root: Assembly, className: string)
    requires Closed(host) && RefsWithin(root.refs, host.universe)
    ensures ResolveType(host, root, className) == Answer(WalkFrom(HostEnv(host), root, []), className)
    ensures FirstMatch(WalkFrom(HostEnv(host), root, []).order, className) != Success(None)
        ==> ResolveType(host, root, className) == FirstMatch(WalkFrom(HostEnv(host), root, []).order, className)
    ensures (forall k, i :: 0 <= k < |WalkFrom(HostEnv(host), root, []).order|
                         && 0 <= i < |WalkFrom(HostEnv(host), root, []).order[k].types|
               ==> WalkFrom(HostEnv(host), root, []).order[k].types[i].fullName != className)
            && WalkFrom(HostEnv(host), root, []).fault.None?
            ==> ResolveType(host, root, className) == Success(None)
  {
    FindInIsFirstMatch(HostEnv(host), root, className, []);
  }
}
