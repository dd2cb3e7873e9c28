/** Reference-graph shapes that pin down the walk's behaviour: the root
    re-entered through a back-reference, a diamond whose shared assembly is
    loaded once, a dead branch beside a live one, and namespace matches that
    are neither deduplicated nor allowed to cross the trailing-dot boundary.
    Each scenario holds for every loader that produces the given shape. */
module Scenarios {
  import opened Wrappers
  import opened Assemblies
  import opened Paths
  import opened Loader
  import opened Walker
  import opened TypeLookup
  import opened NamespaceLookup

  /** Literal regrouping of short sequences, over any element type. */
  lemma Literal2<T>(x: T, y: T)
    ensures [x] + [y] == [x, y] && [x] + [] == [x] && [] + [x] == [x]
  {
  }

  lemma Literal3<T>(x: T, y: T, z: T)
    ensures [x] + [y, z] == [x, y, z] && [x, y] + [z] == [x, y, z]
  {
  }

  lemma Appended3<T>(v: seq<T>, x: T, y: T, z: T)
    ensures v + [x] + [y] + [z] == v + [x, y, z]
  {
  }

  lemma Literal4<T>(w: T, x: T, y: T, z: T)
    ensures [w] + [x, y, z] == [w, x, y, z]
  {
  }

  /** An assembly without references is a leaf of the walk. */
  lemma LeafWalk(env: Env, a: Assembly, visited: seq<string>)
    requires LoadsWithin(env) && a.refs == []
    ensures WalkFrom(env, a, visited) == Visit([a], visited, None)
  {
    WalkFromStep(env, a, visited, Visit([], visited, None));
    Literal2(a, a);
  }

  /** An assembly whose one reference is already considered is a leaf too. */
  lemma ConsideredStops(env: Env, a: Assembly, to: AssemblyName, visited: seq<string>)
    requires LoadsWithin(env) && to.name in env.universe && a.refs == [to] && to.name in visited
    ensures WalkFrom(env, a, visited) == Visit([a], visited, None)
  {
    assert a.refs[1..] == [];
    WalkRefsSkip(env, a.refs, DirectoryName(a.location), visited);
    WalkFromStep(env, a, visited, Visit([], visited, None));
    Literal2(a, a);
  }

  /** An assembly with one newly considered reference that loads. */
  lemma OneReference(env: Env, a: Assembly, to: AssemblyName, loaded: Assembly, visited: seq<string>, inner: Visit)
    requires LoadsWithin(env) && to.name in env.universe && a.refs == [to] && to.name !in visited
    requires env.load(to, DirectoryName(a.location)) == Success(Some(loaded))
    requires WalkFrom(env, loaded, visited + [to.name]) == inner && inner.fault.None?
    ensures WalkRefs(env, a.refs, DirectoryName(a.location), visited) == inner
  {
    WalkRefsDescend(env, a.refs, DirectoryName(a.location), visited, loaded, inner, Visit([], inner.visited, None));
    assert inner.order + [] == inner.order;
  }

  /** An assembly with two references, both newly considered in turn, that load. */
  lemma TwoReferences(env: Env, a: Assembly, toX: AssemblyName, toY: AssemblyName, x: Assembly, y: Assembly,
                      visited: seq<string>, ix: Visit, iy: Visit)
    requires LoadsWithin(env) && toX.name in env.universe && toY.name in env.universe
    requires a.refs == [toX, toY] && toX.name !in visited && toY.name !in ix.visited
    requires env.load(toX, DirectoryName(a.location)) == Success(Some(x))
    requires env.load(toY, DirectoryName(a.location)) == Success(Some(y))
    requires WalkFrom(env, x, visited + [toX.name]) == ix && ix.fault.None?
    requires WalkFrom(env, y, ix.visited + [toY.name]) == iy && iy.fault.None?
    ensures WalkRefs(env, a.refs, DirectoryName(a.location), visited) == Visit(ix.order + iy.order, iy.visited, None)
  {
    var folder := DirectoryName(a.location);
    assert a.refs[1..] == [toY] && a.refs[1..][1..] == [];
    WalkRefsDescend(env, a.refs[1..], folder, ix.visited, y, iy, Visit([], iy.visited, None));
    assert iy.order + [] == iy.order;
    WalkRefsDescend(env, a.refs, folder, visited, x, ix, Visit(iy.order, iy.visited, None));
  }

  /** A -> B -> A searched from A: the root's name is not pre-seeded, so the
      back-reference loads the root a second time; the root's reference to B
      is then already considered and the walk ends. */
  lemma RootReenteredOnce(env: Env, a: Assembly, b: Assembly, toB: AssemblyName, toA: AssemblyName)
    requires LoadsWithin(env) && toA.name in env.universe && toB.name in env.universe
    requires a.refs == [toB] && b.refs == [toA] && toA.name != toB.name
    requires env.load(toB, DirectoryName(a.location)) == Success(Some(b))
    requires env.load(toA, DirectoryName(b.location)) == Success(Some(a))
    ensures WalkFrom(env, a, []) == Visit([a, b, a], [toB.name, toA.name], None)
  {
    var v1, v2 := [toB.name], [toB.name, toA.name];
    assert [] + [toB.name] == v1 && v1 + [toA.name] == v2;
    Literal2(b, a);
    Literal3(a, b, a);
    ConsideredStops(env, a, toB, v2);
    OneReference(env, b, toA, a, v1, Visit([a], v2, None));
    WalkFromStep(env, b, v1, Visit([a], v2, None));
    OneReference(env, a, toB, b, [], Visit([b, a], v2, None));
    WalkFromStep(env, a, [], Visit([b, a], v2, None));
  }

  /** The first branch of the diamond: B, then D below it. */
  lemma DiamondFirstBranch(env: Env, b: Assembly, d: Assembly, toD: AssemblyName, v1: seq<string>)
    requires LoadsWithin(env) && toD.name in env.universe && toD.name !in v1
    requires b.refs == [toD] && d.refs == []
    requires env.load(toD, DirectoryName(b.location)) == Success(Some(d))
    ensures WalkFrom(env, b, v1) == Visit([b, d], v1 + [toD.name], None)
  {
    var v2 := v1 + [toD.name];
    LeafWalk(env, d, v2);
    OneReference(env, b, toD, d, v1, Visit([d], v2, None));
    WalkFromStep(env, b, v1, Visit([d], v2, None));
    Literal2(b, d);
  }

  /** The references of the diamond's root: B's branch, then C's. */
  lemma DiamondBranches(env: Env, a: Assembly, b: Assembly, c: Assembly, d: Assembly,
                        toB: AssemblyName, toC: AssemblyName, toD: AssemblyName, visited: seq<string>)
    requires LoadsWithin(env) && toB.name in env.universe && toC.name in env.universe && toD.name in env.universe
    requires toB.name != toC.name && toB.name != toD.name && toC.name != toD.name
    requires toB.name !in visited && toC.name !in visited && toD.name !in visited
    requires a.refs == [toB, toC] && b.refs == [toD] && c.refs == [toD] && d.refs == []
    requires env.load(toB, DirectoryName(a.location)) == Success(Some(b))
    requires env.load(toC, DirectoryName(a.location)) == Success(Some(c))
    requires env.load(toD, DirectoryName(b.location)) == Success(Some(d))
    ensures WalkRefs(env, a.refs, DirectoryName(a.location), visited)
         == Visit([b, d, c], visited + [toB.name, toD.name, toC.name], None)
  {
    var v1 := visited + [toB.name];
    var v2 := v1 + [toD.name];
    var v3 := v2 + [toC.name];
    DiamondFirstBranch(env, b, d, toD, v1);
    assert toD.name in v3;
    ConsideredStops(env, c, toD, v3);
    assert toC.name !in v2;
    TwoReferences(env, a, toB, toC, b, c, visited, Visit([b, d], v2, None), Visit([c], v3, None));
    Literal3(b, d, c);
    Appended3(visited, toB.name, toD.name, toC.name);
  }

  /** A -> B, A -> C, B -> D, C -> D: D is loaded under B and skipped under C. */
  lemma DiamondLoadsSharedOnce(env: Env, a: Assembly, b: Assembly, c: Assembly, d: Assembly,
                               toB: AssemblyName, toC: AssemblyName, toD: AssemblyName)
    requires LoadsWithin(env) && toB.name in env.universe && toC.name in env.universe && toD.name in env.universe
    requires toB.name != toC.name && toB.name != toD.name && toC.name != toD.name
    requires a.refs == [toB, toC] && b.refs == [toD] && c.refs == [toD] && d.refs == []
    requires env.load(toB, DirectoryName(a.location)) == Success(Some(b))
    requires env.load(toC, DirectoryName(a.location)) == Success(Some(c))
    requires env.load(toD, DirectoryName(b.location)) == Success(Some(d))
    ensures WalkFrom(env, a, []) == Visit([a, b, d, c], [toB.name, toD.name, toC.name], None)
  {
    var names := [toB.name, toD.name, toC.name];
    DiamondBranches(env, a, b, c, d, toB, toC, toD, []);
    assert [] + names == names;
    WalkFromStep(env, a, [], Visit([b, d, c], names, None));
    Literal4(a, b, d, c);
  }

  /** A dead branch does not stop the search: the first reference cannot be
      loaded at all, and the type is still found under its sibling. */
  lemma SiblingFoundPastDeadBranch(env: Env, a: Assembly, y: Assembly, toX: AssemblyName, toY: AssemblyName, t: TypeDesc)
    requires LoadsWithin(env) && toX.name in env.universe && toY.name in env.universe && toX.name != toY.name
    requires a.types == [] && a.refs == [toX, toY] && y.types == [t]
    requires env.load(toX, DirectoryName(a.location)) == Success(None)
    requires env.load(toY, DirectoryName(a.location)) == Success(Some(y))
    ensures FindIn(env, a, t.fullName, []) == Success(Search(Some(t), [toX.name, toY.name]))
  {
    var v1, v2 := [toX.name], [toX.name, toY.name];
    assert [] + [toX.name] == v1 && v1 + [toY.name] == v2;
    assert a.refs[1..] == [toY];
    assert SingleNamed(y.types, t.fullName) == Success(Some(t));
    assert FindIn(env, y, t.fullName, v2) == Success(Search(Some(t), v2));
    assert FindInRefs(env, a.refs[1..], DirectoryName(a.location), t.fullName, v1) == Success(Search(Some(t), v2));
  }

  /** A root whose first reference declares the type and whose second cannot
      be loaded: the walk ends with the failure at the second reference. */
  lemma FaultingSiblingWalk(env: Env, a: Assembly, x: Assembly, toX: AssemblyName, toY: AssemblyName, e: Failure)
    requires LoadsWithin(env) && toX.name in env.universe && toY.name in env.universe && toX.name != toY.name
    requires a.refs == [toX, toY] && x.refs == []
    requires env.load(toX, DirectoryName(a.location)) == Success(Some(x))
    requires env.load(toY, DirectoryName(a.location)) == Failure(e)
    ensures WalkFrom(env, a, []) == Visit([a, x], [toX.name, toY.name], Some(e))
  {
    var folder := DirectoryName(a.location);
    var v1, v2 := [toX.name], [toX.name, toY.name];
    assert [] + [toX.name] == v1 && v1 + [toY.name] == v2;
    assert a.refs[1..] == [toY];
    LeafWalk(env, x, v1);
    WalkRefsFault(env, a.refs[1..], folder, v1, e);
    WalkRefsDescend(env, a.refs, folder, [], x, Visit([x], v1, None), Visit([], v2, Some(e)));
    Literal2(a, x);
    WalkFromStep(env, a, [], Visit([x], v2, Some(e)));
  }

  /** First match wins over a later failure: the type search succeeds with the
      type found under the first reference and never loads the second, while
      the namespace search, which visits every reference, fails on it. */
  lemma FoundBeforeFaultingSibling(env: Env, a: Assembly, x: Assembly, toX: AssemblyName, toY: AssemblyName,
                                   t: TypeDesc, e: Failure, prefix: string, excludeLocation: string)
    requires LoadsWithin(env) && toX.name in env.universe && toY.name in env.universe && toX.name != toY.name
    requires a.types == [] && a.refs == [toX, toY] && x.types == [t] && x.refs == []
    requires env.load(toX, DirectoryName(a.location)) == Success(Some(x))
    requires env.load(toY, DirectoryName(a.location)) == Failure(e)
    ensures FindIn(env, a, t.fullName, []) == Success(Search(Some(t), [toX.name]))
    ensures CollectIn(env, a, prefix, excludeLocation, []) == Failure(e)
  {
    var v1 := [toX.name];
    assert [] + [toX.name] == v1;
    assert SingleNamed(x.types, t.fullName) == Success(Some(t));
    assert FindIn(env, x, t.fullName, v1) == Success(Search(Some(t), v1));
    FaultingSiblingWalk(env, a, x, toX, toY, e);
    CollectInIsGather(env, a, prefix, excludeLocation, []);
  }

  /** A failure met before any match ends the type search with that failure,
      even though a later reference declares the type: the walk stops at the
      failing reference and never reaches the declaring one. */
  lemma FaultBeforeFound(env: Env, a: Assembly, y: Assembly, toX: AssemblyName, toY: AssemblyName, t: TypeDesc, e: Failure)
    requires LoadsWithin(env) && toX.name in env.universe && toY.name in env.universe && toX.name != toY.name
    requires a.types == [] && a.refs == [toX, toY] && y.types == [t]
    requires env.load(toX, DirectoryName(a.location)) == Failure(e)
    requires env.load(toY, DirectoryName(a.location)) == Success(Some(y))
    ensures FindIn(env, a, t.fullName, []) == Failure(e)
    ensures WalkFrom(env, a, []) == Visit([a], [toX.name], Some(e))
  {
    assert [] + [toX.name] == [toX.name];
    WalkRefsFault(env, a.refs, DirectoryName(a.location), [], e);
    WalkFromStep(env, a, [], Visit([], [toX.name], Some(e)));
    Literal2(a, a);
  }

  /** A root with one reference to a leaf: the walk reaches the root, then the leaf. */
  lemma OneReferenceWalk(env: Env, m: Assembly, n: Assembly, toN: AssemblyName)
    requires LoadsWithin(env) && toN.name in env.universe
    requires m.refs == [toN] && n.refs == []
    requires env.load(toN, DirectoryName(m.location)) == Success(Some(n))
    ensures WalkFrom(env, m, []) == Visit([m, n], [toN.name], None)
  {
    Literal2(toN.name, toN.name);
    Literal2(m, n);
    LeafWalk(env, n, [toN.name]);
    OneReference(env, m, toN, n, [], Visit([n], [toN.name], None));
    WalkFromStep(env, m, [], Visit([n], [toN.name], None));
  }

  lemma GatherPair(m: Assembly, n: Assembly, prefix: string, excludeLocation: string)
    ensures Gather([m, n], prefix, excludeLocation)
         == Candidates(m.types, prefix, excludeLocation) + Candidates(n.types, prefix, excludeLocation)
  {
    assert [m, n][1..] == [n] && [n][1..] == [];
    assert Gather([n], prefix, excludeLocation) == Candidates(n.types, prefix, excludeLocation) + [];
  }

  const AcmeLocation := "lib\\N.dll"
  const AcmeFoo := TypeDesc("Acme.Foo", true, false, AcmeLocation)
  const AcmeFooExtra := TypeDesc("Acme.FooExtra", true, false, AcmeLocation)
  const AcmeFooInner := TypeDesc("Acme.Foo.Inner", true, true, AcmeLocation)
  const AcmeTypes := [AcmeFoo, AcmeFooExtra, AcmeFooInner]

  /** Against the prefix `Acme.Foo.`: `Acme.Foo` is one character too short,
      `Acme.FooExtra` has `E` where the dot must be, and `Acme.Foo.Inner`
      matches by name but is nested. */
  lemma AcmeFooPrefixRejectsAll(excludeLocation: string)
    ensures Candidates(AcmeTypes, "Acme.Foo" + ".", excludeLocation) == []
  {
    var prefix := "Acme.Foo" + ".";
    assert |prefix| == 9 && prefix[8] == '.';
    assert AcmeFooExtra.fullName[8] == 'E';
    assert AcmeFooExtra.fullName[..9] != prefix;
    assert AcmeTypes[1..] == [AcmeFooExtra, AcmeFooInner] && AcmeTypes[1..][1..] == [AcmeFooInner];
    assert AcmeTypes[1..][1..][1..] == [];
    assert Candidates([AcmeFooInner], prefix, excludeLocation) == [];
    assert Candidates([AcmeFooExtra, AcmeFooInner], prefix, excludeLocation) == [];
  }

  /** Every type of the root's own location is excluded, whatever the prefix. */
  lemma AcmeExcludedAtOwnLocation(prefix: string)
    ensures Candidates(AcmeTypes, prefix, AcmeLocation) == []
  {
    assert AcmeTypes[1..] == [AcmeFooExtra, AcmeFooInner] && AcmeTypes[1..][1..] == [AcmeFooInner];
    assert AcmeTypes[1..][1..][1..] == [];
    assert Candidates([AcmeFooInner], prefix, AcmeLocation) == [];
    assert Candidates([AcmeFooExtra, AcmeFooInner], prefix, AcmeLocation) == [];
  }

  /** Against the prefix `Acme.`: the two top-level classes, in declaration order. */
  lemma AcmePrefixKeepsTopLevel(excludeLocation: string)
    requires excludeLocation != AcmeLocation
    ensures Candidates(AcmeTypes, "Acme" + ".", excludeLocation) == [AcmeFoo, AcmeFooExtra]
  {
    var prefix := "Acme" + ".";
    assert AcmeFoo.fullName[..5] == prefix && AcmeFooExtra.fullName[..5] == prefix;
    assert AcmeTypes[1..] == [AcmeFooExtra, AcmeFooInner] && AcmeTypes[1..][1..] == [AcmeFooInner];
    assert AcmeTypes[1..][1..][1..] == [];
    assert Candidates([AcmeFooInner], prefix, excludeLocation) == [];
    assert Candidates([AcmeFooExtra, AcmeFooInner], prefix, excludeLocation) == [AcmeFooExtra];
  }

  /** Searching namespace `Acme.Foo` through a reference to an assembly that
      declares `Acme.Foo`, `Acme.FooExtra` and the nested `Acme.Foo.Inner`
      finds nothing: the appended dot keeps the namespace's own name and its
      look-alike sibling out. */
  lemma NamespaceBoundaryExcludesAll(host: Host, m: Assembly, n: Assembly, toN: AssemblyName)
    requires Closed(host) && toN.name in host.universe
    requires m.types == [] && m.refs == [toN] && n.types == AcmeTypes && n.refs == []
    requires HostEnv(host).load(toN, DirectoryName(m.location)) == Success(Some(n))
    ensures ResolveNamespaceTypes(host, m, "Acme.Foo") == Success([])
  {
    var env, prefix := HostEnv(host), "Acme.Foo" + ".";
    OneReferenceWalk(env, m, n, toN);
    CollectInIsGather(env, m, prefix, m.location, []);
    GatherPair(m, n, prefix, m.location);
    AcmeFooPrefixRejectsAll(m.location);
  }

  /** Searching the enclosing namespace `Acme` returns the two top-level
      classes, and still not the nested one. */
  lemma NamespaceKeepsTopLevelClasses(host: Host, m: Assembly, n: Assembly, toN: AssemblyName)
    requires Closed(host) && toN.name in host.universe
    requires m.types == [] && m.refs == [toN] && n.types == AcmeTypes && n.refs == []
    requires m.location != AcmeLocation
    requires HostEnv(host).load(toN, DirectoryName(m.location)) == Success(Some(n))
    ensures ResolveNamespaceTypes(host, m, "Acme") == Success([AcmeFoo, AcmeFooExtra])
  {
    var env, prefix := HostEnv(host), "Acme" + ".";
    OneReferenceWalk(env, m, n, toN);
    CollectInIsGather(env, m, prefix, m.location, []);
    GatherPair(m, n, prefix, m.location);
    AcmePrefixKeepsTopLevel(m.location);
    assert [] + [AcmeFoo, AcmeFooExtra] == [AcmeFoo, AcmeFooExtra];
  }

  /** The types of the root's own assembly are excluded by location, even
      when they match: the root declaring the same types finds only the
      referenced assembly's. */
  lemma NamespaceExcludesRootLocation(host: Host, m: Assembly, n: Assembly, toN: AssemblyName)
    requires Closed(host) && toN.name in host.universe
    requires m.types == AcmeTypes && m.location == AcmeLocation && m.refs == [toN] && n.refs == []
    requires n.types == [TypeDesc("Acme.Bar", true, false, "lib\\P.dll")]
    requires HostEnv(host).load(toN, DirectoryName(m.location)) == Success(Some(n))
    ensures ResolveNamespaceTypes(host, m, "Acme") == Success(n.types)
  {
    var env, prefix := HostEnv(host), "Acme" + ".";
    OneReferenceWalk(env, m, n, toN);
    CollectInIsGather(env, m, prefix, m.location, []);
    GatherPair(m, n, prefix, m.location);
    AcmeExcludedAtOwnLocation(prefix);
    AcmeBarKept(n.types, m.location);
    assert [] + n.types == n.types;
  }

  /** A lone top-level class `Acme.Bar` of another location passes the `Acme.` filter. */
  lemma AcmeBarKept(types: seq<TypeDesc>, excludeLocation: string)
    requires types == [TypeDesc("Acme.Bar", true, false, "lib\\P.dll")] && excludeLocation == AcmeLocation
    ensures Candidates(types, "Acme" + ".", excludeLocation) == types
  {
    var prefix := "Acme" + ".";
    assert types[0].fullName[..5] == prefix && types[1..] == [];
    assert Candidates(types, prefix, excludeLocation) == types + [];
  }

  /** A root with two references to distinct leaves: root, first leaf, second leaf. */
  lemma TwoLeavesWalk(env: Env, m: Assembly, b: Assembly, c: Assembly, toB: AssemblyName, toC: AssemblyName)
    requires LoadsWithin(env) && toB.name in env.universe && toC.name in env.universe && toB.name != toC.name
    requires m.refs == [toB, toC] && b.refs == [] && c.refs == []
    requires env.load(toB, DirectoryName(m.location)) == Success(Some(b))
    requires env.load(toC, DirectoryName(m.location)) == Success(Some(c))
    ensures WalkFrom(env, m, []) == Visit([m, b, c], [toB.name, toC.name], None)
  {
    var v1, v2 := [toB.name], [toB.name, toC.name];
    assert [] + [toB.name] == v1 && v1 + [toC.name] == v2;
    Literal2(b, c);
    Literal3(m, b, c);
    LeafWalk(env, b, v1);
    LeafWalk(env, c, v2);
    TwoReferences(env, m, toB, toC, b, c, [], Visit([b], v1, None), Visit([c], v2, None));
    WalkFromStep(env, m, [], Visit([b, c], v2, None));
  }

  lemma GatherTriple(m: Assembly, b: Assembly, c: Assembly, prefix: string, excludeLocation: string)
    ensures Gather([m, b, c], prefix, excludeLocation)
         == Candidates(m.types, prefix, excludeLocation) + Candidates(b.types, prefix, excludeLocation)
            + Candidates(c.types, prefix, excludeLocation)
  {
    assert [m, b, c][1..] == [b, c];
    GatherPair(b, c, prefix, excludeLocation);
  }

  lemma DuplicatesGathered(m: Assembly, b: Assembly, c: Assembly, excludeLocation: string)
    requires m.types == [] && b.types == [AcmeFoo] && c.types == [AcmeFoo] && excludeLocation != AcmeLocation
    ensures Gather([m, b, c], "Acme" + ".", excludeLocation) == [AcmeFoo, AcmeFoo]
  {
    var prefix := "Acme" + ".";
    assert AcmeFoo.fullName[..5] == prefix && [AcmeFoo][1..] == [];
    assert Candidates([AcmeFoo], prefix, excludeLocation) == [AcmeFoo] + [];
    assert [] + ([AcmeFoo] + []) + ([AcmeFoo] + []) == [AcmeFoo, AcmeFoo];
    GatherTriple(m, b, c, prefix, excludeLocation);
  }

  /** No deduplication: the same class declared by two referenced assemblies
      is returned twice, once per assembly, in walk order. */
  lemma NamespaceKeepsDuplicates(host: Host, m: Assembly, b: Assembly, c: Assembly, toB: AssemblyName, toC: AssemblyName)
    requires Closed(host) && toB.name in host.universe && toC.name in host.universe && toB.name != toC.name
    requires m.types == [] && m.refs == [toB, toC] && m.location != AcmeLocation
    requires b.types == [AcmeFoo] && b.refs == [] && c.types == [AcmeFoo] && c.refs == []
    requires HostEnv(host).load(toB, DirectoryName(m.location)) == Success(Some(b))
    requires HostEnv(host).load(toC, DirectoryName(m.location)) == Success(Some(c))
    ensures ResolveNamespaceTypes(host, m, "Acme") == Success([AcmeFoo, AcmeFoo])
  {
    var env, prefix := HostEnv(host), "Acme" + ".";
    TwoLeavesWalk(env, m, b, c, toB, toC);
    CollectInIsGather(env, m, prefix, m.location, []);
    DuplicatesGathered(m, b, c, m.location);
  }
}
