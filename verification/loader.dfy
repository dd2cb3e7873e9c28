/** Loading one referenced assembly through the layered fallback of
    `LoadReferencedAssembly`, `TryLoad` and `TryLoadFrom`. */
module Loader {
  import opened Wrappers
  import opened Assemblies
  import opened Paths

  /** `_resolvingExtensions`: the file extensions probed on disk, in order. */
  const ResolvingExtensions: seq<string> := [".dll", ".exe"]

  /** The try/catch around one load call: `FileNotFoundException` and
      `FileLoadException` become null, anything else propagates. */
  function Absorb(o: LoadOutcome): (r: Result<Option<Assembly>, Failure>)
    ensures r == Success(None) <==> o.NotFound? || o.Conflict?
    ensures r.Success? && r.value.Some? <==> o.Loaded?
    ensures o.Loaded? ==> r.value.value == o.assembly
    ensures o.Faulted? ==> r == Failure(LoadFault(o.cause))
    ensures r.Failure? ==> o.Faulted?
  {
    match o
    case Loaded(a) => Success(Some(a))
    case NotFound => Success(None)
    case Conflict => Success(None)
    case Faulted(cause) => Failure(LoadFault(cause))
  }

  /** A load result whose assembly, if any, references only names of `names`. */
  predicate Within(r: Result<Option<Assembly>, Failure>, names: set<string>) {
    r.Success? && r.value.Some? ==> RefsWithin(r.value.value.refs, names)
  }

  /** A load outcome that ends the fallback chain: an assembly or a propagating failure. */
  predicate Decisive(r: Result<Option<Assembly>, Failure>) {
    r.Failure? || r.value.Some?
  }

  predicate Swallowed(o: LoadOutcome) {
    o.NotFound? || o.Conflict?
  }

  /** One load attempt the resolver can make. */
  datatype Attempt = ByFullName(fullName: string) | ByIdentity(reference: AssemblyName) | FromPath(path: string)

  function Probe(host: Host, a: Attempt): LoadOutcome {
    match a
    case ByFullName(s) => host.byFullName(s)
    case ByIdentity(r) => host.byIdentity(r)
    case FromPath(p) => host.fromPath(p)
  }

  /** The reference semantics of an ordered fallback chain: each attempt is
      made only when every earlier one was swallowed. */
  ghost function Chain(host: Host, attempts: seq<Attempt>): Result<Option<Assembly>, Failure>
    decreases |attempts|
  {
    if attempts == [] then Success(None)
    else
      var r := Absorb(Probe(host, attempts[0]));
      if Decisive(r) then r else Chain(host, attempts[1..])
  }

  lemma ChainCons(host: Host, a: Attempt, rest: seq<Attempt>)
    ensures Chain(host, [a] + rest)
         == if Decisive(Absorb(Probe(host, a))) then Absorb(Probe(host, a)) else Chain(host, rest)
  {
    assert ([a] + rest)[1..] == rest;
  }

  /** Attempt `i` is the first whose outcome is not swallowed. */
  ghost predicate DecidedAt(host: Host, attempts: seq<Attempt>, i: int) {
    && 0 <= i < |attempts|
    && !Swallowed(Probe(host, attempts[i]))
    && forall j :: 0 <= j < i ==> Swallowed(Probe(host, attempts[j]))
  }

  /** The chain, stated without recursion: the first attempt that is not
      swallowed decides, and if every attempt is swallowed the result is null. */
  lemma {:induction false} ChainDecidedByFirst(host: Host, attempts: seq<Attempt>, i: int)
    requires DecidedAt(host, attempts, i)
    ensures Chain(host, attempts) == Absorb(Probe(host, attempts[i]))
    decreases |attempts|
  {
    if i > 0 {
      assert DecidedAt(host, attempts[1..], i - 1) by {
        forall j | 0 <= j < i - 1
          ensures Swallowed(Probe(host, attempts[1..][j]))
        {
          assert attempts[1..][j] == attempts[j + 1];
        }
      }
      ChainDecidedByFirst(host, attempts[1..], i - 1);
    }
  }

  lemma {:induction false} ChainAllSwallowed(host: Host, attempts: seq<Attempt>)
    requires forall i :: 0 <= i < |attempts| ==> Swallowed(Probe(host, attempts[i]))
    ensures Chain(host, attempts) == Success(None)
    decreases |attempts|
  {
    if attempts != [] {
      assert Swallowed(Probe(host, attempts[0]));
      assert forall i :: 0 <= i < |attempts| - 1 ==> attempts[1..][i] == attempts[i + 1];
      ChainAllSwallowed(host, attempts[1..]);
    }
  }

  /** `TryLoad`: `Assembly.Load(FullName)`, then `Assembly.Load(AssemblyName)`. */
  function TryLoad(host: Host, reference: AssemblyName): (r: Result<Option<Assembly>, Failure>)
    ensures Closed(host) ==> Within(r, host.universe)
  {
    var first := Absorb(host.byFullName(reference.fullName));
    if Decisive(first) then first
    else Absorb(host.byIdentity(reference))
  }

  function DiskAttempts(basePath: string, extensions: seq<string>): (attempts: seq<Attempt>)
    ensures |attempts| == |extensions|
    ensures forall i :: 0 <= i < |extensions| ==> attempts[i] == FromPath(basePath + extensions[i])
  {
    seq(|extensions|, i requires 0 <= i < |extensions| => FromPath(basePath + extensions[i]))
  }

  /** `TryLoadFrom`: `Assembly.LoadFrom(basePath + ext)` for each extension in
      order, first assembly wins. */
  function TryLoadFrom(host: Host, basePath: string, extensions: seq<string>): (r: Result<Option<Assembly>, Failure>)
    ensures Closed(host) ==> Within(r, host.universe)
    decreases |extensions|
  {
    if extensions == [] then Success(None)
    else
      var loaded := Absorb(host.fromPath(basePath + extensions[0]));
      if Decisive(loaded) then loaded
      else TryLoadFrom(host, basePath, extensions[1..])
  }

  /** Every attempt `LoadReferencedAssembly` may make, in the order it makes them. */
  function LoadAttempts(reference: AssemblyName, codeBaseFolder: string): seq<Attempt> {
    [ByFullName(reference.fullName), ByIdentity(reference)]
      + DiskAttempts(Combine(codeBaseFolder, reference.name), ResolvingExtensions)
  }

  /** `LoadReferencedAssembly`: `TryLoad`, then `TryLoadFrom` next to the
      referencing assembly. Whatever it loads stays inside the host's universe. */
  function LoadReferenced(host: Host, reference: AssemblyName, codeBaseFolder: string): (r: Result<Option<Assembly>, Failure>)
    ensures Closed(host) ==> Within(r, host.universe)
  {
    var byName := TryLoad(host, reference);
    if Decisive(byName) then byName
    else TryLoadFrom(host, Combine(codeBaseFolder, reference.name), ResolvingExtensions)
  }

  /** `TryLoad` is the two-attempt chain: full-name string first, structured identity second. */
  lemma TryLoadIsChain(host: Host, reference: AssemblyName)
    ensures TryLoad(host, reference) == Chain(host, [ByFullName(reference.fullName), ByIdentity(reference)])
  {
    ChainCons(host, ByFullName(reference.fullName), [ByIdentity(reference)]);
    ChainCons(host, ByIdentity(reference), []);
    assert [ByFullName(reference.fullName), ByIdentity(reference)] == [ByFullName(reference.fullName)] + [ByIdentity(reference)];
  }

  /** `TryLoadFrom` is the chain of one disk attempt per extension, in order. */
  lemma {:induction false} TryLoadFromIsChain(host: Host, basePath: string, extensions: seq<string>)
    ensures TryLoadFrom(host, basePath, extensions) == Chain(host, DiskAttempts(basePath, extensions))
    decreases |extensions|
  {
    if extensions != [] {
      assert DiskAttempts(basePath, extensions)
          == [FromPath(basePath + extensions[0])] + DiskAttempts(basePath, extensions[1..]);
      ChainCons(host, FromPath(basePath + extensions[0]), DiskAttempts(basePath, extensions[1..]));
      TryLoadFromIsChain(host, basePath, extensions[1..]);
    }
  }

  /** `LoadReferencedAssembly` is the four-attempt chain of `LoadAttempts`. */
  lemma LoadReferencedIsChain(host: Host, reference: AssemblyName, codeBaseFolder: string)
    ensures LoadReferenced(host, reference, codeBaseFolder) == Chain(host, LoadAttempts(reference, codeBaseFolder))
  {
    var disk := DiskAttempts(Combine(codeBaseFolder, reference.name), ResolvingExtensions);
    assert LoadAttempts(reference, codeBaseFolder) == [ByFullName(reference.fullName)] + ([ByIdentity(reference)] + disk);
    ChainCons(host, ByFullName(reference.fullName), [ByIdentity(reference)] + disk);
    ChainCons(host, ByIdentity(reference), disk);
    TryLoadFromIsChain(host, Combine(codeBaseFolder, reference.name), ResolvingExtensions);
  }

  /** The fallback order in declarative form: the first of full-name load,
      identity load, `.dll`, `.exe` that is not swallowed decides the result;
      if all four are swallowed the reference is skipped as null. */
  lemma LoadReferencedOrder(host: Host, reference: AssemblyName, codeBaseFolder: string)
    ensures forall i :: DecidedAt(host, LoadAttempts(reference, codeBaseFolder), i) ==>
      LoadReferenced(host, reference, codeBaseFolder) == Absorb(Probe(host, LoadAttempts(reference, codeBaseFolder)[i]))
    ensures (forall i :: 0 <= i < |LoadAttempts(reference, codeBaseFolder)| ==>
               Swallowed(Probe(host, LoadAttempts(reference, codeBaseFolder)[i])))
            ==> LoadReferenced(host, reference, codeBaseFolder) == Success(None)
  {
    var attempts := LoadAttempts(reference, codeBaseFolder);
    LoadReferencedIsChain(host, reference, codeBaseFolder);
    forall i | DecidedAt(host, attempts, i)
      ensures LoadReferenced(host, reference, codeBaseFolder) == Absorb(Probe(host, attempts[i]))
    {
      ChainDecidedByFirst(host, attempts, i);
    }
    if forall i :: 0 <= i < |attempts| ==> Swallowed(Probe(host, attempts[i])) {
      ChainAllSwallowed(host, attempts);
    }
  }

  /** The disk is consulted only when both identity loads come back empty:
      otherwise replacing the host's `LoadFrom` changes nothing. */
  lemma DiskOnlyAfterIdentityMisses(host: Host, other: string -> LoadOutcome, reference: AssemblyName, codeBaseFolder: string)
    requires !(Swallowed(host.byFullName(reference.fullName)) && Swallowed(host.byIdentity(reference)))
    ensures LoadReferenced(host, reference, codeBaseFolder) == LoadReferenced(host.(fromPath := other), reference, codeBaseFolder)
  {
  }

  /** On disk, `.dll` is tried before `.exe`: an assembly at the `.dll` path is
      returned whatever lies at the `.exe` path. */
  lemma DllBeforeExe(host: Host, reference: AssemblyName, codeBaseFolder: string)
    requires Swallowed(host.byFullName(reference.fullName)) && Swallowed(host.byIdentity(reference))
    requires host.fromPath(Combine(codeBaseFolder, reference.name) + ".dll").Loaded?
    ensures LoadReferenced(host, reference, codeBaseFolder)
         == Success(Some(host.fromPath(Combine(codeBaseFolder, reference.name) + ".dll").assembly))
  {
    var attempts := LoadAttempts(reference, codeBaseFolder);
    LoadReferencedIsChain(host, reference, codeBaseFolder);
    assert attempts[2] == FromPath(Combine(codeBaseFolder, reference.name) + ".dll");
    assert DecidedAt(host, attempts, 2);
    ChainDecidedByFirst(host, attempts, 2);
  }

  /** What the graph walks see of the host: the finite name universe and the
      layered loader, called with a reference and the referencing assembly's
      folder. */
  datatype Env = Env(universe: set<string>, load: (AssemblyName, string) -> Result<Option<Assembly>, Failure>)

  /** Every assembly the loader can return references only names of the universe. */
  ghost predicate LoadsWithin(env: Env) {
    forall reference, folder :: Within(env.load(reference, folder), env.universe)
  }

  /** The environment of a host: its universe and `LoadReferencedAssembly`. */
  function HostEnv(host: Host): (env: Env)
    ensures Closed(host) ==> LoadsWithin(env)
    ensures env.universe == host.universe
    ensures forall reference, folder :: env.load(reference, folder) == LoadReferenced(host, reference, folder)
  {
    Env(host.universe, (reference, folder) => LoadReferenced(host, reference, folder))
  }
}
