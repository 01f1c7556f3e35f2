/** The installed packages a code step may use (apps/code-runner/src/process/packages.ts). */
module Packages {
  import opened Wrappers

  /** Path segments; [] is the root of the file system. */
  type Path = seq<string>

  datatype Manifest = Manifest(name: Option<string>, dependencies: seq<string>, optionalDependencies: seq<string>)

  /** Reading package.json in a directory. */
  datatype Reading = Missing | Unreadable | Read(manifest: Manifest)

  /** Where a name is resolved from: this module, or a package's own directory. */
  datatype From = Runner | PackageAt(root: Path)

  /** The machine: what Node resolves a name to, the files, the places a name would be searched at,
      and where links lead. */
  datatype Host = Host(
    isBuiltin: string -> bool,
    resolve: (From, string) -> Option<Path>,
    packageJson: Path -> Reading,
    aliases: (From, string) -> seq<Path>,
    realpath: Path -> Option<Path>)

  datatype Item = Item(name: string, from: From, optional: bool, allowed: bool)

  datatype Failure = IsBuiltin | NotInstalled | NoManifest | BadManifest

  datatype Lookup = Skipped | Failed(failure: Failure) | Found(root: Path, manifest: Manifest)

  datatype ModulePolicy = ModulePolicy(packages: seq<string>, roots: set<Path>, readPaths: set<Path>)

  datatype Result = Ok(policy: ModulePolicy) | Err(failure: Failure)

  // ----- One package -----

  function Dirname(p: Path): Path { if p == [] then [] else p[..|p| - 1] }

  predicate Claims(h: Host, dir: Path, name: string) {
    h.packageJson(dir).Read? && h.packageJson(dir).manifest.name == Some(name)
  }

  /** The nearest directory at or above `dir` that claims the name, unless an unreadable
      package.json lies between. */
  function ManifestAbove(h: Host, dir: Path, name: string): Lookup
    decreases |dir|
  {
    if Claims(h, dir, name) then Found(dir, h.packageJson(dir).manifest)
    else if h.packageJson(dir) == Unreadable then Failed(BadManifest)
    else if dir == [] then Failed(NoManifest)
    else ManifestAbove(h, Dirname(dir), name)
  }

  lemma {:induction false} ManifestIsNearest(h: Host, dir: Path, name: string)
    ensures var r := ManifestAbove(h, dir, name);
            && (r.Found? ==>
                  && r.root <= dir && Claims(h, r.root, name) && r.manifest == h.packageJson(r.root).manifest
                  && forall n :: |r.root| < n <= |dir| ==>
                       !Claims(h, dir[..n], name) && h.packageJson(dir[..n]) != Unreadable)
            && (r == Failed(NoManifest) <==>
                  forall n :: 0 <= n <= |dir| ==> !Claims(h, dir[..n], name) && h.packageJson(dir[..n]) != Unreadable)
            && !r.Skipped?
    decreases |dir|
  {
    assert dir[..|dir|] == dir;
    if dir != [] && !Claims(h, dir, name) && h.packageJson(dir) != Unreadable {
      var up := Dirname(dir);
      ManifestIsNearest(h, up, name);
      assert forall n :: 0 <= n <= |up| ==> up[..n] == dir[..n];
    }
  }

  method FindPackageManifest(h: Host, entry: Path, name: string) returns (r: Lookup)
    ensures r == ManifestAbove(h, Dirname(entry), name)
  {
    var root := Dirname(entry);
    while true
      invariant ManifestAbove(h, root, name) == ManifestAbove(h, Dirname(entry), name)
      decreases |root|
    {
      var candidate := h.packageJson(root);
      if candidate.Unreadable? {
        return Failed(BadManifest);
      }
      if candidate.Read? && candidate.manifest.name == Some(name) {
        return Found(root, candidate.manifest);
      }
      if root == [] {
        return Failed(NoManifest);
      }
      root := Dirname(root);
    }
  }

  /** What the loop makes of one queue item. */
  function LookUp(h: Host, item: Item): Lookup {
    if h.isBuiltin(item.name) then Failed(IsBuiltin)
    else
      match h.resolve(item.from, item.name)
      case None => if item.optional then Skipped else Failed(NotInstalled)
      case Some(entry) => ManifestAbove(h, Dirname(entry), item.name)
  }

  function Items(names: seq<string>, from: From, optional: bool, allowed: bool): seq<Item> {
    seq(|names|, i requires 0 <= i < |names| => Item(names[i], from, optional, allowed))
  }

  function Dependencies(root: Path, manifest: Manifest, allowed: bool): seq<Item> {
    Items(manifest.dependencies, PackageAt(root), false, allowed)
    + Items(manifest.optionalDependencies, PackageAt(root), true, allowed)
  }

  // ----- What is reached -----

  const NODE_SDK := "@pertexo/node-sdk"

  function Seeds(packages: seq<string>): seq<Item> {
    Items(packages, Runner, false, true) + [Item(NODE_SDK, Runner, false, false)]
  }

  function Children(h: Host, item: Item): seq<Item> {
    match LookUp(h, item)
    case Found(root, manifest) => Dependencies(root, manifest, item.allowed)
    case _ => []
  }

  /** Why an item fails the whole call: an optional package that is not installed does not. */
  predicate FailsAs(h: Host, item: Item, failure: Failure) {
    var entry := h.resolve(item.from, item.name);
    match failure
    case IsBuiltin => h.isBuiltin(item.name)
    case NotInstalled => !h.isBuiltin(item.name) && entry.None? && !item.optional
    case _ => !h.isBuiltin(item.name) && entry.Some? && ManifestAbove(h, Dirname(entry.value), item.name) == Failed(failure)
  }

  lemma FailsExactlyWhen(h: Host, item: Item, failure: Failure)
    ensures LookUp(h, item) == Failed(failure) <==> FailsAs(h, item, failure)
  {
    if h.resolve(item.from, item.name).Some? {
      OnlyManifestFailures(h, Dirname(h.resolve(item.from, item.name).value), item.name);
    }
  }

  lemma {:induction false} OnlyManifestFailures(h: Host, dir: Path, name: string)
    ensures var r := ManifestAbove(h, dir, name);
            r == Failed(NoManifest) || r == Failed(BadManifest) || r.Found?
    decreases |dir|
  {
    if dir != [] {
      OnlyManifestFailures(h, Dirname(dir), name);
    }
  }

  lemma ItemIs(names: seq<string>, from: From, optional: bool, allowed: bool, item: Item)
    ensures item in Items(names, from, optional, allowed) <==>
            item.name in names && item.from == from && item.optional == optional && item.allowed == allowed
  {
    if item.name in names && item == Item(item.name, from, optional, allowed) {
      var i :| 0 <= i < |names| && names[i] == item.name;
      assert Items(names, from, optional, allowed)[i] == item;
    }
  }

  /** The dependencies are required and the optional dependencies optional; both are resolved from the
      package that names them and inherit its permission. */
  lemma ChildIs(h: Host, item: Item, child: Item)
    ensures child in Children(h, item) <==>
            && LookUp(h, item).Found?
            && child.from == PackageAt(LookUp(h, item).root) && child.allowed == item.allowed
            && child.name in (if child.optional then LookUp(h, item).manifest.optionalDependencies
                              else LookUp(h, item).manifest.dependencies)
  {
    hide Items, LookUp;
    match LookUp(h, item)
    case Found(root, manifest) =>
      ItemIs(manifest.dependencies, PackageAt(root), false, item.allowed, child);
      ItemIs(manifest.optionalDependencies, PackageAt(root), true, item.allowed, child);
    case _ =>
  }

  /** It starts with the requested packages, to be used, and the SDK, to be read only. */
  lemma SeedIs(packages: seq<string>, item: Item)
    ensures item in Seeds(packages) <==>
            item.from == Runner && !item.optional
            && (if item.allowed then item.name in packages else item.name == NODE_SDK)
  {
    hide Items;
    ItemIs(packages, Runner, false, true, item);
  }

  /** From a seed, each item a dependency of the package before. */
  ghost predicate IsChain(h: Host, seeds: seq<Item>, chain: seq<Item>) {
    && chain != []
    && chain[0] in seeds
    && forall i :: 0 <= i < |chain| - 1 ==> chain[i + 1] in Children(h, chain[i])
  }

  ghost predicate Reached(h: Host, seeds: seq<Item>, item: Item) {
    exists chain :: IsChain(h, seeds, chain) && chain[|chain| - 1] == item
  }

  lemma SeedIsReached(h: Host, seeds: seq<Item>, item: Item)
    requires item in seeds
    ensures Reached(h, seeds, item)
  {
    assert IsChain(h, seeds, [item]);
  }

  lemma ChildIsReached(h: Host, seeds: seq<Item>, item: Item, child: Item)
    requires Reached(h, seeds, item) && child in Children(h, item)
    ensures Reached(h, seeds, child)
  {
    hide Children;
    var chain :| IsChain(h, seeds, chain) && chain[|chain| - 1] == item;
    var longer := chain + [child];
    forall i | 0 <= i < |longer| - 1
      ensures longer[i + 1] in Children(h, longer[i])
    {
      assert longer[i] == chain[i];
    }
    assert longer[0] == chain[0] && longer[|longer| - 1] == child;
    assert IsChain(h, seeds, longer);
  }

  /** A set of items with the seeds in it, closed under dependencies, holds everything reached. */
  lemma {:induction false} ClosedHoldsReached(h: Host, seeds: seq<Item>, queue: seq<Item>, chain: seq<Item>)
    requires IsChain(h, seeds, chain)
    requires forall i :: i in seeds ==> i in queue
    requires forall i, c :: i in queue && c in Children(h, i) ==> c in queue
    ensures chain[|chain| - 1] in queue
    decreases |chain|
  {
    if |chain| > 1 {
      var front := chain[..|chain| - 1];
      assert IsChain(h, seeds, front);
      ClosedHoldsReached(h, seeds, queue, front);
    }
  }

  ghost predicate IsAllowedRoot(h: Host, seeds: seq<Item>, p: Path) {
    exists i :: Reached(h, seeds, i) && i.allowed && LookUp(h, i).Found? && LookUp(h, i).root == p
  }

  /** The package's directory, and every searched place that is a link to it. */
  predicate Reads(h: Host, item: Item, p: Path) {
    && LookUp(h, item).Found?
    && (p == LookUp(h, item).root
        || (p in h.aliases(item.from, item.name) && h.realpath(p) == Some(LookUp(h, item).root)))
  }

  ghost predicate IsReadPath(h: Host, seeds: seq<Item>, p: Path) {
    exists i :: Reached(h, seeds, i) && Reads(h, i, p)
  }

  // ----- The worklist -----

  /** The directories that can hold a package: the file system is finite. */
  ghost predicate Installed(h: Host, directories: set<Path>) {
    forall p :: h.packageJson(p).Read? ==> p in directories
  }

  lemma {:induction false} FoundIsRead(h: Host, dir: Path, name: string)
    ensures var r := ManifestAbove(h, dir, name);
            r.Found? ==> h.packageJson(r.root) == Read(r.manifest)
    decreases |dir|
  {
    if dir != [] {
      FoundIsRead(h, Dirname(dir), name);
    }
  }

  /** A package's dependencies follow from its directory alone. */
  lemma ChildrenOfRoot(h: Host, item: Item)
    requires LookUp(h, item).Found?
    ensures h.packageJson(LookUp(h, item).root).Read?
    ensures Children(h, item)
         == Dependencies(LookUp(h, item).root, h.packageJson(LookUp(h, item).root).manifest, item.allowed)
  {
    var entry := h.resolve(item.from, item.name).value;
    FoundIsRead(h, Dirname(entry), item.name);
  }

  ghost function Keys(directories: set<Path>): set<(Path, bool)> {
    set p, a | p in directories && a in {false, true} :: (p, a)
  }

  /** What the loop has established about the part of the queue it has taken. */
  ghost predicate Progress(h: Host, seeds: seq<Item>, queue: seq<Item>, index: nat,
                           roots: set<Path>, paths: set<Path>, visited: set<(Path, bool)>) {
    && index <= |queue|
    && seeds <= queue
    && AllReached(h, seeds, queue)
    && AllTaken(h, queue[..index], roots, paths, visited)
    && (forall p :: p in roots ==> IsAllowedRoot(h, seeds, p))
    && (forall p :: p in paths ==> IsReadPath(h, seeds, p))
    && AllExpanded(h, queue, visited)
  }

  ghost predicate AllReached(h: Host, seeds: seq<Item>, queue: seq<Item>) {
    forall i :: i in queue ==> Reached(h, seeds, i)
  }

  ghost predicate AllTaken(h: Host, taken: seq<Item>, roots: set<Path>, paths: set<Path>, visited: set<(Path, bool)>) {
    forall i :: i in taken ==> Taken(h, i, roots, paths, visited)
  }

  ghost predicate AllExpanded(h: Host, queue: seq<Item>, visited: set<(Path, bool)>) {
    forall p, a :: (p, a) in visited ==> Expanded(h, queue, p, a)
  }

  ghost predicate Taken(h: Host, item: Item, roots: set<Path>, paths: set<Path>, visited: set<(Path, bool)>) {
    var r := LookUp(h, item);
    && !r.Failed?
    && (r.Found? ==>
          && (r.root, item.allowed) in visited
          && (item.allowed ==> r.root in roots)
          && forall p :: Reads(h, item, p) ==> p in paths)
  }

  /** All dependencies of the package are on the queue. */
  ghost predicate Expanded(h: Host, queue: seq<Item>, root: Path, allowed: bool) {
    && h.packageJson(root).Read?
    && forall c :: c in Dependencies(root, h.packageJson(root).manifest, allowed) ==> c in queue
  }

  /** The finished worklist holds exactly what is reached. */
  lemma FinishedIsExact(h: Host, seeds: seq<Item>, queue: seq<Item>,
                        roots: set<Path>, paths: set<Path>, visited: set<(Path, bool)>)
    requires Progress(h, seeds, queue, |queue|, roots, paths, visited)
    ensures forall i :: Reached(h, seeds, i) <==> i in queue
    ensures forall i :: Reached(h, seeds, i) ==> !LookUp(h, i).Failed?
    ensures forall p :: p in roots <==> IsAllowedRoot(h, seeds, p)
    ensures forall p :: p in paths <==> IsReadPath(h, seeds, p)
  {
    forall i, c | i in queue && c in Children(h, i)
      ensures c in queue
    {
      var k :| 0 <= k < |queue| && queue[k] == i;
      assert Taken(h, queue[k], roots, paths, visited);
      ChildrenOfRoot(h, i);
      assert Expanded(h, queue, LookUp(h, i).root, i.allowed);
    }
    forall i | Reached(h, seeds, i)
      ensures i in queue && Taken(h, i, roots, paths, visited)
    {
      var chain :| IsChain(h, seeds, chain) && chain[|chain| - 1] == i;
      ClosedHoldsReached(h, seeds, queue, chain);
      var k :| 0 <= k < |queue| && queue[k] == i;
      assert Taken(h, queue[k], roots, paths, visited);
    }
  }

  /** The searched places that are links to the package. */
  method AddAliases(h: Host, item: Item, root: Path, before: set<Path>) returns (paths: set<Path>)
    requires LookUp(h, item).Found? && LookUp(h, item).root == root && root in before
    ensures forall p :: p in paths <==> p in before || Reads(h, item, p)
  {
    paths := before;
    var searched := h.aliases(item.from, item.name);
    for i := 0 to |searched|
      invariant before <= paths
      invariant forall p :: p in paths ==> p in before || Reads(h, item, p)
      invariant forall j :: 0 <= j < i && h.realpath(searched[j]) == Some(root) ==> searched[j] in paths
    {
      if h.realpath(searched[i]) == Some(root) {
        paths := paths + {searched[i]};
      }
    }
  }

  lemma TakenKeeps(h: Host, taken: seq<Item>, item: Item, root: Path,
                   roots: set<Path>, paths: set<Path>, visited: set<(Path, bool)>,
                   roots': set<Path>, paths': set<Path>, visited': set<(Path, bool)>)
    requires AllTaken(h, taken, roots, paths, visited)
    requires roots <= roots' && paths <= paths' && visited <= visited'
    requires LookUp(h, item).Found? && LookUp(h, item).root == root
    requires (root, item.allowed) in visited' && (item.allowed ==> root in roots')
    requires forall p :: Reads(h, item, p) ==> p in paths'
    ensures AllTaken(h, taken + [item], roots', paths', visited')
  {
    hide LookUp, Reads;
    forall i | i in taken
      ensures Taken(h, i, roots', paths', visited')
    {
      assert Taken(h, i, roots, paths, visited);
    }
  }

  /** A turn that found the package again. */
  lemma RepeatKeeps(h: Host, seeds: seq<Item>, queue: seq<Item>, index: nat,
                    roots: set<Path>, paths: set<Path>, visited: set<(Path, bool)>,
                    root: Path, roots': set<Path>, paths': set<Path>)
    requires Progress(h, seeds, queue, index, roots, paths, visited) && index < |queue|
    requires LookUp(h, queue[index]).Found? && LookUp(h, queue[index]).root == root
    requires forall p :: p in paths' <==> p in paths || Reads(h, queue[index], p)
    requires roots' == if queue[index].allowed then roots + {root} else roots
    requires (root, queue[index].allowed) in visited
    ensures Progress(h, seeds, queue, index + 1, roots', paths', visited)
  {
    hide LookUp, Reads, AllTaken, AllExpanded, Reached, IsAllowedRoot, IsReadPath;
    var item := queue[index];
    assert queue[..index + 1] == queue[..index] + [item];
    TakenKeeps(h, queue[..index], item, root, roots, paths, visited, roots', paths', visited);
    RootsKeep(h, seeds, queue, index, roots, paths, visited, root, paths');
  }

  /** A turn that found a new package. */
  lemma ExpandKeeps(h: Host, seeds: seq<Item>, queue: seq<Item>, index: nat,
                    roots: set<Path>, paths: set<Path>, visited: set<(Path, bool)>,
                    root: Path)
    requires Progress(h, seeds, queue, index, roots, paths, visited) && index < |queue|
    requires LookUp(h, queue[index]).Found? && LookUp(h, queue[index]).root == root
    ensures AllReached(h, seeds, queue + Children(h, queue[index]))
    ensures AllExpanded(h, queue + Children(h, queue[index]), visited + {(root, queue[index].allowed)})
  {
    hide LookUp, AllTaken, Reached, IsAllowedRoot, IsReadPath;
    var item := queue[index];
    var longer := queue + Children(h, item);
    assert item in queue && Reached(h, seeds, item);
    forall c | c in Children(h, item)
      ensures Reached(h, seeds, c)
    {
      ChildIsReached(h, seeds, item, c);
    }
    ChildrenOfRoot(h, item);
    assert Expanded(h, longer, root, item.allowed);
    forall p, a | (p, a) in visited
      ensures Expanded(h, longer, p, a)
    {
      assert Expanded(h, queue, p, a);
    }
  }

  lemma NewKeeps(h: Host, seeds: seq<Item>, queue: seq<Item>, index: nat,
                 roots: set<Path>, paths: set<Path>, visited: set<(Path, bool)>,
                 root: Path, roots': set<Path>, paths': set<Path>)
    requires Progress(h, seeds, queue, index, roots, paths, visited) && index < |queue|
    requires LookUp(h, queue[index]).Found? && LookUp(h, queue[index]).root == root
    requires forall p :: p in paths' <==> p in paths || Reads(h, queue[index], p)
    requires roots' == if queue[index].allowed then roots + {root} else roots
    ensures Progress(h, seeds, queue + Children(h, queue[index]), index + 1, roots', paths',
                     visited + {(root, queue[index].allowed)})
  {
    var item, more, visited' := queue[index], Children(h, queue[index]), visited + {(root, queue[index].allowed)};
    ExpandKeeps(h, seeds, queue, index, roots, paths, visited, root);
    RootsKeep(h, seeds, queue, index, roots, paths, visited, root, paths');
    hide LookUp, Reads, AllTaken, AllExpanded, AllReached, Reached, Children, IsAllowedRoot, IsReadPath;
    LongerQueue(seeds, queue, more, index);
    TakenKeeps(h, queue[..index], item, root, roots, paths, visited, roots', paths', visited');
  }

  lemma LongerQueue(seeds: seq<Item>, queue: seq<Item>, more: seq<Item>, index: nat)
    requires index < |queue| && seeds <= queue
    ensures seeds <= queue + more && index + 1 <= |queue + more|
    ensures (queue + more)[..index + 1] == queue[..index] + [queue[index]]
  {
  }

  lemma RootsKeep(h: Host, seeds: seq<Item>, queue: seq<Item>, index: nat,
                  roots: set<Path>, paths: set<Path>, visited: set<(Path, bool)>,
                  root: Path, paths': set<Path>)
    requires Progress(h, seeds, queue, index, roots, paths, visited) && index < |queue|
    requires LookUp(h, queue[index]).Found? && LookUp(h, queue[index]).root == root
    requires forall p :: p in paths' <==> p in paths || Reads(h, queue[index], p)
    ensures queue[index].allowed ==> IsAllowedRoot(h, seeds, root)
    ensures forall p :: p in paths' ==> IsReadPath(h, seeds, p)
  {
    hide LookUp, Reads, AllTaken, AllExpanded, Reached;
    QueueIsReached(h, seeds, queue, index, roots, paths, visited);
  }

  lemma SkipKeeps(h: Host, seeds: seq<Item>, queue: seq<Item>, index: nat,
                  roots: set<Path>, paths: set<Path>, visited: set<(Path, bool)>)
    requires Progress(h, seeds, queue, index, roots, paths, visited) && index < |queue|
    requires LookUp(h, queue[index]) == Skipped
    ensures Progress(h, seeds, queue, index + 1, roots, paths, visited)
  {
    assert queue[..index + 1] == queue[..index] + [queue[index]];
  }

  lemma StartProgress(h: Host, seeds: seq<Item>)
    ensures Progress(h, seeds, seeds, 0, {}, {}, {})
  {
    forall i | 0 <= i < |seeds|
      ensures Reached(h, seeds, seeds[i])
    {
      SeedIsReached(h, seeds, seeds[i]);
    }
  }

  lemma FewerUnvisited(h: Host, directories: set<Path>, visited: set<(Path, bool)>, root: Path, allowed: bool)
    requires Installed(h, directories) && h.packageJson(root).Read? && (root, allowed) !in visited
    ensures |Keys(directories) - (visited + {(root, allowed)})| < |Keys(directories) - visited|
  {
    var left, k := Keys(directories) - visited, (root, allowed);
    assert k in left;
    assert Keys(directories) - (visited + {k}) == left - {k};
  }

  /** The names, each once. */
  function Distinct(names: seq<string>): (r: seq<string>)
    ensures forall n :: n in r <==> n in names
    ensures forall i, j :: 0 <= i < j < |r| ==> r[i] != r[j]
  {
    if names == [] then []
    else
      var front, last := Distinct(names[..|names| - 1]), names[|names| - 1];
      assert names == names[..|names| - 1] + [last];
      if last in front then front else front + [last]
  }

  /** In the order of their first mention: what comes later never moves what is there. */
  lemma {:induction false} DistinctGrows(names: seq<string>, more: seq<string>)
    ensures Distinct(names) <= Distinct(names + more)
    decreases |more|
  {
    if more == [] {
      assert names + more == names;
    } else {
      var front := more[..|more| - 1];
      DistinctGrows(names, front);
      assert (names + more)[..|names + more| - 1] == names + front;
    }
  }

  const DEFAULT_PACKAGES := ["lodash", "dayjs"]

  /** The name resolves from there to a package that may be read and, if it is allowed, used. */
  predicate Provided(h: Host, policy: ModulePolicy, from: From, name: string, allowed: bool) {
    && !h.isBuiltin(name)
    && h.resolve(from, name).Some?
    && var r := ManifestAbove(h, Dirname(h.resolve(from, name).value), name);
       r.Found? && r.root in policy.readPaths && (allowed ==> r.root in policy.roots)
  }

  /** Everything that the package's manifest names is provided, but for optional packages that are not
      installed. */
  predicate Supplied(h: Host, policy: ModulePolicy, root: Path, manifest: Manifest, allowed: bool) {
    && (forall d :: d in manifest.dependencies ==> Provided(h, policy, PackageAt(root), d, allowed))
    && (forall d :: d in manifest.optionalDependencies ==>
          (!h.isBuiltin(d) && h.resolve(PackageAt(root), d).None?) || Provided(h, policy, PackageAt(root), d, allowed))
  }

  /** A policy that works: what was asked for is there, and so is what that needs, all the way down. */
  ghost predicate IsComplete(h: Host, policy: ModulePolicy, seeds: seq<Item>) {
    && (forall n :: n in policy.packages ==> Provided(h, policy, Runner, n, true))
    && Provided(h, policy, Runner, NODE_SDK, false)
    && (forall i :: Reached(h, seeds, i) && LookUp(h, i).Found? ==>
          Supplied(h, policy, LookUp(h, i).root, LookUp(h, i).manifest, i.allowed))
    && (forall root :: root in policy.roots ==>
          h.packageJson(root).Read? && Supplied(h, policy, root, h.packageJson(root).manifest, true))
  }

  lemma ReachedIsProvided(h: Host, seeds: seq<Item>, policy: ModulePolicy, item: Item)
    requires forall i :: Reached(h, seeds, i) ==> !LookUp(h, i).Failed?
    requires forall p :: p in policy.roots <==> IsAllowedRoot(h, seeds, p)
    requires forall p :: p in policy.readPaths <==> IsReadPath(h, seeds, p)
    requires Reached(h, seeds, item)
    ensures (!h.isBuiltin(item.name) && h.resolve(item.from, item.name).None? && item.optional)
            || Provided(h, policy, item.from, item.name, item.allowed)
  {
    hide Reached;
    if h.resolve(item.from, item.name).Some? {
      OnlyManifestFailures(h, Dirname(h.resolve(item.from, item.name).value), item.name);
    }
    if LookUp(h, item).Found? {
      assert Reads(h, item, LookUp(h, item).root);
    }
  }

  lemma ChildrenAreSupplied(h: Host, seeds: seq<Item>, policy: ModulePolicy, item: Item)
    requires forall i :: Reached(h, seeds, i) ==> !LookUp(h, i).Failed?
    requires forall p :: p in policy.roots <==> IsAllowedRoot(h, seeds, p)
    requires forall p :: p in policy.readPaths <==> IsReadPath(h, seeds, p)
    requires Reached(h, seeds, item) && LookUp(h, item).Found?
    ensures Supplied(h, policy, LookUp(h, item).root, LookUp(h, item).manifest, item.allowed)
  {
    hide Reached, LookUp, IsAllowedRoot, IsReadPath, Provided, Children;
    var root, manifest := LookUp(h, item).root, LookUp(h, item).manifest;
    forall d | d in manifest.dependencies
      ensures Provided(h, policy, PackageAt(root), d, item.allowed)
    {
      var child := Item(d, PackageAt(root), false, item.allowed);
      ChildIs(h, item, child);
      ChildIsReached(h, seeds, item, child);
      ReachedIsProvided(h, seeds, policy, child);
    }
    forall d | d in manifest.optionalDependencies
      ensures (!h.isBuiltin(d) && h.resolve(PackageAt(root), d).None?) || Provided(h, policy, PackageAt(root), d, item.allowed)
    {
      var child := Item(d, PackageAt(root), true, item.allowed);
      ChildIs(h, item, child);
      ChildIsReached(h, seeds, item, child);
      ReachedIsProvided(h, seeds, policy, child);
    }
  }

  lemma OkIsComplete(h: Host, policy: ModulePolicy)
    requires var seeds := Seeds(policy.packages);
             && (forall i :: Reached(h, seeds, i) ==> !LookUp(h, i).Failed?)
             && (forall p :: p in policy.roots <==> IsAllowedRoot(h, seeds, p))
             && (forall p :: p in policy.readPaths <==> IsReadPath(h, seeds, p))
    ensures IsComplete(h, policy, Seeds(policy.packages))
  {
    hide Reached, Seeds, IsReadPath, Provided, Supplied, LookUp;
    var seeds := Seeds(policy.packages);
    forall n | n in policy.packages
      ensures Provided(h, policy, Runner, n, true)
    {
      SeedIsProvided(h, policy, Item(n, Runner, false, true));
    }
    SeedIsProvided(h, policy, Item(NODE_SDK, Runner, false, false));
    forall i | Reached(h, seeds, i) && LookUp(h, i).Found?
      ensures Supplied(h, policy, LookUp(h, i).root, LookUp(h, i).manifest, i.allowed)
      ensures h.packageJson(LookUp(h, i).root) == Read(LookUp(h, i).manifest)
    {
      ChildrenAreSupplied(h, seeds, policy, i);
      FoundManifest(h, i);
    }
  }

  lemma FoundManifest(h: Host, item: Item)
    requires LookUp(h, item).Found?
    ensures h.packageJson(LookUp(h, item).root) == Read(LookUp(h, item).manifest)
  {
    FoundIsRead(h, Dirname(h.resolve(item.from, item.name).value), item.name);
  }

  lemma SeedIsProvided(h: Host, policy: ModulePolicy, item: Item)
    requires var seeds := Seeds(policy.packages);
             && (forall i :: Reached(h, seeds, i) ==> !LookUp(h, i).Failed?)
             && (forall p :: p in policy.roots <==> IsAllowedRoot(h, seeds, p))
             && (forall p :: p in policy.readPaths <==> IsReadPath(h, seeds, p))
    requires item.from == Runner && !item.optional
    requires if item.allowed then item.name in policy.packages else item.name == NODE_SDK
    ensures Provided(h, policy, Runner, item.name, item.allowed)
  {
    hide Reached, Seeds, IsReadPath, IsAllowedRoot, Provided, LookUp;
    SeedIs(policy.packages, item);
    SeedIsReached(h, Seeds(policy.packages), item);
    ReachedIsProvided(h, Seeds(policy.packages), policy, item);
  }

  /** Terminates on every finite installation, cyclic dependencies included. Succeeds exactly when
      nothing reached fails, and then names exactly the reached packages and their places. */
  method ResolveCodePackages(h: Host, extraPackages: seq<string>, ghost directories: set<Path>) returns (r: Result)
    requires Installed(h, directories)
    ensures var seeds := Seeds(Distinct(DEFAULT_PACKAGES + extraPackages));
            && (r.Ok? <==> forall i :: Reached(h, seeds, i) ==> !LookUp(h, i).Failed?)
            && (r.Ok? ==> forall p :: p in r.policy.roots <==> IsAllowedRoot(h, seeds, p))
            && (r.Ok? ==> forall p :: p in r.policy.readPaths <==> IsReadPath(h, seeds, p))
            && (r.Err? ==> exists i :: Reached(h, seeds, i) && FailsAs(h, i, r.failure))
            && (r.Ok? <==> forall i, failure :: Reached(h, seeds, i) ==> !FailsAs(h, i, failure))
            && (r.Ok? ==> IsComplete(h, r.policy, seeds))
    ensures r.Ok? ==> r.policy.packages == Distinct(DEFAULT_PACKAGES + extraPackages)
  {
    hide Progress, Reached, IsAllowedRoot, IsReadPath, Installed, IsComplete;
    var packages := Distinct(DEFAULT_PACKAGES + extraPackages);
    ghost var seeds := Seeds(packages);
    var queue := Seeds(packages);
    var roots: set<Path>, paths: set<Path>, visited: set<(Path, bool)> := {}, {}, {};
    var index := 0;
    StartProgress(h, seeds);
    while index < |queue|
      invariant index <= |queue|
      invariant Progress(h, seeds, queue, index, roots, paths, visited)
      decreases |Keys(directories) - visited|, |queue| - index
    {
      var item := queue[index];
      QueueIsReached(h, seeds, queue, index, roots, paths, visited);
      if h.isBuiltin(item.name) {
        assert FailsAs(h, item, IsBuiltin);
        FailsExactlyWhen(h, item, IsBuiltin);
        return Err(IsBuiltin);
      }
      var entry := h.resolve(item.from, item.name);
      if entry == None {
        if item.optional {
          SkipKeeps(h, seeds, queue, index, roots, paths, visited);
          index := index + 1;
          continue;
        }
        assert FailsAs(h, item, NotInstalled);
        FailsExactlyWhen(h, item, NotInstalled);
        return Err(NotInstalled);
      }
      var found := FindPackageManifest(h, entry.value, item.name);
      assert LookUp(h, item) == found;
      if found.Failed? {
        FailsExactlyWhen(h, item, found.failure);
        return Err(found.failure);
      }
      NeverSkipped(h, entry.value, item.name);
      var paths' := AddAliases(h, item, found.root, paths + {found.root});
      var roots' := if item.allowed then roots + {found.root} else roots;
      if (found.root, item.allowed) in visited {
        RepeatKeeps(h, seeds, queue, index, roots, paths, visited, found.root, roots', paths');
        roots, paths, index := roots', paths', index + 1;
        continue;
      }
      NewKeeps(h, seeds, queue, index, roots, paths, visited, found.root, roots', paths');
      roots, paths, index := roots', paths', index + 1;
      ChildrenOfRoot(h, item);
      FewerUnvisited(h, directories, visited, found.root, item.allowed);
      visited := visited + {(found.root, item.allowed)};
      queue := queue + Dependencies(found.root, found.manifest, item.allowed);
    }
    FinishedIsExact(h, seeds, queue, roots, paths, visited);
    forall i, failure | Reached(h, seeds, i)
      ensures !FailsAs(h, i, failure)
    {
      FailsExactlyWhen(h, i, failure);
    }
    OkIsComplete(h, ModulePolicy(packages, roots, paths));
    return Ok(ModulePolicy(packages, roots, paths));
  }

  lemma QueueIsReached(h: Host, seeds: seq<Item>, queue: seq<Item>, index: nat,
                       roots: set<Path>, paths: set<Path>, visited: set<(Path, bool)>)
    requires Progress(h, seeds, queue, index, roots, paths, visited) && index < |queue|
    ensures Reached(h, seeds, queue[index])
  {
  }

  lemma NeverSkipped(h: Host, entry: Path, name: string)
    ensures !ManifestAbove(h, Dirname(entry), name).Skipped?
  {
    ManifestIsNearest(h, Dirname(entry), name);
  }
}
