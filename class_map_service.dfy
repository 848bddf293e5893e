/** `Harmony\Services\ClassMapService::getClassMap`: the candidate class map of
    the project. Classes found in the psr-0 and then the psr-4 directories are
    claimed first-come first-served, each directory filtered by the
    namespace it is declared for; classes found in the classmap directories
    then overwrite whatever was there.

    Composer itself (its package map, `parseAutoloads`, `normalizePath`,
    `is_dir`, the current directory and the scanning part of
    `ClassMapGenerator::createMap`) is an input: the `Composer` record. */
module ClassMapService {
  import opened Wrappers
  import opened PhpStrings
  import opened PhpArrays

  const ModeAllClasses := 1
  const ModeApplicationClasses := 2
  const ModeDependenciesClasses := 3

  /** Class name to the file declaring it. */
  type ClassMap = OMap<string, string>
  /** One class found by `createMap`, with its file. */
  type Found = (string, string)

  datatype PsrType = Psr0 | Psr4

  /** An element of Composer's package map: a package and where it is installed. */
  datatype PackageEntry = PackageEntry(package: string, installPath: string)

  /** The parts of `parseAutoloads`' result that are read: for each psr type
      the namespaces with their directories, in order, and the classmap
      entries (already flattened, as the recursive iterator flattens them). */
  datatype Autoloads = Autoloads(
    psr0: seq<(string, seq<string>)>,
    psr4: seq<(string, seq<string>)>,
    classmap: seq<string>)
  {
    function Section(t: PsrType): seq<(string, seq<string>)> {
      match t
      case Psr0 => psr0
      case Psr4 => psr4
    }
  }

  /** What the code asks of Composer and of the file system. `scan(dir)` is
      what `ClassMapGenerator::createMap` finds under `dir` before any
      whitelist is applied. */
  datatype Composer = Composer(
    installed: seq<string>,
    buildPackageMap: seq<string> -> seq<PackageEntry>,
    parseAutoloads: seq<PackageEntry> -> Autoloads,
    basePath: string,
    isAbsolutePath: string -> bool,
    normalizePath: string -> string,
    isDir: string -> bool,
    scan: string -> seq<Found>)

  /** `array_shift`: the array without its first element. */
  function Shift<T>(s: seq<T>): (r: seq<T>)
    ensures s == [] ==> r == []
    ensures s != [] ==> s == [s[0]] + r
  {
    if s == [] then [] else s[1..]
  }

  /** The package map the autoloads are read from: the installed packages
      only in the "all" and "dependencies" modes, and without its first
      element (the root package) in the "dependencies" mode. */
  function PackageMapOf(c: Composer, mode: int): seq<PackageEntry> {
    var packages := if mode == ModeAllClasses || mode == ModeDependenciesClasses then c.installed else [];
    var packageMap := c.buildPackageMap(packages);
    if mode == ModeDependenciesClasses then Shift(packageMap) else packageMap
  }

  lemma PackageMapModes(c: Composer, mode: int)
    ensures mode == ModeAllClasses ==> PackageMapOf(c, mode) == c.buildPackageMap(c.installed)
    ensures mode != ModeAllClasses && mode != ModeDependenciesClasses ==>
      PackageMapOf(c, mode) == c.buildPackageMap([])
    ensures mode == ModeDependenciesClasses && c.buildPackageMap(c.installed) != [] ==>
      c.buildPackageMap(c.installed) == [c.buildPackageMap(c.installed)[0]] + PackageMapOf(c, mode)
  {
  }

  /** A directory as scanned: absolute ones as they are, relative ones under
      the project's base path, then normalised. */
  function ResolveDir(c: Composer, dir: string): string {
    c.normalizePath(if c.isAbsolutePath(dir) then dir else c.basePath + "/" + dir)
  }

  /** `strtr($s, '\\', '/')`. */
  function Slashes(s: string): (r: string)
    ensures |r| == |s|
    ensures forall i :: 0 <= i < |s| ==> r[i] == (if s[i] == '\\' then '/' else s[i])
  {
    seq(|s|, i requires 0 <= i < |s| => if s[i] == '\\' then '/' else s[i])
  }

  /** The namespace part of the whitelist: the namespace as a path for a
      psr-0 namespace without '_', nothing otherwise. */
  function NamespacePath(t: PsrType, ns: string): (r: string)
    ensures t == Psr4 || '_' in ns ==> r == ""
    ensures t == Psr0 && '_' !in ns ==> r == Slashes(ns)
  {
    FindCharNone(ns, '_');
    if t == Psr0 && Find(ns, "_").None? then Slashes(ns) else ""
  }

  /** The file is a test: it ends in "Test.php", and that is not its whole name. */
  predicate TestFile(path: string) {
    EndsWith(path, "Test.php") && (|path| == 8 || path[|path| - 9] != '/')
  }

  /** The whitelist `{dir/nsPath.+(?<!(?<!/)Test\.php)$}` on a path: the
      pattern is not anchored at the start, so the first occurrence of
      `dir/nsPath` decides whether something follows it. */
  predicate Whitelisted(path: string, dir: string, nsPath: string) {
    var prefix := dir + "/" + nsPath;
    match Find(path, prefix)
    case None => false
    case Some(i) => i + |prefix| < |path| && !TestFile(path)
  }

  /** The whitelist accepts a path exactly when `dir/nsPath` occurs in it
      followed by at least one character, and the path is not a test file. */
  lemma WhitelistedMeans(path: string, dir: string, nsPath: string)
    ensures Whitelisted(path, dir, nsPath) <==>
      (exists i :: OccursAt(path, dir + "/" + nsPath, i) && i + |dir + "/" + nsPath| < |path|)
      && !TestFile(path)
  {
    var prefix := dir + "/" + nsPath;
    match Find(path, prefix)
    case None =>
    case Some(j) =>
      if exists i :: OccursAt(path, prefix, i) && i + |prefix| < |path| {
        var i :| OccursAt(path, prefix, i) && i + |prefix| < |path|;
        assert j <= i;
      }
  }

  /** `Test.php` itself is kept, `FooTest.php` is not. */
  lemma TestFileNames(dir: string, name: string)
    requires name != [] && name[|name| - 1] != '/'
    ensures !TestFile(dir + "/Test.php")
    ensures TestFile(dir + "/" + name + "Test.php")
  {
    var p := dir + "/Test.php";
    assert p[|p| - 9] == '/';
    assert p[|p| - 8..] == "Test.php";
    var q := dir + "/" + name + "Test.php";
    assert q[|q| - 9] == name[|name| - 1];
    assert q[|q| - 8..] == "Test.php";
  }

  /** `ClassMapGenerator::createMap($dir, $whitelist)`: the classes found
      in files the whitelist accepts. */
  function CreateMap(found: seq<Found>, dir: string, nsPath: string): (r: seq<Found>)
    ensures forall e :: e in r ==> e in found && Whitelisted(e.1, dir, nsPath)
    ensures forall e :: e in found && Whitelisted(e.1, dir, nsPath) ==> e in r
  {
    if found == [] then []
    else (if Whitelisted(found[0].1, dir, nsPath) then [found[0]] else []) + CreateMap(found[1..], dir, nsPath)
  }

  /** The namespace test: `'' === $namespace || 0 === strpos($class, $namespace)`. */
  predicate InNamespace(cls: string, ns: string) {
    ns == "" || StartsWith(cls, ns)
  }

  lemma FindAtStart(s: string, pat: string)
    ensures Find(s, pat) == Some(0) <==> StartsWith(s, pat)
  {
    if StartsWith(s, pat) {
      FindAt(s, pat, 0);
    }
  }

  function KeepNamespace(found: seq<Found>, ns: string): (r: seq<Found>)
    ensures forall e :: e in r ==> e in found && InNamespace(e.0, ns)
    ensures forall e :: e in found && InNamespace(e.0, ns) ==> e in r
  {
    if found == [] then []
    else (if InNamespace(found[0].0, ns) then [found[0]] else []) + KeepNamespace(found[1..], ns)
  }

  /** What one psr directory of `ns` contributes, in order: nothing when it is
      not a directory; else the classes of the namespace in whitelisted files. */
  function DirCandidates(c: Composer, t: PsrType, ns: string, dir0: string): (r: seq<Found>)
    ensures !c.isDir(ResolveDir(c, dir0)) ==> r == []
    ensures forall e :: e in r ==>
      && e in c.scan(ResolveDir(c, dir0))
      && InNamespace(e.0, ns)
      && Whitelisted(e.1, ResolveDir(c, dir0), NamespacePath(t, ns))
  {
    var dir := ResolveDir(c, dir0);
    if !c.isDir(dir) then []
    else KeepNamespace(CreateMap(c.scan(dir), dir, NamespacePath(t, ns)), ns)
  }

  /** What the directories of one namespace contribute, directory by directory. */
  function NamespaceCandidates(c: Composer, t: PsrType, ns: string, dirs: seq<string>): (r: seq<Found>)
    ensures forall e :: e in r ==> InNamespace(e.0, ns)
  {
    if dirs == [] then [] else DirCandidates(c, t, ns, dirs[0]) + NamespaceCandidates(c, t, ns, dirs[1..])
  }

  /** What one psr section contributes, namespace by namespace. */
  function PsrCandidates(c: Composer, t: PsrType, nss: seq<(string, seq<string>)>): seq<Found> {
    if nss == [] then [] else NamespaceCandidates(c, t, nss[0].0, nss[0].1) + PsrCandidates(c, t, nss[1..])
  }

  /** What the psr sections of `types` contribute, in that order. */
  function TypesCandidates(c: Composer, a: Autoloads, types: seq<PsrType>): seq<Found> {
    if types == [] then [] else PsrCandidates(c, types[0], a.Section(types[0])) + TypesCandidates(c, a, types[1..])
  }

  /** What the classmap entries contribute, unfiltered. */
  function ClassmapCandidates(c: Composer, dirs: seq<string>): seq<Found> {
    if dirs == [] then [] else c.scan(ResolveDir(c, dirs[0])) + ClassmapCandidates(c, dirs[1..])
  }

  /** `if (!isset($classMap[$class])) $classMap[$class] = $path;` */
  function Claim(m: ClassMap, e: Found): (r: ClassMap)
    requires Valid(m)
    ensures Valid(r)
  {
    if e.0 in m.values then m else Put(m, e.0, e.1)
  }

  /** Claiming every candidate in order: the first file for a class wins. */
  function FirstWins(m: ClassMap, s: seq<Found>): (r: ClassMap)
    requires Valid(m)
    ensures Valid(r)
    decreases |s|
  {
    if s == [] then m else FirstWins(Claim(m, s[0]), s[1..])
  }

  /** `$classMap[$class] = $path;` for every candidate in order: the last wins. */
  function LastWins(m: ClassMap, s: seq<Found>): (r: ClassMap)
    requires Valid(m)
    ensures Valid(r)
    decreases |s|
  {
    if s == [] then m else LastWins(Put(m, s[0].0, s[0].1), s[1..])
  }

  /** The whole class map `getClassMap($mode)` returns. */
  function ClassMapOf(c: Composer, mode: int): ClassMap {
    var a := c.parseAutoloads(PackageMapOf(c, mode));
    LastWins(FirstWins(Empty(), TypesCandidates(c, a, [Psr0, Psr4])), ClassmapCandidates(c, a.classmap))
  }

  /** The file of the first candidate for `cls`. */
  function FirstFile(s: seq<Found>, cls: string): (r: Option<string>)
    ensures r.Some? ==> (cls, r.value) in s
    ensures r.None? ==> forall e :: e in s ==> e.0 != cls
  {
    if s == [] then None else if s[0].0 == cls then Some(s[0].1) else FirstFile(s[1..], cls)
  }

  /** The file of the last candidate for `cls`. */
  function LastFile(s: seq<Found>, cls: string): (r: Option<string>)
    ensures r.Some? ==> (cls, r.value) in s
    ensures r.None? ==> forall e :: e in s ==> e.0 != cls
  {
    if s == [] then None
    else match LastFile(s[1..], cls)
      case Some(p) => Some(p)
      case None => if s[0].0 == cls then Some(s[0].1) else None
  }

  lemma {:induction false} FirstWinsAppend(m: ClassMap, a: seq<Found>, b: seq<Found>)
    requires Valid(m)
    ensures FirstWins(m, a + b) == FirstWins(FirstWins(m, a), b)
    decreases |a|
  {
    if a == [] {
      assert a + b == b;
    } else {
      assert (a + b)[0] == a[0];
      assert (a + b)[1..] == a[1..] + b;
      FirstWinsAppend(Claim(m, a[0]), a[1..], b);
    }
  }

  lemma {:induction false} LastWinsAppend(m: ClassMap, a: seq<Found>, b: seq<Found>)
    requires Valid(m)
    ensures LastWins(m, a + b) == LastWins(LastWins(m, a), b)
    decreases |a|
  {
    if a == [] {
      assert a + b == b;
    } else {
      assert (a + b)[0] == a[0];
      assert (a + b)[1..] == a[1..] + b;
      LastWinsAppend(Put(m, a[0].0, a[0].1), a[1..], b);
    }
  }

  /** First wins: a class already mapped keeps its file; otherwise it is mapped
      exactly when it has a candidate, to the file of its first one. Classes
      already mapped keep their positions, new ones come after them. */
  lemma {:induction false} FirstWinsAt(m: ClassMap, s: seq<Found>, cls: string)
    requires Valid(m)
    ensures var r := FirstWins(m, s);
      && (cls in m.values ==> cls in r.values && r.values[cls] == m.values[cls])
      && (cls !in m.values ==> (cls in r.values <==> FirstFile(s, cls).Some?))
      && (cls !in m.values && cls in r.values ==> r.values[cls] == FirstFile(s, cls).value)
    decreases |s|
  {
    if s != [] {
      FirstWinsAt(Claim(m, s[0]), s[1..], cls);
    }
  }

  lemma {:induction false} FirstWinsKeys(m: ClassMap, s: seq<Found>)
    requires Valid(m)
    ensures |m.keys| <= |FirstWins(m, s).keys| && FirstWins(m, s).keys[..|m.keys|] == m.keys
    decreases |s|
  {
    if s != [] {
      var m' := Claim(m, s[0]);
      FirstWinsKeys(m', s[1..]);
      assert m'.keys[..|m.keys|] == m.keys;
    }
  }

  /** Last wins: a class with a candidate is mapped to the file of its last
      one; any other class keeps what it had. Classes already mapped keep
      their positions. */
  lemma {:induction false} LastWinsAt(m: ClassMap, s: seq<Found>, cls: string)
    requires Valid(m)
    ensures var r := LastWins(m, s);
      && (cls in r.values <==> cls in m.values || LastFile(s, cls).Some?)
      && (LastFile(s, cls).Some? ==> r.values[cls] == LastFile(s, cls).value)
      && (LastFile(s, cls).None? && cls in m.values ==> r.values[cls] == m.values[cls])
    decreases |s|
  {
    if s != [] {
      LastWinsAt(Put(m, s[0].0, s[0].1), s[1..], cls);
    }
  }

  lemma {:induction false} LastWinsKeys(m: ClassMap, s: seq<Found>)
    requires Valid(m)
    ensures |m.keys| <= |LastWins(m, s).keys| && LastWins(m, s).keys[..|m.keys|] == m.keys
    decreases |s|
  {
    if s != [] {
      var m' := Put(m, s[0].0, s[0].1);
      LastWinsKeys(m', s[1..]);
      assert m'.keys[..|m.keys|] == m.keys;
    }
  }

  lemma {:induction false} FirstFileAppend(a: seq<Found>, b: seq<Found>, cls: string)
    ensures FirstFile(a + b, cls) == if FirstFile(a, cls).Some? then FirstFile(a, cls) else FirstFile(b, cls)
    decreases |a|
  {
    if a == [] {
      assert a + b == b;
    } else {
      assert (a + b)[0] == a[0];
      assert (a + b)[1..] == a[1..] + b;
      FirstFileAppend(a[1..], b, cls);
    }
  }

  /** Which file `getClassMap` maps a class to: the last classmap candidate
      if there is one; else the first psr-0 candidate; else the first psr-4
      candidate; and the class is absent when it has no candidate at all. */
  lemma ClassMapOfAt(c: Composer, mode: int, cls: string)
    ensures var a := c.parseAutoloads(PackageMapOf(c, mode));
      var r := ClassMapOf(c, mode);
      var fromClassmap := LastFile(ClassmapCandidates(c, a.classmap), cls);
      var fromPsr0 := FirstFile(PsrCandidates(c, Psr0, a.psr0), cls);
      var fromPsr4 := FirstFile(PsrCandidates(c, Psr4, a.psr4), cls);
      && (cls in r.values <==> fromClassmap.Some? || fromPsr0.Some? || fromPsr4.Some?)
      && (fromClassmap.Some? ==> r.values[cls] == fromClassmap.value)
      && (fromClassmap.None? && fromPsr0.Some? ==> r.values[cls] == fromPsr0.value)
      && (fromClassmap.None? && fromPsr0.None? && fromPsr4.Some? ==> r.values[cls] == fromPsr4.value)
  {
    var a := c.parseAutoloads(PackageMapOf(c, mode));
    var p0 := PsrCandidates(c, Psr0, a.psr0);
    var p4 := PsrCandidates(c, Psr4, a.psr4);
    assert TypesCandidates(c, a, [Psr0, Psr4]) == p0 + p4 by {
      assert [Psr0, Psr4][1..] == [Psr4];
      assert TypesCandidates(c, a, [Psr4]) == p4 + TypesCandidates(c, a, []);
    }
    FirstFileAppend(p0, p4, cls);
    var psr := FirstWins(Empty(), p0 + p4);
    FirstWinsAt(Empty(), p0 + p4, cls);
    LastWinsAt(psr, ClassmapCandidates(c, a.classmap), cls);
  }

  lemma ClaimStep(m: ClassMap, e: Found, rest: seq<Found>, ns: string)
    requires Valid(m)
    ensures FirstWins(m, KeepNamespace([e] + rest, ns))
         == FirstWins(if InNamespace(e.0, ns) then Claim(m, e) else m, KeepNamespace(rest, ns))
  {
    assert ([e] + rest)[1..] == rest;
    if InNamespace(e.0, ns) {
      assert ([e] + KeepNamespace(rest, ns))[1..] == KeepNamespace(rest, ns);
    } else {
      assert [] + KeepNamespace(rest, ns) == KeepNamespace(rest, ns);
    }
  }

  /** The step of that loop at index `i`. */
  lemma ClaimAt(m: ClassMap, found: seq<Found>, i: nat, ns: string)
    requires Valid(m) && i < |found|
    ensures FirstWins(m, KeepNamespace(found[i..], ns))
         == FirstWins(if InNamespace(found[i].0, ns) then Claim(m, found[i]) else m, KeepNamespace(found[i + 1..], ns))
  {
    assert found[i..] == [found[i]] + found[i + 1..];
    ClaimStep(m, found[i], found[i + 1..], ns);
  }

  /** The innermost loop for one psr directory: resolve it, skip it when it
      is not a directory, and claim its classes that are in the namespace. */
  method ScanPsrDirectory(cm: ClassMap, c: Composer, t: PsrType, ns: string, dir0: string) returns (r: ClassMap)
    requires Valid(cm)
    ensures r == FirstWins(cm, DirCandidates(c, t, ns, dir0))
  {
    var dir := ResolveDir(c, dir0);
    if !c.isDir(dir) {
      return cm;
    }
    var found := CreateMap(c.scan(dir), dir, NamespacePath(t, ns));
    r := cm;
    var i := 0;
    while i < |found|
      invariant 0 <= i <= |found| && Valid(r)
      invariant FirstWins(r, KeepNamespace(found[i..], ns)) == FirstWins(cm, KeepNamespace(found, ns))
    {
      var (cls, path) := found[i];
      ClaimAt(r, found, i, ns);
      FindAtStart(cls, ns);
      if ns == "" || Find(cls, ns) == Some(0) {
        if cls !in r.values {
          r := Put(r, cls, path);
        }
      }
      i := i + 1;
    }
  }

  /** The two middle loops for one psr section: every namespace with every
      one of its directories. */
  method ScanPsrSection(cm: ClassMap, c: Composer, t: PsrType, nss: seq<(string, seq<string>)>) returns (r: ClassMap)
    requires Valid(cm)
    ensures r == FirstWins(cm, PsrCandidates(c, t, nss))
  {
    r := cm;
    var i := 0;
    while i < |nss|
      invariant 0 <= i <= |nss| && Valid(r)
      invariant FirstWins(r, PsrCandidates(c, t, nss[i..])) == FirstWins(cm, PsrCandidates(c, t, nss))
    {
      var (ns, paths) := nss[i];
      assert nss[i..][1..] == nss[i + 1..];
      ghost var r0 := r;
      var j := 0;
      while j < |paths|
        invariant 0 <= j <= |paths| && Valid(r)
        invariant FirstWins(r, NamespaceCandidates(c, t, ns, paths[j..])) == FirstWins(r0, NamespaceCandidates(c, t, ns, paths))
      {
        assert paths[j..][1..] == paths[j + 1..];
        FirstWinsAppend(r, DirCandidates(c, t, ns, paths[j]), NamespaceCandidates(c, t, ns, paths[j + 1..]));
        r := ScanPsrDirectory(r, c, t, ns, paths[j]);
        j := j + 1;
      }
      FirstWinsAppend(r0, NamespaceCandidates(c, t, ns, paths), PsrCandidates(c, t, nss[i + 1..]));
      i := i + 1;
    }
  }

  /** The classmap loop: every class found under every classmap entry
      overwrites whatever was mapped. */
  method ScanClassmap(cm: ClassMap, c: Composer, dirs: seq<string>) returns (r: ClassMap)
    requires Valid(cm)
    ensures r == LastWins(cm, ClassmapCandidates(c, dirs))
  {
    r := cm;
    var i := 0;
    while i < |dirs|
      invariant 0 <= i <= |dirs| && Valid(r)
      invariant LastWins(r, ClassmapCandidates(c, dirs[i..])) == LastWins(cm, ClassmapCandidates(c, dirs))
    {
      assert dirs[i..][1..] == dirs[i + 1..];
      var found := c.scan(ResolveDir(c, dirs[i]));
      LastWinsAppend(r, found, ClassmapCandidates(c, dirs[i + 1..]));
      ghost var r0 := r;
      var j := 0;
      while j < |found|
        invariant 0 <= j <= |found| && Valid(r)
        invariant LastWins(r, found[j..]) == LastWins(r0, found)
      {
        assert found[j..][1..] == found[j + 1..];
        r := Put(r, found[j].0, found[j].1);
        j := j + 1;
      }
      i := i + 1;
    }
  }

  /** `getClassMap($mode)`. */
  method GetClassMap(c: Composer, mode: int) returns (classMap: ClassMap)
    ensures classMap == ClassMapOf(c, mode)
  {
    var packages := if mode == ModeAllClasses || mode == ModeDependenciesClasses then c.installed else [];
    var packageMap := c.buildPackageMap(packages);
    if mode == ModeDependenciesClasses {
      packageMap := Shift(packageMap);
    }
    var autoloads := c.parseAutoloads(packageMap);
    classMap := Empty();
    var psrTypes := [Psr0, Psr4];
    var k := 0;
    while k < |psrTypes|
      invariant 0 <= k <= |psrTypes| && Valid(classMap)
      invariant FirstWins(classMap, TypesCandidates(c, autoloads, psrTypes[k..]))
             == FirstWins(Empty(), TypesCandidates(c, autoloads, psrTypes))
    {
      assert psrTypes[k..][1..] == psrTypes[k + 1..];
      FirstWinsAppend(classMap, PsrCandidates(c, psrTypes[k], autoloads.Section(psrTypes[k])),
                      TypesCandidates(c, autoloads, psrTypes[k + 1..]));
      classMap := ScanPsrSection(classMap, c, psrTypes[k], autoloads.Section(psrTypes[k]));
      k := k + 1;
    }
    classMap := ScanClassmap(classMap, c, autoloads.classmap);
  }
}
