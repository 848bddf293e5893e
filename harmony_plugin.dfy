/** `Harmony\Installer\HarmonyPlugin`: the Composer plugin that, after an
    install or update, gathers the `composer-harmony.json` files of all
    packages into `composer-harmony-dependencies.json` (with their autoload
    paths rewritten to be relative to `vendor/harmony/harmony`) and, after
    the autoloader is dumped, writes the class-map and reflection caches.

    The file system, JSON reading, `array_merge_recursive` and the worker
    processes are inputs. */
module HarmonyPlugin {
  import opened Wrappers
  import opened PhpStrings
  import opened PhpArrays
  import opened PhpValues
  import FileService
  import ClassMapService
  import ClassExplorer
  import ReflectionExporter

  // ---------------------------------------------------------------------
  // isAssoc

  /** `range(0, hi)`: counting up to `hi`, or down to it when it is negative. */
  function RangeFromZero(hi: int): (r: seq<Key>)
    ensures |r| == if hi >= 0 then hi + 1 else 1 - hi
    ensures forall i :: 0 <= i < |r| ==> r[i] == IntKey(if hi >= 0 then i else -i)
  {
    if hi >= 0 then seq(hi + 1, i => IntKey(i)) else seq(1 - hi, i => IntKey(-i))
  }

  /** `isAssoc($arr)`: `array_keys($arr) !== range(0, count($arr) - 1)`. */
  predicate IsAssoc(arr: OMap<Key, Value>) {
    arr.keys != RangeFromZero(|arr.keys| - 1)
  }

  /** An array is a list, not associative, exactly when it is non-empty and
      its i-th key is the integer i. The empty array counts as associative,
      since `range(0, -1)` is `[0, -1]`. */
  lemma IsAssocMeans(arr: OMap<Key, Value>)
    ensures arr.keys == [] ==> IsAssoc(arr)
    ensures !IsAssoc(arr) <==> arr.keys != [] && forall i :: 0 <= i < |arr.keys| ==> arr.keys[i] == IntKey(i)
  {
    if arr.keys == [] {
      assert |RangeFromZero(-1)| == 2;
    } else if forall i :: 0 <= i < |arr.keys| ==> arr.keys[i] == IntKey(i) {
      assert arr.keys == RangeFromZero(|arr.keys| - 1);
    }
  }

  /** A non-empty list written `[ … ]` is never associative. */
  lemma ListNotAssoc(items: seq<Value>)
    requires items != []
    ensures !IsAssoc(List(items))
  {
    IsAssocMeans(List(items));
  }

  // ---------------------------------------------------------------------
  // loadComposerHarmonyFile

  const AutoloadTypes: seq<string> := ["autoload", "autoload-dev"]
  const AutoloadModes: seq<string> := ["psr-4", "psr-0", "classmap", "files"]

  /** What reading a `composer-harmony.json` file gives: the decoded
      configuration, a JSON syntax error, or a value the lax Composer
      schema rejects. */
  datatype ReadOutcome = Parsed(config: Value) | Unparsable | SchemaViolation

  /** The exceptions `processHarmonyDependencies` lets escape. */
  datatype PluginError =
    | ParseFailed(file: string)                                   // syntax error, rethrown
    | SchemaInvalid(file: string)                                 // Composer's validation exception
    | NotAnArray(file: string, autoloadType: string, mode: string) // `array_map` on a non-array
    | WriteFailed(file: string)
    | DeleteFailed(file: string)

  /** The messages of the exceptions the plugin throws itself. */
  function Message(e: PluginError): string
    requires e.ParseFailed? || e.WriteFailed? || e.DeleteFailed?
  {
    match e
    case ParseFailed(f) => "Error while parsing file '" + f + "'"
    case WriteFailed(f) => "An error occured while writing file '" + f + "'"
    case DeleteFailed(f) => "An error occured while deleting file '" + f + "'"
  }

  /** The inner closure: `$targetDir.$pathItem` for every item, keys kept. */
  function Prefixed(targetDir: string, path: OMap<Key, Value>): (r: OMap<Key, Value>)
    requires Valid(path)
    ensures Valid(r) && r.keys == path.keys
    ensures forall k :: k in path.values ==> k in r.values && r.values[k] == Text(targetDir + ToStr(path.values[k]))
    ensures WellFormed(Arr(r))
  {
    OMap(path.keys, map k | k in path.values :: Text(targetDir + ToStr(path.values[k])))
  }

  /** The outer closure's first step: a path that is not an array becomes
      a one-element list. */
  function PathList(path: Value): (r: OMap<Key, Value>)
    requires WellFormed(path)
    ensures Valid(r)
  {
    if path.Arr? then path.a else List([path])
  }

  /** The outer `array_map` over one autoload section. */
  function RewritePaths(targetDir: string, section: OMap<Key, Value>): (r: OMap<Key, Value>)
    requires Valid(section) && forall k :: k in section.values ==> WellFormed(section.values[k])
    ensures Valid(r) && r.keys == section.keys
    ensures WellFormed(Arr(r))
  {
    var r := OMap(section.keys, map k | k in section.values :: Arr(Prefixed(targetDir, PathList(section.values[k]))));
    assert forall k :: k in r.values ==> WellFormed(r.values[k]);
    r
  }

  /** An array entry of a rewritten section keeps its keys, each item
      becoming the target directory followed by the item as a string. */
  lemma RewriteArrayEntry(targetDir: string, section: OMap<Key, Value>, k: Key)
    requires Valid(section) && forall k :: k in section.values ==> WellFormed(section.values[k])
    requires k in section.values && section.values[k].Arr?
    ensures var v := section.values[k];
            var w := RewritePaths(targetDir, section).values[k];
            && w.Arr? && w.a.keys == v.a.keys
            && forall j :: j in v.a.values ==> w.a.values[j] == Text(targetDir + ToStr(v.a.values[j]))
  {
  }

  /** A scalar entry of a rewritten section becomes the one-element list of
      the target directory followed by the scalar as a string. */
  lemma RewriteScalarEntry(targetDir: string, section: OMap<Key, Value>, k: Key)
    requires Valid(section) && forall k :: k in section.values ==> WellFormed(section.values[k])
    requires k in section.values && !section.values[k].Arr?
    ensures var v := section.values[k];
            var w := RewritePaths(targetDir, section).values[k];
            && w.Arr? && w.a.keys == [IntKey(0)]
            && w.a.values[IntKey(0)] == Text(targetDir + ToStr(v))
  {
    var v := section.values[k];
    var l := PathList(v);
    SingletonList(v);
    var w := Arr(Prefixed(targetDir, l));
    assert RewritePaths(targetDir, section).values[k] == w;
    assert w.a.keys == l.keys;
  }

  /** The one-element list `[$v]`. */
  lemma SingletonList(v: Value)
    ensures List([v]).keys == [IntKey(0)]
    ensures IntKey(0) in List([v]).values && List([v]).values[IntKey(0)] == v
  {
    var l := List([v]);
    assert |l.keys| == 1 && l.keys[0] == IntKey(0);
  }

  /** So every path of a rewritten section starts with the target directory. */
  lemma RewrittenPathsStartWith(targetDir: string, section: OMap<Key, Value>, k: Key)
    requires Valid(section) && forall k :: k in section.values ==> WellFormed(section.values[k])
    requires k in section.values
    ensures var w := RewritePaths(targetDir, section).values[k];
            && w.Arr?
            && forall j :: j in w.a.values ==> w.a.values[j].Text? && StartsWith(w.a.values[j].s, targetDir)
  {
    var l := PathList(section.values[k]);
    var w := RewritePaths(targetDir, section).values[k];
    assert w == Arr(Prefixed(targetDir, l));
    forall j | j in w.a.values ensures w.a.values[j].Text? && StartsWith(w.a.values[j].s, targetDir) {
      assert (targetDir + ToStr(l.values[j]))[..|targetDir|] == targetDir;
    }
  }

  /** `$v[$a][$b]`. */
  function Get2(v: Value, a: string, b: string): Value {
    Get(Get(v, a), b)
  }

  /** One iteration of the inner `foreach`: a section that is set is
      rewritten; one that is not an array makes `array_map` throw. */
  function RewriteSection(config: Value, autoloadType: string, mode: string, targetDir: string, file: string)
    : (r: Result<Value, PluginError>)
    requires WellFormed(config)
    ensures r.Success? ==> WellFormed(r.value)
  {
    if !IsSet2(config, autoloadType, mode) then Success(config)
    else
      GetWellFormed(config, autoloadType);
      var autoload := Get(config, autoloadType);
      GetWellFormed(autoload, mode);
      var section := Get(autoload, mode);
      if !section.Arr? then Failure(NotAnArray(file, autoloadType, mode))
      else
        var rewritten := Arr(RewritePaths(targetDir, section.a));
        SetWellFormed(autoload, mode, rewritten);
        SetWellFormed(config, autoloadType, Set(autoload, mode, rewritten));
        Success(Set(config, autoloadType, Set(autoload, mode, rewritten)))
  }

  /** The `(type, mode)` pairs the two nested loops visit, in order. */
  function ModePairs(t: string, modes: seq<string>): seq<(string, string)> {
    if modes == [] then [] else [(t, modes[0])] + ModePairs(t, modes[1..])
  }

  function Pairs(types: seq<string>, modes: seq<string>): seq<(string, string)> {
    if types == [] then [] else ModePairs(types[0], modes) + Pairs(types[1..], modes)
  }

  lemma {:induction false} ModePairsMembers(t: string, modes: seq<string>)
    ensures forall x :: x in ModePairs(t, modes) <==> x.0 == t && x.1 in modes
    ensures Distinct(modes) ==> Distinct(ModePairs(t, modes))
  {
    if modes != [] {
      ModePairsMembers(t, modes[1..]);
      var r := ModePairs(t, modes);
      assert r[1..] == ModePairs(t, modes[1..]);
      assert forall x :: x in modes <==> x == modes[0] || x in modes[1..];
    }
  }

  lemma {:induction false} PairsMembers(types: seq<string>, modes: seq<string>)
    ensures forall x :: x in Pairs(types, modes) <==> x.0 in types && x.1 in modes
    ensures Distinct(types) && Distinct(modes) ==> Distinct(Pairs(types, modes))
  {
    if types != [] {
      PairsMembers(types[1..], modes);
      ModePairsMembers(types[0], modes);
      assert forall x :: x in types <==> x == types[0] || x in types[1..];
      var a, b := ModePairs(types[0], modes), Pairs(types[1..], modes);
      if Distinct(types) && Distinct(modes) {
        assert types[0] !in types[1..];
        forall i, j | 0 <= i < j < |a + b| ensures (a + b)[i] != (a + b)[j] {
          if j < |a| {
          } else if i >= |a| {
            assert (a + b)[i] == b[i - |a|] && (a + b)[j] == b[j - |a|];
          } else {
            assert (a + b)[i] in a && (a + b)[j] == b[j - |a|] && b[j - |a|] in b;
          }
        }
      }
    }
  }

  lemma DistinctNames()
    ensures Distinct(AutoloadTypes) && Distinct(AutoloadModes)
  {
    assert |AutoloadTypes[0]| != |AutoloadTypes[1]|;
    assert AutoloadModes[0][4] == '4' && AutoloadModes[1][4] == '0';
    assert AutoloadModes[0][0] == 'p' && AutoloadModes[1][0] == 'p';
    assert AutoloadModes[2][0] == 'c' && AutoloadModes[3][0] == 'f';
  }

  /** The eight sections, each visited once. */
  lemma SectionPairs()
    ensures forall x :: x in Pairs(AutoloadTypes, AutoloadModes) <==> x.0 in AutoloadTypes && x.1 in AutoloadModes
    ensures Distinct(Pairs(AutoloadTypes, AutoloadModes))
  {
    PairsMembers(AutoloadTypes, AutoloadModes);
    DistinctNames();
  }

  /** The two nested `foreach` loops. */
  function RewriteAll(config: Value, pairs: seq<(string, string)>, targetDir: string, file: string)
    : (r: Result<Value, PluginError>)
    requires WellFormed(config)
    ensures r.Success? ==> WellFormed(r.value)
    decreases |pairs|
  {
    if pairs == [] then Success(config)
    else
      match RewriteSection(config, pairs[0].0, pairs[0].1, targetDir, file)
      case Failure(e) => Failure(e)
      case Success(c) => RewriteAll(c, pairs[1..], targetDir, file)
  }

  lemma RewriteAllCons(config: Value, x: (string, string), rest: seq<(string, string)>, targetDir: string, file: string)
    requires WellFormed(config)
    ensures var s := RewriteSection(config, x.0, x.1, targetDir, file);
      RewriteAll(config, [x] + rest, targetDir, file) ==
        if s.Failure? then Failure(s.error) else RewriteAll(s.value, rest, targetDir, file)
  {
    assert ([x] + rest)[0] == x && ([x] + rest)[1..] == rest;
  }

  /** `$v[$a][$b][$c]`. */
  function Get3(v: Value, a: string, b: string, c: string): Value {
    Get(Get(Get(v, a), b), c)
  }

  /** One of the two factory paragraphs: a factory section that is set and is
      a scalar or an associative array is wrapped into a one-element list. */
  function WrapFactory(config: Value, section: string, key: string): (r: Value)
    requires WellFormed(config)
    ensures WellFormed(r)
  {
    var factory := Get3(config, "extra", section, key);
    if factory != Null && (!factory.Arr? || IsAssoc(factory.a)) then
      GetWellFormed(config, "extra");
      var extra := Get(config, "extra");
      GetWellFormed(extra, section);
      var interop := Get(extra, section);
      GetWellFormed(interop, key);
      ListWellFormed([factory]);
      var wrapped := Arr(List([factory]));
      SetWellFormed(interop, key, wrapped);
      SetWellFormed(extra, section, Set(interop, key, wrapped));
      SetWellFormed(config, "extra", Set(extra, section, Set(interop, key, wrapped)));
      Set(config, "extra", Set(extra, section, Set(interop, key, wrapped)))
    else config
  }

  /** `loadComposerHarmonyFile($file, $targetDir)`. */
  function LoadConfig(read: ReadOutcome, file: string, targetDir: string): (r: Result<Value, PluginError>)
    requires read.Parsed? ==> WellFormed(read.config)
    ensures r.Success? ==> WellFormed(r.value)
  {
    match read
    case Unparsable => Failure(ParseFailed(file))
    case SchemaViolation => Failure(SchemaInvalid(file))
    case Parsed(config) =>
      match RewriteAll(config, Pairs(AutoloadTypes, AutoloadModes), targetDir, file)
      case Failure(e) => Failure(e)
      case Success(c) =>
        Success(WrapFactory(WrapFactory(c, "container-interop", "container-factory"), "framework-interop", "module-factory"))
  }

  // Properties of the loader.

  /** What a section is after the rewrite: its `array_map` when it is an
      array, and as it was otherwise. */
  function Rewritten(config: Value, autoloadType: string, mode: string, targetDir: string): Value
    requires WellFormed(config)
  {
    GetWellFormed(config, autoloadType);
    GetWellFormed(Get(config, autoloadType), mode);
    var section := Get2(config, autoloadType, mode);
    if section.Arr? then Arr(RewritePaths(targetDir, section.a)) else section
  }

  /** One rewrite changes its own section and nothing else. */
  lemma RewriteSectionFrame(config: Value, t: string, m: string, targetDir: string, file: string)
    requires WellFormed(config) && RewriteSection(config, t, m, targetDir, file).Success?
    ensures var r := RewriteSection(config, t, m, targetDir, file).value;
      && Get2(r, t, m) == Rewritten(config, t, m, targetDir)
      && (forall k :: k != t ==> Get(r, k) == Get(config, k))
      && (forall m2 :: m2 != m ==> Get2(r, t, m2) == Get2(config, t, m2))
      && (config.Arr? ==> r.Arr? && r.a.keys == config.a.keys)
  {
    if IsSet2(config, t, m) {
      var autoload := Get(config, t);
      var section := Get(autoload, m);
      GetWellFormed(config, t);
      GetWellFormed(autoload, m);
      assert section.Arr? && WellFormed(section);
      var rewritten := Arr(RewritePaths(targetDir, section.a));
      var inner := Set(autoload, m, rewritten);
      assert RewriteSection(config, t, m, targetDir, file).value == Set(config, t, inner);
      SetFrame(config, t, inner);
      SetFrame(autoload, m, rewritten);
    }
  }

  /** Setting one key leaves every other key's value as it was. */
  lemma SetFrame(v: Value, k: string, x: Value)
    requires v.Arr? && Valid(v.a)
    ensures forall j :: j != k ==> Get(Set(v, k, x), j) == Get(v, j)
  {
    forall j | j != k ensures Get(Set(v, k, x), j) == Get(v, j) {
      assert StrKey(j) != StrKey(k);
    }
  }

  /** A rewrite whose section is an array succeeds, one whose section is set
      but not an array fails. */
  lemma RewriteSectionFails(config: Value, t: string, m: string, targetDir: string, file: string)
    requires WellFormed(config)
    ensures RewriteSection(config, t, m, targetDir, file).Failure? <==> IsSet2(config, t, m) && !Get2(config, t, m).Arr?
    ensures RewriteSection(config, t, m, targetDir, file).Failure? ==>
      RewriteSection(config, t, m, targetDir, file).error == NotAnArray(file, t, m)
  {
  }

  /** Over distinct sections, every listed section is rewritten exactly
      once and everything else is left alone. */
  lemma {:induction false} RewriteAllSections(config: Value, pairs: seq<(string, string)>, targetDir: string, file: string)
    requires WellFormed(config) && Distinct(pairs) && RewriteAll(config, pairs, targetDir, file).Success?
    ensures var r := RewriteAll(config, pairs, targetDir, file).value;
      && (forall t, m :: (t, m) in pairs ==> Get2(r, t, m) == Rewritten(config, t, m, targetDir))
      && (forall t, m :: (t, m) !in pairs ==> Get2(r, t, m) == Get2(config, t, m))
      && (forall k :: (forall x :: x in pairs ==> x.0 != k) ==> Get(r, k) == Get(config, k))
      && (config.Arr? ==> r.Arr? && r.a.keys == config.a.keys)
    decreases |pairs|
  {
    if pairs != [] {
      var x := pairs[0];
      RewriteSectionFrame(config, x.0, x.1, targetDir, file);
      var c := RewriteSection(config, x.0, x.1, targetDir, file).value;
      assert Distinct(pairs[1..]);
      assert x !in pairs[1..];
      RewriteAllSections(c, pairs[1..], targetDir, file);
      var r := RewriteAll(config, pairs, targetDir, file).value;
      assert r == RewriteAll(c, pairs[1..], targetDir, file).value;
      forall t, m | (t, m) in pairs[1..] ensures Rewritten(c, t, m, targetDir) == Rewritten(config, t, m, targetDir) {
        assert Get2(c, t, m) == Get2(config, t, m);
      }
      forall t, m | (t, m) in pairs ensures Get2(r, t, m) == Rewritten(config, t, m, targetDir) {
        if (t, m) != x {
          assert (t, m) in pairs[1..];
        }
      }
      forall t, m | (t, m) !in pairs ensures Get2(r, t, m) == Get2(config, t, m) {
        assert (t, m) !in pairs[1..] && (t, m) != x;
      }
      forall k | forall y :: y in pairs ==> y.0 != k ensures Get(r, k) == Get(config, k) {
        assert x in pairs;
        assert forall y :: y in pairs[1..] ==> y in pairs;
      }
    }
  }

  /** Over distinct sections, the rewrite fails exactly when one of them is
      set and not an array, and then with that section's error. */
  lemma {:induction false} RewriteAllFails(config: Value, pairs: seq<(string, string)>, targetDir: string, file: string)
    requires WellFormed(config) && Distinct(pairs)
    ensures RewriteAll(config, pairs, targetDir, file).Failure? <==>
      exists x :: x in pairs && IsSet2(config, x.0, x.1) && !Get2(config, x.0, x.1).Arr?
    ensures RewriteAll(config, pairs, targetDir, file).Failure? ==>
      exists x :: x in pairs && RewriteAll(config, pairs, targetDir, file).error == NotAnArray(file, x.0, x.1)
    decreases |pairs|
  {
    if pairs != [] {
      var x := pairs[0];
      RewriteSectionFails(config, x.0, x.1, targetDir, file);
      var s := RewriteSection(config, x.0, x.1, targetDir, file);
      if s.Success? {
        RewriteSectionFrame(config, x.0, x.1, targetDir, file);
        var c := s.value;
        assert Distinct(pairs[1..]);
        assert x !in pairs[1..];
        RewriteAllFails(c, pairs[1..], targetDir, file);
        forall y | y in pairs[1..] ensures Get2(c, y.0, y.1) == Get2(config, y.0, y.1) {
        }
        assert forall y :: y in pairs <==> y == x || y in pairs[1..];
      }
    }
  }

  /** A factory section is wrapped when it is a scalar or an associative
      array: `[ $factorySection ]`. */
  function Wrapped(factory: Value): Value {
    if factory != Null && (!factory.Arr? || IsAssoc(factory.a)) then Arr(List([factory])) else factory
  }

  /** The wrapping is done once: a wrapped section is a one-element list and
      is not wrapped again, so merged files add factories side by side. */
  lemma WrappedOnce(factory: Value)
    ensures Wrapped(Wrapped(factory)) == Wrapped(factory)
    ensures Wrapped(factory) != factory ==> Wrapped(factory) == Arr(List([factory])) && !IsAssoc(List([factory]))
  {
    ListNotAssoc([factory]);
  }

  /** One factory paragraph changes its own entry and nothing else. */
  lemma WrapFactoryFrame(config: Value, section: string, key: string)
    requires WellFormed(config)
    ensures var r := WrapFactory(config, section, key);
      && Get3(r, "extra", section, key) == Wrapped(Get3(config, "extra", section, key))
      && (forall k :: k != "extra" ==> Get(r, k) == Get(config, k))
      && (forall s :: s != section ==> Get2(r, "extra", s) == Get2(config, "extra", s))
      && (forall k2 :: k2 != key ==> Get3(r, "extra", section, k2) == Get3(config, "extra", section, k2))
      && (config.Arr? ==> r.Arr? && r.a.keys == config.a.keys)
  {
    var factory := Get3(config, "extra", section, key);
    if factory != Null && (!factory.Arr? || IsAssoc(factory.a)) {
      GetWellFormed(config, "extra");
      var extra := Get(config, "extra");
      GetWellFormed(extra, section);
      var interop := Get(extra, section);
      var wrapped := Arr(List([factory]));
      var inner := Set(interop, key, wrapped);
      var middle := Set(extra, section, inner);
      assert WrapFactory(config, section, key) == Set(config, "extra", middle);
      SetFrame(config, "extra", middle);
      SetFrame(extra, section, inner);
      SetFrame(interop, key, wrapped);
    }
  }

  /** The nested loops over any distinct types and modes. */
  lemma RewriteSectionsMeans(config: Value, types: seq<string>, modes: seq<string>, targetDir: string, file: string)
    requires WellFormed(config) && Distinct(types) && Distinct(modes)
    ensures var r := RewriteAll(config, Pairs(types, modes), targetDir, file);
      && (r.Failure? <==> exists t, m :: t in types && m in modes && IsSet2(config, t, m) && !Get2(config, t, m).Arr?)
      && (r.Success? ==>
          && (forall t, m :: t in types && m in modes ==> Get2(r.value, t, m) == Rewritten(config, t, m, targetDir))
          && (forall t, m :: t in types && m !in modes ==> Get2(r.value, t, m) == Get2(config, t, m))
          && (forall k :: k !in types ==> Get(r.value, k) == Get(config, k))
          && (config.Arr? ==> r.value.Arr? && r.value.a.keys == config.a.keys))
  {
    var pairs := Pairs(types, modes);
    PairsMembers(types, modes);
    RewriteAllFails(config, pairs, targetDir, file);
    var rw := RewriteAll(config, pairs, targetDir, file);
    if rw.Failure? {
      var x :| x in pairs && IsSet2(config, x.0, x.1) && !Get2(config, x.0, x.1).Arr?;
      assert x.0 in types && x.1 in modes;
    } else {
      RewriteAllSections(config, pairs, targetDir, file);
      forall k | k !in types ensures Get(rw.value, k) == Get(config, k) {
        assert forall x :: x in pairs ==> x.0 != k;
      }
    }
  }

  /** Two factory paragraphs on different sections. */
  lemma WrapFactoriesMeans(c: Value, s1: string, k1: string, s2: string, k2: string)
    requires WellFormed(c) && s1 != s2
    ensures var r := WrapFactory(WrapFactory(c, s1, k1), s2, k2);
      && Get3(r, "extra", s1, k1) == Wrapped(Get3(c, "extra", s1, k1))
      && Get3(r, "extra", s2, k2) == Wrapped(Get3(c, "extra", s2, k2))
      && (forall k :: k != "extra" ==> Get(r, k) == Get(c, k))
      && (c.Arr? ==> r.Arr? && r.a.keys == c.a.keys)
  {
    var c1 := WrapFactory(c, s1, k1);
    var r := WrapFactory(c1, s2, k2);
    WrapFactoryFrame(c, s1, k1);
    WrapFactoryFrame(c1, s2, k2);
    assert Get2(r, "extra", s1) == Get2(c1, "extra", s1);
    assert Get3(r, "extra", s1, k1) == Get3(c1, "extra", s1, k1);
    assert Get2(c1, "extra", s2) == Get2(c, "extra", s2);
    assert Get3(c1, "extra", s2, k2) == Get3(c, "extra", s2, k2);
  }

  /** `loadComposerHarmonyFile` fails on a parsed file exactly when one of
      the eight autoload sections is set and not an array. */
  lemma LoadConfigFails(config: Value, file: string, targetDir: string)
    requires WellFormed(config)
    ensures LoadConfig(Parsed(config), file, targetDir).Failure? <==>
      exists t, m :: t in AutoloadTypes && m in AutoloadModes && IsSet2(config, t, m) && !Get2(config, t, m).Arr?
  {
    DistinctNames();
    RewriteSectionsMeans(config, AutoloadTypes, AutoloadModes, targetDir, file);
  }

  /** Otherwise the eight sections are rewritten, and the other sections of
      `autoload` and `autoload-dev` are kept. */
  lemma LoadConfigAutoloads(config: Value, file: string, targetDir: string)
    requires WellFormed(config) && LoadConfig(Parsed(config), file, targetDir).Success?
    ensures var r := LoadConfig(Parsed(config), file, targetDir).value;
      && (forall t, m :: t in AutoloadTypes && m in AutoloadModes ==> Get2(r, t, m) == Rewritten(config, t, m, targetDir))
      && (forall t, m :: t in AutoloadTypes && m !in AutoloadModes ==> Get2(r, t, m) == Get2(config, t, m))
  {
    DistinctNames();
    var types, modes := AutoloadTypes, AutoloadModes;
    RewriteSectionsMeans(config, types, modes, targetDir, file);
    var c := RewriteAll(config, Pairs(types, modes), targetDir, file).value;
    var r := WrapFactory(WrapFactory(c, "container-interop", "container-factory"), "framework-interop", "module-factory");
    assert LoadConfig(Parsed(config), file, targetDir).value == r;
    WrapFactoriesMeans(c, "container-interop", "container-factory", "framework-interop", "module-factory");
    assert forall t :: t in types ==> t != "extra";
    assert forall t :: t in types ==> Get(r, t) == Get(c, t);
  }

  /** And the two factory sections are wrapped, while every other top-level
      key is kept as it was, in its place. */
  lemma LoadConfigFactories(config: Value, file: string, targetDir: string)
    requires WellFormed(config) && LoadConfig(Parsed(config), file, targetDir).Success?
    ensures var r := LoadConfig(Parsed(config), file, targetDir).value;
      && Get3(r, "extra", "container-interop", "container-factory") ==
           Wrapped(Get3(config, "extra", "container-interop", "container-factory"))
      && Get3(r, "extra", "framework-interop", "module-factory") ==
           Wrapped(Get3(config, "extra", "framework-interop", "module-factory"))
      && (forall k :: k !in AutoloadTypes && k != "extra" ==> Get(r, k) == Get(config, k))
      && (config.Arr? ==> r.Arr? && r.a.keys == config.a.keys)
  {
    DistinctNames();
    var types, modes := AutoloadTypes, AutoloadModes;
    RewriteSectionsMeans(config, types, modes, targetDir, file);
    var c := RewriteAll(config, Pairs(types, modes), targetDir, file).value;
    assert "extra" !in types;
    WrapFactoriesMeans(c, "container-interop", "container-factory", "framework-interop", "module-factory");
  }

  lemma {:induction false} RewriteAllAppend(config: Value, a: seq<(string, string)>, b: seq<(string, string)>, targetDir: string, file: string)
    requires WellFormed(config)
    ensures var s := RewriteAll(config, a, targetDir, file);
      RewriteAll(config, a + b, targetDir, file) ==
        if s.Failure? then Failure(s.error) else RewriteAll(s.value, b, targetDir, file)
    decreases |a|
  {
    if a == [] {
      assert a + b == b;
    } else {
      RewriteAllCons(config, a[0], a[1..] + b, targetDir, file);
      assert a + b == [a[0]] + (a[1..] + b);
      var s := RewriteSection(config, a[0].0, a[0].1, targetDir, file);
      if s.Success? {
        RewriteAllAppend(s.value, a[1..], b, targetDir, file);
      }
    }
  }

  /** The inner `foreach` of `loadComposerHarmonyFile`, for one autoload type. */
  method RewriteModes(config: Value, autoloadType: string, modes: seq<string>, targetDir: string, composerHarmonyFile: string)
    returns (r: Result<Value, PluginError>)
    requires WellFormed(config)
    ensures r == RewriteAll(config, ModePairs(autoloadType, modes), targetDir, composerHarmonyFile)
  {
    var localConfig := config;
    ghost var target := RewriteAll(config, ModePairs(autoloadType, modes), targetDir, composerHarmonyFile);
    var j := 0;
    assert modes[0..] == modes;
    while j < |modes|
      invariant 0 <= j <= |modes| && WellFormed(localConfig)
      invariant RewriteAll(localConfig, ModePairs(autoloadType, modes[j..]), targetDir, composerHarmonyFile) == target
    {
      var mode := modes[j];
      ghost var before := localConfig;
      assert ModePairs(autoloadType, modes[j..]) == [(autoloadType, mode)] + ModePairs(autoloadType, modes[j + 1..]) by {
        assert modes[j..][0] == mode && modes[j..][1..] == modes[j + 1..];
      }
      RewriteAllCons(before, (autoloadType, mode), ModePairs(autoloadType, modes[j + 1..]), targetDir, composerHarmonyFile);
      if IsSet2(localConfig, autoloadType, mode) {
        var autoload := Get(localConfig, autoloadType);
        var section := Get(autoload, mode);
        if !section.Arr? {
          return Failure(NotAnArray(composerHarmonyFile, autoloadType, mode));
        }
        GetWellFormed(localConfig, autoloadType);
        GetWellFormed(autoload, mode);
        localConfig := Set(localConfig, autoloadType, Set(autoload, mode, Arr(RewritePaths(targetDir, section.a))));
      }
      assert RewriteSection(before, autoloadType, mode, targetDir, composerHarmonyFile) == Success(localConfig);
      j := j + 1;
    }
    assert modes[j..] == [];
    return Success(localConfig);
  }

  /** The outer `foreach` of `loadComposerHarmonyFile`, over the autoload types. */
  method RewriteSections(config: Value, types: seq<string>, modes: seq<string>, targetDir: string, composerHarmonyFile: string)
    returns (r: Result<Value, PluginError>)
    requires WellFormed(config)
    ensures r == RewriteAll(config, Pairs(types, modes), targetDir, composerHarmonyFile)
  {
    var localConfig := config;
    ghost var target := RewriteAll(config, Pairs(types, modes), targetDir, composerHarmonyFile);
    var i := 0;
    assert types[0..] == types;
    while i < |types|
      invariant 0 <= i <= |types| && WellFormed(localConfig)
      invariant RewriteAll(localConfig, Pairs(types[i..], modes), targetDir, composerHarmonyFile) == target
    {
      var autoloadType := types[i];
      assert Pairs(types[i..], modes) == ModePairs(autoloadType, modes) + Pairs(types[i + 1..], modes) by {
        assert types[i..][0] == autoloadType && types[i..][1..] == types[i + 1..];
      }
      RewriteAllAppend(localConfig, ModePairs(autoloadType, modes), Pairs(types[i + 1..], modes), targetDir, composerHarmonyFile);
      var step := RewriteModes(localConfig, autoloadType, modes, targetDir, composerHarmonyFile);
      if step.Failure? {
        return Failure(step.error);
      }
      localConfig := step.value;
      i := i + 1;
    }
    assert types[i..] == [];
    return Success(localConfig);
  }

  /** `loadComposerHarmonyFile($composerHarmonyFile, $targetDir)`. */
  method LoadComposerHarmonyFile(read: ReadOutcome, composerHarmonyFile: string, targetDir: string)
    returns (r: Result<Value, PluginError>)
    requires read.Parsed? ==> WellFormed(read.config)
    ensures r == LoadConfig(read, composerHarmonyFile, targetDir)
  {
    if read.Unparsable? {
      return Failure(ParseFailed(composerHarmonyFile));
    }
    if read.SchemaViolation? {
      return Failure(SchemaInvalid(composerHarmonyFile));
    }
    var rewritten := RewriteSections(read.config, AutoloadTypes, AutoloadModes, targetDir, composerHarmonyFile);
    if rewritten.Failure? {
      return Failure(rewritten.error);
    }
    var localConfig := rewritten.value;
    localConfig := WrapFactory(localConfig, "container-interop", "container-factory");
    localConfig := WrapFactory(localConfig, "framework-interop", "module-factory");
    return Success(localConfig);
  }

  // ---------------------------------------------------------------------
  // processHarmonyDependencies

  const HarmonyDir := "vendor/harmony/harmony"
  const CoreFile := "vendor/harmony/harmony/composer-harmony-core.json"
  const TargetHarmonyFile := "composer-harmony-dependencies.json"
  const Autoinstaller := "framework-interop/module-autoinstaller"

  /** A package of the local repository, or the root package: `complete` is
      `instanceof CompletePackage`, `root` is `instanceof RootPackage`, and
      an unset target directory is "". */
  datatype Package = Package(name: string, targetDir: string, complete: bool, root: bool)

  /** The directory of a package, relative to the project: "" for the root
      package, `vendor/<name>/` otherwise, then its target directory. */
  function PackageDir(pkg: Package): string {
    (if pkg.root then "" else "vendor/" + pkg.name + "/") + (if Truthy(pkg.targetDir) then pkg.targetDir + "/" else "")
  }

  function HarmonyFileOf(pkg: Package): string {
    PackageDir(pkg) + "composer-harmony.json"
  }

  /** The paths of a package's file are rewritten relative to
      `vendor/harmony/harmony`, three levels below the project. */
  function PathPrefix(pkg: Package): string {
    "../../../" + PackageDir(pkg)
  }

  /** The project directory as the plugin sees it. `merge` is
      `array_merge_recursive`; `written` is whether `file_put_contents`
      returned a truthy byte count; `unlinked` whether `unlink` succeeded. */
  datatype Project = Project(
    isDir: string -> bool,
    fileExists: string -> bool,
    readable: string -> bool,
    writable: string -> bool,
    read: string -> ReadOutcome,
    merge: (Value, Value) -> Value,
    written: bool,
    unlinked: string -> bool)

  /** Decoded JSON is well formed. */
  ghost predicate Decodes(p: Project) {
    forall f :: p.read(f).Parsed? ==> WellFormed(p.read(f).config)
  }

  /** A package whose `composer-harmony.json` is loaded and merged. */
  predicate Contributes(p: Project, pkg: Package) {
    pkg.complete && p.fileExists(HarmonyFileOf(pkg)) && p.readable(HarmonyFileOf(pkg))
  }

  /** The `foreach ($packagesList as $package)` loop: each contributing
      package's file, loaded with its path prefix, is merged in order; the
      first file that fails to load stops everything. */
  function Gather(p: Project, packages: seq<Package>, global: Value): Result<Value, PluginError>
    requires Decodes(p)
    decreases |packages|
  {
    if packages == [] then Success(global)
    else
      var pkg := packages[0];
      if !Contributes(p, pkg) then Gather(p, packages[1..], global)
      else
        var data := LoadConfig(p.read(HarmonyFileOf(pkg)), HarmonyFileOf(pkg), PathPrefix(pkg));
        if data.Failure? then Failure(data.error)
        else Gather(p, packages[1..], p.merge(global, data.value))
  }

  /** The contributing packages, in order. */
  function Contributors(p: Project, packages: seq<Package>): (r: seq<Package>)
    ensures forall pkg :: pkg in r <==> pkg in packages && Contributes(p, pkg)
  {
    if packages == [] then []
    else if Contributes(p, packages[0]) then [packages[0]] + Contributors(p, packages[1..])
    else Contributors(p, packages[1..])
  }

  /** Packages that are not complete, or have no readable harmony file, play
      no part: the result is that of the contributors alone. */
  lemma {:induction false} GatherContributors(p: Project, packages: seq<Package>, global: Value)
    requires Decodes(p)
    ensures Gather(p, packages, global) == Gather(p, Contributors(p, packages), global)
    ensures (forall pkg :: pkg in packages ==> !Contributes(p, pkg)) ==> Gather(p, packages, global) == Success(global)
    decreases |packages|
  {
    if packages != [] {
      var pkg := packages[0];
      var cs := Contributors(p, packages);
      if Contributes(p, pkg) {
        assert cs[0] == pkg && cs[1..] == Contributors(p, packages[1..]);
        var data := LoadConfig(p.read(HarmonyFileOf(pkg)), HarmonyFileOf(pkg), PathPrefix(pkg));
        if data.Success? {
          GatherContributors(p, packages[1..], p.merge(global, data.value));
        }
      } else {
        GatherContributors(p, packages[1..], global);
        assert forall q :: q in packages[1..] ==> q in packages;
      }
    }
  }

  /** Every autoload path a dependency contributes points into its own
      directory, seen from `vendor/harmony/harmony`. */
  lemma DependencyPathsPrefixed(pkg: Package, section: OMap<Key, Value>, k: Key)
    requires !pkg.root
    requires Valid(section) && forall k :: k in section.values ==> WellFormed(section.values[k])
    requires k in section.values
    ensures var w := RewritePaths(PathPrefix(pkg), section).values[k];
            && w.Arr?
            && forall j :: j in w.a.values ==> StartsWith(w.a.values[j].s, "../../../vendor/" + pkg.name + "/")
  {
    RewrittenPathsStartWith(PathPrefix(pkg), section, k);
    var w := RewritePaths(PathPrefix(pkg), section).values[k];
    var pre := "../../../vendor/" + pkg.name + "/";
    var sub := if Truthy(pkg.targetDir) then pkg.targetDir + "/" else "";
    assert PathPrefix(pkg) == pre + sub;
    forall j | j in w.a.values ensures StartsWith(w.a.values[j].s, pre) {
      StartsWithShorter(w.a.values[j].s, pre, sub);
    }
  }

  /** The section taken from `composer-harmony-core.json`: its
      `extra.framework-interop` entry (null when missing), and a requirement
      on the module autoinstaller. */
  function CoreSection(composerHarmony: Value): (r: Value)
    ensures r.Arr? && r.a.keys == [StrKey("extra"), StrKey("require")]
    ensures Get(r, "extra").Arr? && Get(r, "extra").a.keys == [StrKey("framework-interop")]
    ensures Get2(r, "extra", "framework-interop") == Get2(composerHarmony, "extra", "framework-interop")
    ensures Get(r, "require").Arr? && Get(r, "require").a.keys == [StrKey(Autoinstaller)]
    ensures Get2(r, "require", Autoinstaller) == Text("~1.0")
  {
    var extra := Arr(OMap([StrKey("framework-interop")],
                          map[StrKey("framework-interop") := Get2(composerHarmony, "extra", "framework-interop")]));
    var require := Arr(OMap([StrKey(Autoinstaller)], map[StrKey(Autoinstaller) := Text("~1.0")]));
    Arr(OMap([StrKey("extra"), StrKey("require")], map[StrKey("extra") := extra, StrKey("require") := require]))
  }

  /** Merging the core section, when `composer-harmony-core.json` exists. */
  function WithCore(p: Project, global: Value): Result<Value, PluginError>
    requires Decodes(p)
  {
    if !p.fileExists(CoreFile) then Success(global)
    else
      var core := LoadConfig(p.read(CoreFile), CoreFile, "");
      if core.Failure? then Failure(core.error) else Success(p.merge(global, CoreSection(core.value)))
  }

  /** What the plugin does to the world, in order. */
  datatype Effect =
    | Say(line: string)                       // a line written to the console
    | WriteJson(file: string, config: Value)  // file_put_contents of json_encode
    | RunConsole(dir: string, command: string) // passthru in that directory
    | Delete(file: string)                    // unlink

  /** The effects of a run, and the exception that ended it, if any. */
  datatype Run = Run(effects: seq<Effect>, error: Option<PluginError>)

  /** The lock file name as written: `substr($targetHarmonyFile, 0 -4)` is
      `substr(…, -4)`, the last four characters. */
  function LockFileAsWritten(target: string): string {
    SubstrFromEnd(target, 4) + ".lock"
  }

  /** The lock file the counterpart of the dependencies file evidently
      means: the same name with `.lock` in place of `.json`. */
  function LockFile(target: string): (r: string)
    ensures EndsWith(r, ".lock")
  {
    if EndsWith(target, ".json") then target[..|target| - 5] + ".lock" else target + ".lock"
  }

  lemma LockFileSibling(base: string)
    ensures LockFile(base + ".json") == base + ".lock"
  {
    assert EndsWith(base + ".json", ".json");
    assert (base + ".json")[..|base|] == base;
  }

  /** The lock file as written is `json.lock`, not the lock file of
      `composer-harmony-dependencies.json`. */
  lemma LockFileMisnamed()
    ensures LockFileAsWritten(TargetHarmonyFile) == "json.lock"
    ensures LockFile(TargetHarmonyFile) == "composer-harmony-dependencies.lock"
    ensures LockFileAsWritten(TargetHarmonyFile) != LockFile(TargetHarmonyFile)
  {
    LockFileSibling("composer-harmony-dependencies");
    assert TargetHarmonyFile == "composer-harmony-dependencies" + ".json";
    assert TargetHarmonyFile[|TargetHarmonyFile| - 4..] == "json";
  }

  function CannotWriteFile(file: string): string {
    "<error>Error, unable to write file '" + file + "'. Please check file-permissions.</error>"
  }

  function CannotWriteDirectory(dir: string): string {
    "<error>Error, unable to write a file in directory '" + dir + "'. Please check file-permissions.</error>"
  }

  function NothingToDo(action: string): string {
    "<info>No harmony dependencies to " + action + "</info>"
  }

  /** Unlinking `file` if it exists, after `effects`. */
  function DeleteIfExists(p: Project, effects: seq<Effect>, file: string): Run {
    if !p.fileExists(file) then Run(effects, None)
    else if p.unlinked(file) then Run(effects + [Delete(file)], None)
    else Run(effects + [Delete(file)], Some(DeleteFailed(file)))
  }

  lemma DeleteIfExistsEffects(p: Project, effects: seq<Effect>, file: string)
    ensures var r := DeleteIfExists(p, effects, file);
      && (forall e :: e in r.effects ==> e in effects || (e == Delete(file) && p.fileExists(file)))
      && (Delete(file) in r.effects <==> Delete(file) in effects || p.fileExists(file))
      && (r.error.Some? ==> r.error == Some(DeleteFailed(file)))
      && |r.effects| >= |effects| && r.effects[..|effects|] == effects
  {
  }

  /** What happens once the configuration is gathered: the two write checks
      on `target`, then writing it and running the harmony console, or, when
      there is nothing to write, removing the old file and `lockFile`. */
  function FinishWith(p: Project, global: Value, action: string, target: string, lockFile: string): Run {
    if p.fileExists(target) && !p.writable(target) then Run([Say(CannotWriteFile(target))], None)
    else if !p.fileExists(target) && !p.writable(FileService.Dirname(target)) then
      Run([Say(CannotWriteDirectory(FileService.Dirname(target)))], None)
    else if IsTruthy(global) then
      if !p.written then Run([WriteJson(target, global)], Some(WriteFailed(target)))
      else Run([WriteJson(target, global), RunConsole(HarmonyDir, "console.php composer:" + action)], None)
    else
      var first := DeleteIfExists(p, [Say(NothingToDo(action))], target);
      if first.error.Some? then first else DeleteIfExists(p, first.effects, lockFile)
  }

  /** The end of the run as written: the lock file removed is
      `LockFileAsWritten(target)`. */
  function Finish(p: Project, global: Value, action: string, target: string): Run {
    FinishWith(p, global, action, target, LockFileAsWritten(target))
  }

  /** The end of the run as evidently intended, removing the lock file that
      belongs to `target`. */
  function FinishIntended(p: Project, global: Value, action: string, target: string): Run {
    FinishWith(p, global, action, target, LockFile(target))
  }

  /** `processHarmonyDependencies($event, $action)`. */
  function Process(p: Project, packages: seq<Package>, action: string): Run
    requires Decodes(p)
  {
    if !p.isDir(HarmonyDir) then Run([], None)
    else
      var gathered := Gather(p, packages, Arr(Empty()));
      if gathered.Failure? then Run([], Some(gathered.error))
      else
        var global := WithCore(p, gathered.value);
        if global.Failure? then Run([], Some(global.error))
        else Finish(p, global.value, action, TargetHarmonyFile)
  }

  /** A JSON file name without a directory part, as the target is. */
  predicate PlainJsonName(target: string) {
    target != "" && '/' !in target && EndsWith(target, ".json")
  }

  lemma TargetIsPlain()
    ensures PlainJsonName(TargetHarmonyFile)
  {
    assert TargetHarmonyFile == "composer-harmony-dependencies" + ".json";
  }

  /** Both lock file names of a plain JSON name differ from it, and the
      name lives in the current directory. */
  lemma LockFileBeside(target: string)
    requires PlainJsonName(target)
    ensures LockFile(target) != target
    ensures LockFileAsWritten(target) != target
    ensures FileService.Dirname(target) == "."
  {
    FileService.DirnameOfName(target);
    var l := LockFile(target);
    assert l[|l| - 5..] == ".lock" && target[|target| - 5..] == ".json";
    assert l[|l| - 1] != target[|target| - 1];
    var w := LockFileAsWritten(target);
    assert w[|w| - 1] == 'k' && target[|target| - 1] == 'n';
  }

  /** For any lock file, the configuration is written only when it is not
      empty, only to the target, and only after both write checks on the
      target and its directory passed. */
  lemma WritesChecked(p: Project, global: Value, action: string, target: string, lockFile: string)
    ensures var r := FinishWith(p, global, action, target, lockFile);
      forall e :: e in r.effects && e.WriteJson? ==>
        && e == WriteJson(target, global) && IsTruthy(global)
        && (p.fileExists(target) ==> p.writable(target))
        && (!p.fileExists(target) ==> p.writable(FileService.Dirname(target)))
  {
    var r := FinishWith(p, global, action, target, lockFile);
    var dir := FileService.Dirname(target);
    if p.fileExists(target) && !p.writable(target) {
      assert r.effects == [Say(CannotWriteFile(target))];
    } else if !p.fileExists(target) && !p.writable(dir) {
      assert r.effects == [Say(CannotWriteDirectory(dir))];
    } else if !IsTruthy(global) {
      var said := [Say(NothingToDo(action))];
      DeleteIfExistsEffects(p, said, target);
      DeleteIfExistsEffects(p, DeleteIfExists(p, said, target).effects, lockFile);
      assert forall e :: e in r.effects ==> !e.WriteJson?;
    }
  }

  /** The configuration is written only when it is not empty, only to the
      target, and only after both write checks passed. */
  lemma FinishWritesChecked(p: Project, global: Value, action: string, target: string)
    requires PlainJsonName(target)
    ensures var r := Finish(p, global, action, target);
      forall e :: e in r.effects && e.WriteJson? ==>
        && e == WriteJson(target, global) && IsTruthy(global)
        && (p.fileExists(target) ==> p.writable(target))
        && (!p.fileExists(target) ==> p.writable("."))
  {
    FileService.DirnameOfName(target);
    WritesChecked(p, global, action, target, LockFileAsWritten(target));
  }

  /** The harmony console runs only after a successful write, and then the
      run is exactly the write followed by the console command. */
  lemma FinishConsoleAfterWrite(p: Project, global: Value, action: string, target: string)
    ensures var r := Finish(p, global, action, target);
      forall e :: e in r.effects && e.RunConsole? ==>
        && p.written && r.error.None?
        && r.effects == [WriteJson(target, global), RunConsole(HarmonyDir, "console.php composer:" + action)]
  {
    ConsoleAfterWrite(p, global, action, target, LockFileAsWritten(target));
  }

  /** The same, whichever lock file is removed. */
  lemma ConsoleAfterWrite(p: Project, global: Value, action: string, target: string, lockFile: string)
    ensures var r := FinishWith(p, global, action, target, lockFile);
      forall e :: e in r.effects && e.RunConsole? ==>
        && p.written && r.error.None?
        && r.effects == [WriteJson(target, global), RunConsole(HarmonyDir, "console.php composer:" + action)]
  {
    var r := FinishWith(p, global, action, target, lockFile);
    var dir := FileService.Dirname(target);
    if p.fileExists(target) && !p.writable(target) {
      assert r.effects == [Say(CannotWriteFile(target))];
    } else if !p.fileExists(target) && !p.writable(dir) {
      assert r.effects == [Say(CannotWriteDirectory(dir))];
    } else if !IsTruthy(global) {
      var said := [Say(NothingToDo(action))];
      DeleteIfExistsEffects(p, said, target);
      DeleteIfExistsEffects(p, DeleteIfExists(p, said, target).effects, lockFile);
      assert forall e :: e in r.effects ==> !e.RunConsole?;
    }
  }

  /** The only files deleted are the existing target and its lock file, and
      only when there is nothing to write; the only exceptions are a failed
      write of the target and a failed deletion. */
  lemma FinishDeletes(p: Project, global: Value, action: string, target: string)
    requires PlainJsonName(target)
    ensures var r := Finish(p, global, action, target);
      && (forall e :: e in r.effects && e.Delete? ==>
            && !IsTruthy(global) && p.fileExists(e.file)
            && (e.file == target || e.file == LockFileAsWritten(target)))
      && (r.error.Some? ==> r.error == Some(WriteFailed(target)) || r.error.value.DeleteFailed?)
  {
    LockFileBeside(target);
    var r := Finish(p, global, action, target);
    if p.fileExists(target) && !p.writable(target) {
      assert r.effects == [Say(CannotWriteFile(target))];
    } else if !p.fileExists(target) && !p.writable(".") {
      assert r.effects == [Say(CannotWriteDirectory("."))];
    } else if IsTruthy(global) {
      assert forall e :: e in r.effects ==> !e.Delete?;
    } else {
      EmptyDeletes(p, action, target, LockFileAsWritten(target));
    }
  }

  /** The removals for an empty configuration delete only existing files,
      the target and then the lock file. */
  lemma EmptyDeletes(p: Project, action: string, target: string, lockFile: string)
    ensures var first := DeleteIfExists(p, [Say(NothingToDo(action))], target);
      var r := if first.error.Some? then first else DeleteIfExists(p, first.effects, lockFile);
      && (forall e :: e in r.effects && e.Delete? ==> p.fileExists(e.file) && (e.file == target || e.file == lockFile))
      && (r.error.Some? ==> r.error.value.DeleteFailed?)
  {
    var said := [Say(NothingToDo(action))];
    var first := DeleteIfExists(p, said, target);
    DeleteIfExistsEffects(p, said, target);
    DeleteIfExistsEffects(p, first.effects, lockFile);
  }

  /** When both write checks pass, a non-empty configuration is written
      first; an empty one leads to the removal of whichever of the target
      and its lock file exist. */
  lemma FinishWrites(p: Project, global: Value, action: string, target: string)
    requires PlainJsonName(target)
    requires !p.fileExists(target) || p.writable(target)
    requires p.fileExists(target) || p.writable(".")
    ensures var r := Finish(p, global, action, target);
      && (IsTruthy(global) ==> r.effects[0] == WriteJson(target, global) && (r.error.None? <==> p.written))
      && (!IsTruthy(global) ==> r.effects[0] == Say(NothingToDo(action)))
      && (!IsTruthy(global) && r.error.None? ==>
            && (Delete(target) in r.effects <==> p.fileExists(target))
            && (Delete(LockFileAsWritten(target)) in r.effects <==> p.fileExists(LockFileAsWritten(target))))
  {
    LockFileBeside(target);
    var lockFile := LockFileAsWritten(target);
    assert Finish(p, global, action, target) == FinishWith(p, global, action, target, lockFile);
    if !IsTruthy(global) {
      var said := [Say(NothingToDo(action))];
      DeleteIfExistsEffects(p, said, target);
      var first := DeleteIfExists(p, said, target);
      DeleteIfExistsEffects(p, first.effects, lockFile);
    }
  }

  /** As written, an empty configuration removes `json.lock` when it exists
      and never the lock file of `composer-harmony-dependencies.json`. */
  lemma EmptyRemovesJsonLock(p: Project, action: string)
    requires !p.fileExists(TargetHarmonyFile) || p.writable(TargetHarmonyFile)
    requires p.fileExists(TargetHarmonyFile) || p.writable(".")
    requires !p.fileExists(TargetHarmonyFile) || p.unlinked(TargetHarmonyFile)
    ensures var r := Finish(p, Null, action, TargetHarmonyFile);
      && (Delete("json.lock") in r.effects <==> p.fileExists("json.lock"))
      && Delete("composer-harmony-dependencies.lock") !in r.effects
  {
    TargetIsPlain();
    LockFileBeside(TargetHarmonyFile);
    LockFileMisnamed();
    var sibling := LockFile(TargetHarmonyFile);
    assert sibling != TargetHarmonyFile && sibling != LockFileAsWritten(TargetHarmonyFile);
    EmptyRemovesLock(p, action, TargetHarmonyFile, LockFileAsWritten(TargetHarmonyFile));
  }

  /** For any lock file, once both write checks pass and the target can be
      removed, an empty configuration removes the lock file exactly when it
      exists, and removes nothing but the target and the lock file. */
  lemma EmptyRemovesLock(p: Project, action: string, target: string, lockFile: string)
    requires !p.fileExists(target) || p.writable(target)
    requires p.fileExists(target) || p.writable(FileService.Dirname(target))
    requires !p.fileExists(target) || p.unlinked(target)
    ensures var r := FinishWith(p, Null, action, target, lockFile);
      && (Delete(lockFile) in r.effects <==> p.fileExists(lockFile))
      && (forall e :: e in r.effects && e.Delete? ==> e.file == target || e.file == lockFile)
  {
    var said := [Say(NothingToDo(action))];
    var first := DeleteIfExists(p, said, target);
    DeleteIfExistsEffects(p, said, target);
    DeleteIfExistsEffects(p, first.effects, lockFile);
    assert first.error.None?;
  }

  /** The intended end of the run removes the lock file beside
      `base.json`, when it exists, for an empty configuration. */
  lemma IntendedRemovesSiblingLock(p: Project, action: string, base: string)
    requires PlainJsonName(base + ".json")
    requires !p.fileExists(base + ".json") || p.writable(base + ".json")
    requires p.fileExists(base + ".json") || p.writable(".")
    requires !p.fileExists(base + ".json") || p.unlinked(base + ".json")
    ensures var r := FinishIntended(p, Null, action, base + ".json");
      && (Delete(base + ".lock") in r.effects <==> p.fileExists(base + ".lock"))
      && (forall e :: e in r.effects && e.Delete? ==> e.file == base + ".json" || e.file == base + ".lock")
  {
    var target := base + ".json";
    LockFileBeside(target);
    LockFileSibling(base);
    EmptyRemovesLock(p, action, target, LockFile(target));
  }

  /** A failing write check reports on the console and changes nothing. */
  lemma FinishRefuses(p: Project, global: Value, action: string, target: string)
    requires PlainJsonName(target)
    ensures p.fileExists(target) && !p.writable(target) ==>
      Finish(p, global, action, target) == Run([Say(CannotWriteFile(target))], None)
    ensures !p.fileExists(target) && !p.writable(".") ==>
      Finish(p, global, action, target) == Run([Say(CannotWriteDirectory("."))], None)
  {
    LockFileBeside(target);
  }

  /** Outside a harmony project nothing happens; a file that fails to load
      stops the run before anything is written; otherwise the run is the
      decision on the gathered configuration. */
  lemma ProcessStages(p: Project, packages: seq<Package>, action: string)
    requires Decodes(p)
    ensures !p.isDir(HarmonyDir) ==> Process(p, packages, action) == Run([], None)
    ensures var r := Process(p, packages, action);
      r.error.Some? && (r.error.value.ParseFailed? || r.error.value.SchemaInvalid? || r.error.value.NotAnArray?) ==>
        r.effects == []
    ensures var r := Process(p, packages, action);
      r.effects != [] ==>
        && p.isDir(HarmonyDir)
        && Gather(p, packages, Arr(Empty())).Success?
        && WithCore(p, Gather(p, packages, Arr(Empty())).value).Success?
        && r == Finish(p, WithCore(p, Gather(p, packages, Arr(Empty())).value).value, action, TargetHarmonyFile)
  {
    if p.isDir(HarmonyDir) {
      var g := Gather(p, packages, Arr(Empty()));
      if g.Success? && WithCore(p, g.value).Success? {
        TargetIsPlain();
        FinishDeletes(p, WithCore(p, g.value).value, action, TargetHarmonyFile);
      }
    }
  }

  /** `processHarmonyDependencies($event, $action)`: the installed packages
      followed by the root package. */
  method ProcessHarmonyDependencies(p: Project, installed: seq<Package>, rootPackage: Package, action: string)
    returns (run: Run)
    requires Decodes(p)
    ensures run == Process(p, installed + [rootPackage], action)
  {
    if !p.isDir(HarmonyDir) {
      return Run([], None);
    }
    var packagesList := installed + [rootPackage];
    var globalHarmonyComposer := Arr(Empty());
    var i := 0;
    assert packagesList[0..] == packagesList;
    while i < |packagesList|
      invariant 0 <= i <= |packagesList|
      invariant Gather(p, packagesList[i..], globalHarmonyComposer) == Gather(p, packagesList, Arr(Empty()))
    {
      var package := packagesList[i];
      assert packagesList[i..][0] == package && packagesList[i..][1..] == packagesList[i + 1..];
      if package.complete {
        var targetDir := if package.root then "" else "vendor/" + package.name + "/";
        if Truthy(package.targetDir) {
          targetDir := targetDir + package.targetDir + "/";
        }
        var composerFile := targetDir + "composer-harmony.json";
        assert targetDir == PackageDir(package) && composerFile == HarmonyFileOf(package);
        if p.fileExists(composerFile) && p.readable(composerFile) {
          var harmonyData := LoadComposerHarmonyFile(p.read(composerFile), composerFile, "../../../" + targetDir);
          if harmonyData.Failure? {
            return Run([], Some(harmonyData.error));
          }
          globalHarmonyComposer := p.merge(globalHarmonyComposer, harmonyData.value);
        }
      }
      i := i + 1;
    }
    assert packagesList[i..] == [];

    if p.fileExists(CoreFile) {
      var composerHarmony := LoadComposerHarmonyFile(p.read(CoreFile), CoreFile, "");
      if composerHarmony.Failure? {
        return Run([], Some(composerHarmony.error));
      }
      globalHarmonyComposer := p.merge(globalHarmonyComposer, CoreSection(composerHarmony.value));
    }

    run := WriteDependencies(p, globalHarmonyComposer, action, TargetHarmonyFile);
  }

  /** The end of `processHarmonyDependencies`, once the configuration is
      gathered, for the target file it names. */
  method WriteDependencies(p: Project, globalHarmonyComposer: Value, action: string, targetHarmonyFile: string)
    returns (run: Run)
    ensures run == Finish(p, globalHarmonyComposer, action, targetHarmonyFile)
  {
    if p.fileExists(targetHarmonyFile) && !p.writable(targetHarmonyFile) {
      return Run([Say(CannotWriteFile(targetHarmonyFile))], None);
    }
    if !p.fileExists(targetHarmonyFile) && !p.writable(FileService.Dirname(targetHarmonyFile)) {
      return Run([Say(CannotWriteDirectory(FileService.Dirname(targetHarmonyFile)))], None);
    }
    if IsTruthy(globalHarmonyComposer) {
      var effects := [WriteJson(targetHarmonyFile, globalHarmonyComposer)];
      if !p.written {
        return Run(effects, Some(WriteFailed(targetHarmonyFile)));
      }
      return Run(effects + [RunConsole(HarmonyDir, "console.php composer:" + action)], None);
    }
    var effects := [Say(NothingToDo(action))];
    ghost var first := DeleteIfExists(p, effects, targetHarmonyFile);
    if p.fileExists(targetHarmonyFile) {
      effects := effects + [Delete(targetHarmonyFile)];
      if !p.unlinked(targetHarmonyFile) {
        return Run(effects, Some(DeleteFailed(targetHarmonyFile)));
      }
    }
    assert first == Run(effects, None);
    var lockFile := LockFileAsWritten(targetHarmonyFile);
    assert Finish(p, globalHarmonyComposer, action, targetHarmonyFile)
        == DeleteIfExists(p, effects, lockFile);
    if p.fileExists(lockFile) {
      effects := effects + [Delete(lockFile)];
      if !p.unlinked(lockFile) {
        return Run(effects, Some(DeleteFailed(lockFile)));
      }
    }
    return Run(effects, None);
  }

  // ---------------------------------------------------------------------
  // generateClassMapCache

  /** What stops the cache generation. */
  datatype CacheError =
    | AnalysisError(cause: ClassExplorer.ExplorerError)
    | CacheNotWritable(reason: FileService.FileError)
    | ReflectionError(message: string)
    | OldClassMapUnreadable(file: string)

  /** The directory of the two cache files. */
  function GeneratedDir(vendorPath: string): string {
    vendorPath + "/harmony/harmony/generated"
  }

  const ClassMapName: string := "vendorClassMap.php"
  const ReflectionName: string := "vendorReflectionData.php"

  function ClassMapFile(vendorPath: string): string {
    GeneratedDir(vendorPath) + "/" + ClassMapName
  }

  function ReflectionFile(vendorPath: string): string {
    GeneratedDir(vendorPath) + "/" + ReflectionName
  }

  /** The files written, in order, among the actions. */
  function Dumps(actions: seq<FileService.Action>): seq<FileService.Action> {
    if actions == [] then []
    else (if actions[0].DumpFile? then [actions[0]] else []) + Dumps(actions[1..])
  }

  lemma {:induction false} DumpsAppend(a: seq<FileService.Action>, b: seq<FileService.Action>)
    ensures Dumps(a + b) == Dumps(a) + Dumps(b)
  {
    if a == [] {
      assert a + b == b;
    } else {
      assert (a + b)[0] == a[0] && (a + b)[1..] == a[1..] + b;
      DumpsAppend(a[1..], b);
    }
  }

  /** Writing one file dumps exactly that file. */
  lemma DumpsOfWritten(fs: FileService.FileSystem, file: string, content: string)
    ensures Dumps(FileService.Written(fs, file, content)) == [FileService.DumpFile(file, content)]
  {
    var d := FileService.Dirname(file);
    var dump := FileService.DumpFile(file, content);
    assert Dumps([dump]) == [dump] + Dumps([]);
    if !fs.isDir(d) {
      var w := [FileService.MakeDir(d, 0x1fd), dump];
      assert w[1..] == [dump];
      assert Dumps(w) == [] + Dumps([dump]);
    }
  }

  /** The inputs `generateClassMapCache` works on: the dependencies' class
      map, a worker that keeps to its protocol, an acyclic hierarchy, and a
      file system with a root and a current directory. */
  ghost predicate CacheInputs(c: ClassMapService.Composer, fs: FileService.FileSystem,
                              worker: ClassExplorer.ClassMap -> string, h: ReflectionExporter.Hierarchy) {
    && ClassExplorer.ClassNames(ClassMapService.ClassMapOf(c, ClassMapService.ModeDependenciesClasses))
    && ClassExplorer.WellBehaved(worker)
    && ReflectionExporter.Acyclic(h)
    && fs.fileExists("/") && fs.fileExists(".")
  }

  /** The analysis of the dependencies' class map. */
  ghost function CacheAnalysis(c: ClassMapService.Composer, worker: ClassExplorer.ClassMap -> string)
    : (r: Result<ClassExplorer.Analysis, ClassExplorer.ExplorerError>)
    requires ClassExplorer.ClassNames(ClassMapService.ClassMapOf(c, ClassMapService.ModeDependenciesClasses))
    requires ClassExplorer.WellBehaved(worker)
    ensures r.Success? ==> Valid(r.value.classMap)
  {
    var classMap := ClassMapService.ClassMapOf(c, ClassMapService.ModeDependenciesClasses);
    ClassExplorer.PassesPartition(classMap, Empty(), worker);
    ClassExplorer.Passes(classMap, Empty(), worker)
  }

  /** The reflection worker's run on the classes that passed the analysis. */
  ghost function ReflectionRun(results: ClassExplorer.Analysis, h: ReflectionExporter.Hierarchy,
                               run: ReflectionExporter.ReflectionData -> ReflectionExporter.ProcessOutput,
                               decode: string -> Value): Result<Value, string>
    requires ReflectionExporter.Acyclic(h) && Valid(results.classMap)
  {
    ReflectionExporter.RunReflectionExporter(run(ReflectionExporter.HierarchyData(h, results.classMap)), decode)
  }

  /** The actions once the analysis succeeded, in order, and how the
      generation ends: the analysis is written first, then the reflection
      data of the classes that passed it, against the file system the first
      write left behind; a failing step stops the ones after it. */
  ghost function CacheWrites(classMapFile: string, reflectionFile: string, fs: FileService.FileSystem, results: ClassExplorer.Analysis,
                             exportAnalysis: ClassExplorer.Analysis -> string, h: ReflectionExporter.Hierarchy,
                             run: ReflectionExporter.ReflectionData -> ReflectionExporter.ProcessOutput,
                             decode: string -> Value, exportValue: Value -> string)
    : (seq<FileService.Action>, Result<(), CacheError>)
    requires fs.fileExists("/") && fs.fileExists(".")
    requires ReflectionExporter.Acyclic(h) && Valid(results.classMap)
  {
    var first := FileService.WriteIssues(fs, classMapFile);
    if first.Fail? then ([], Failure(CacheNotWritable(first.error)))
    else
      var written := FileService.Written(fs, classMapFile, FileService.PhpExportTextAsWritten(exportAnalysis(results), ""));
      var data := ReflectionRun(results, h, run, decode);
      if data.Failure? then (written, Failure(ReflectionError(data.error)))
      else
        var after := FileService.Apply(fs, written);
        var second := FileService.WriteIssues(after, reflectionFile);
        if second.Fail? then (written, Failure(CacheNotWritable(second.error)))
        else (written + FileService.Written(after, reflectionFile, FileService.PhpExportTextAsWritten(exportValue(data.value), "")),
              Success(()))
  }

  /** The whole generation: an existing class map cache is included first,
      and when that fails the run stops there; nothing is written when the
      analysis fails. `oldClassMapLoads` is whether PHP can include the
      existing file. */
  ghost function CacheOutcome(c: ClassMapService.Composer, vendorPath: string, fs: FileService.FileSystem, oldClassMapLoads: bool,
                              worker: ClassExplorer.ClassMap -> string, exportAnalysis: ClassExplorer.Analysis -> string,
                              h: ReflectionExporter.Hierarchy,
                              run: ReflectionExporter.ReflectionData -> ReflectionExporter.ProcessOutput,
                              decode: string -> Value, exportValue: Value -> string)
    : (seq<FileService.Action>, Result<(), CacheError>)
    requires CacheInputs(c, fs, worker, h)
  {
    if fs.fileExists(ClassMapFile(vendorPath)) && !oldClassMapLoads then
      ([], Failure(OldClassMapUnreadable(ClassMapFile(vendorPath))))
    else
      var results := CacheAnalysis(c, worker);
      if results.Failure? then ([], Failure(AnalysisError(results.error)))
      else CacheWrites(ClassMapFile(vendorPath), ReflectionFile(vendorPath), fs, results.value, exportAnalysis, h, run, decode, exportValue)
  }

  /** The files dumped: the analysis, then the reflection data, each as the
      text `writePhpExportFile` builds; a failing reflection run leaves only
      the first, a failing first check none. */
  lemma CacheWritesDumps(classMapFile: string, reflectionFile: string, fs: FileService.FileSystem, results: ClassExplorer.Analysis,
                         exportAnalysis: ClassExplorer.Analysis -> string, h: ReflectionExporter.Hierarchy,
                         run: ReflectionExporter.ReflectionData -> ReflectionExporter.ProcessOutput,
                         decode: string -> Value, exportValue: Value -> string)
    requires fs.fileExists("/") && fs.fileExists(".")
    requires ReflectionExporter.Acyclic(h) && Valid(results.classMap)
    ensures var (actions, r) := CacheWrites(classMapFile, reflectionFile, fs, results, exportAnalysis, h, run, decode, exportValue);
      var data := ReflectionRun(results, h, run, decode);
      var first := FileService.DumpFile(classMapFile, FileService.PhpExportTextAsWritten(exportAnalysis(results), ""));
      && (FileService.WriteIssues(fs, classMapFile).Fail? ==> actions == [])
      && (FileService.WriteIssues(fs, classMapFile).Pass? && data.Failure? ==>
            Dumps(actions) == [first] && r == Failure(ReflectionError(data.error)))
      && (r.Success? ==>
            Dumps(actions) == [first, FileService.DumpFile(reflectionFile, FileService.PhpExportTextAsWritten(exportValue(data.value), ""))])
  {
    var text := FileService.PhpExportTextAsWritten(exportAnalysis(results), "");
    var written := FileService.Written(fs, classMapFile, text);
    DumpsOfWritten(fs, classMapFile, text);
    var data := ReflectionRun(results, h, run, decode);
    if FileService.WriteIssues(fs, classMapFile).Pass? && data.Success? {
      var after := FileService.Apply(fs, written);
      var text2 := FileService.PhpExportTextAsWritten(exportValue(data.value), "");
      DumpsOfWritten(after, reflectionFile, text2);
      DumpsAppend(written, FileService.Written(after, reflectionFile, text2));
    }
  }

  /** Two cache files in one directory: the second write finds the
      directory the first one prepared, so `mkdir` happens at most once, and
      only when the directory was missing. */
  lemma SharedDirectoryMadeOnce(classMapFile: string, reflectionFile: string, fs: FileService.FileSystem, results: ClassExplorer.Analysis,
                                exportAnalysis: ClassExplorer.Analysis -> string, h: ReflectionExporter.Hierarchy,
                                run: ReflectionExporter.ReflectionData -> ReflectionExporter.ProcessOutput,
                                decode: string -> Value, exportValue: Value -> string)
    requires fs.fileExists("/") && fs.fileExists(".")
    requires ReflectionExporter.Acyclic(h) && Valid(results.classMap)
    requires FileService.Dirname(reflectionFile) == FileService.Dirname(classMapFile)
    requires classMapFile != FileService.Dirname(classMapFile)
    requires CacheWrites(classMapFile, reflectionFile, fs, results, exportAnalysis, h, run, decode, exportValue).1.Success?
    ensures var dir := FileService.Dirname(classMapFile);
      CacheWrites(classMapFile, reflectionFile, fs, results, exportAnalysis, h, run, decode, exportValue).0
      == (if fs.isDir(dir) then [] else [FileService.MakeDir(dir, 0x1fd)])
         + [FileService.DumpFile(classMapFile, FileService.PhpExportTextAsWritten(exportAnalysis(results), "")),
            FileService.DumpFile(reflectionFile, FileService.PhpExportTextAsWritten(exportValue(ReflectionRun(results, h, run, decode).value), ""))]
  {
    var dir := FileService.Dirname(classMapFile);
    var text := FileService.PhpExportTextAsWritten(exportAnalysis(results), "");
    var written := FileService.Written(fs, classMapFile, text);
    FileService.WrittenSettles(fs, classMapFile, text);
    var after := FileService.Apply(fs, written);
    assert after.isDir(dir);
    var text2 := FileService.PhpExportTextAsWritten(exportValue(ReflectionRun(results, h, run, decode).value), "");
    assert FileService.Written(after, reflectionFile, text2) == [FileService.DumpFile(reflectionFile, text2)];
  }

  /** A file named directly below the generated directory lies in it. */
  lemma GeneratedChild(vendorPath: string, name: string)
    requires name != "" && '/' !in name
    ensures FileService.Dirname(GeneratedDir(vendorPath) + "/" + name) == GeneratedDir(vendorPath)
    ensures GeneratedDir(vendorPath) + "/" + name != GeneratedDir(vendorPath)
  {
    var dir := GeneratedDir(vendorPath);
    assert dir[|dir| - 1] == 'd';
    FileService.DirnameOfChild(dir, name);
  }

  /** The two cache files share `<vendor>/harmony/harmony/generated`. */
  lemma CacheFilesShareDirectory(vendorPath: string)
    ensures FileService.Dirname(ClassMapFile(vendorPath)) == GeneratedDir(vendorPath)
    ensures FileService.Dirname(ReflectionFile(vendorPath)) == GeneratedDir(vendorPath)
    ensures ClassMapFile(vendorPath) != GeneratedDir(vendorPath)
    ensures ReflectionFile(vendorPath) != GeneratedDir(vendorPath)
  {
    CacheFileNames();
    GeneratedChild(vendorPath, ClassMapName);
    GeneratedChild(vendorPath, ReflectionName);
  }

  lemma CacheFileNames()
    ensures '/' !in ClassMapName && '/' !in ReflectionName && ClassMapName != "" && ReflectionName != ""
  {
    assert forall k :: 0 <= k < 18 ==> ClassMapName[k] != '/';
    assert forall k :: 0 <= k < 24 ==> ReflectionName[k] != '/';
  }

  /** A successful generation leaves the class map cache on disk, so the
      next generation includes it before anything else. */
  lemma GenerationLeavesClassMap(c: ClassMapService.Composer, vendorPath: string, fs: FileService.FileSystem, oldClassMapLoads: bool,
                                 worker: ClassExplorer.ClassMap -> string, exportAnalysis: ClassExplorer.Analysis -> string,
                                 h: ReflectionExporter.Hierarchy,
                                 run: ReflectionExporter.ReflectionData -> ReflectionExporter.ProcessOutput,
                                 decode: string -> Value, exportValue: Value -> string)
    requires CacheInputs(c, fs, worker, h)
    requires CacheOutcome(c, vendorPath, fs, oldClassMapLoads, worker, exportAnalysis, h, run, decode, exportValue).1.Success?
    ensures var actions := CacheOutcome(c, vendorPath, fs, oldClassMapLoads, worker, exportAnalysis, h, run, decode, exportValue).0;
      && FileService.Apply(fs, actions).fileExists(ClassMapFile(vendorPath))
      && FileService.Apply(fs, actions).fileExists(ReflectionFile(vendorPath))
  {
    var results := CacheAnalysis(c, worker).value;
    CacheFilesShareDirectory(vendorPath);
    WritesLeaveFiles(ClassMapFile(vendorPath), ReflectionFile(vendorPath), fs, results, exportAnalysis, h, run, decode, exportValue);
  }

  /** After both writes succeeded, both files exist. */
  lemma WritesLeaveFiles(classMapFile: string, reflectionFile: string, fs: FileService.FileSystem, results: ClassExplorer.Analysis,
                         exportAnalysis: ClassExplorer.Analysis -> string, h: ReflectionExporter.Hierarchy,
                         run: ReflectionExporter.ReflectionData -> ReflectionExporter.ProcessOutput,
                         decode: string -> Value, exportValue: Value -> string)
    requires fs.fileExists("/") && fs.fileExists(".")
    requires ReflectionExporter.Acyclic(h) && Valid(results.classMap)
    requires classMapFile != FileService.Dirname(classMapFile) && reflectionFile != FileService.Dirname(reflectionFile)
    requires CacheWrites(classMapFile, reflectionFile, fs, results, exportAnalysis, h, run, decode, exportValue).1.Success?
    ensures var actions := CacheWrites(classMapFile, reflectionFile, fs, results, exportAnalysis, h, run, decode, exportValue).0;
      && FileService.Apply(fs, actions).fileExists(classMapFile)
      && FileService.Apply(fs, actions).fileExists(reflectionFile)
  {
    var text := FileService.PhpExportTextAsWritten(exportAnalysis(results), "");
    var written := FileService.Written(fs, classMapFile, text);
    FileService.WrittenSettles(fs, classMapFile, text);
    var after := FileService.Apply(fs, written);
    var text2 := FileService.PhpExportTextAsWritten(exportValue(ReflectionRun(results, h, run, decode).value), "");
    var written2 := FileService.Written(after, reflectionFile, text2);
    FileService.WrittenSettles(after, reflectionFile, text2);
    ApplyAppend(fs, written, written2);
  }

  lemma {:induction false} ApplyAppend(fs: FileService.FileSystem, a: seq<FileService.Action>, b: seq<FileService.Action>)
    ensures FileService.Apply(fs, a + b) == FileService.Apply(FileService.Apply(fs, a), b)
    decreases |a|
  {
    if a != [] {
      assert (a + b)[0] == a[0] && (a + b)[1..] == a[1..] + b;
      ApplyAppend(FileService.Effect(fs, a[0]), a[1..], b);
    } else {
      assert a + b == b;
    }
  }

  /** Reflection is only run on classes that passed the analysis: exactly the
      classes of the dependencies' map less those that crashed the worker or
      printed output, in their order. */
  lemma ReflectedClassesLoadable(c: ClassMapService.Composer, worker: ClassExplorer.ClassMap -> string, h: ReflectionExporter.Hierarchy)
    requires ClassExplorer.ClassNames(ClassMapService.ClassMapOf(c, ClassMapService.ModeDependenciesClasses))
    requires ClassExplorer.WellBehaved(worker) && ReflectionExporter.Acyclic(h)
    requires CacheAnalysis(c, worker).Success?
    ensures var results := CacheAnalysis(c, worker).value;
      var classMap := ClassMapService.ClassMapOf(c, ClassMapService.ModeDependenciesClasses);
      && ReflectionExporter.HierarchyData(h, results.classMap).keys == Filter(classMap.keys, results.errors.values.Keys)
      && (forall k :: k in results.errors.values ==> k !in ReflectionExporter.HierarchyData(h, results.classMap).values)
  {
    var classMap := ClassMapService.ClassMapOf(c, ClassMapService.ModeDependenciesClasses);
    ClassExplorer.PassesPartition(classMap, Empty(), worker);
  }

  /** `generateClassMapCache($event)`, from the existing class map cache on.
      `vendorPath` is the normalised vendor directory; `exportAnalysis` and
      `exportValue` stand for `var_export`. */
  method GenerateClassMapCache(c: ClassMapService.Composer, vendorPath: string, fs: FileService.FileSystem, oldClassMapLoads: bool,
                               worker: ClassExplorer.ClassMap -> string, exportAnalysis: ClassExplorer.Analysis -> string,
                               h: ReflectionExporter.Hierarchy,
                               run: ReflectionExporter.ReflectionData -> ReflectionExporter.ProcessOutput,
                               decode: string -> Value, exportValue: Value -> string)
    returns (actions: seq<FileService.Action>, r: Result<(), CacheError>)
    requires CacheInputs(c, fs, worker, h)
    ensures (actions, r) == CacheOutcome(c, vendorPath, fs, oldClassMapLoads, worker, exportAnalysis, h, run, decode, exportValue)
  {
    if fs.fileExists(ClassMapFile(vendorPath)) && !oldClassMapLoads {
      return [], Failure(OldClassMapUnreadable(ClassMapFile(vendorPath)));
    }
    var classMap := ClassMapService.GetClassMap(c, ClassMapService.ModeDependenciesClasses);
    var classExplorer := new ClassExplorer.ClassExplorer();
    var results := classExplorer.Analyze(classMap, worker);
    assert results == CacheAnalysis(c, worker);
    if results.Failure? {
      return [], Failure(AnalysisError(results.error));
    }
    actions, r := WriteCaches(ClassMapFile(vendorPath), ReflectionFile(vendorPath), fs, results.value,
                              exportAnalysis, h, run, decode, exportValue);
  }

  /** The two `writePhpExportFile` calls of `generateClassMapCache` and the
      reflection run between them; the second write sees what the first
      one did to the file system. */
  method WriteCaches(classMapFile: string, reflectionFile: string, fs: FileService.FileSystem, results: ClassExplorer.Analysis,
                     exportAnalysis: ClassExplorer.Analysis -> string, h: ReflectionExporter.Hierarchy,
                     run: ReflectionExporter.ReflectionData -> ReflectionExporter.ProcessOutput,
                     decode: string -> Value, exportValue: Value -> string)
    returns (actions: seq<FileService.Action>, r: Result<(), CacheError>)
    requires fs.fileExists("/") && fs.fileExists(".")
    requires ReflectionExporter.Acyclic(h) && Valid(results.classMap)
    ensures (actions, r) == CacheWrites(classMapFile, reflectionFile, fs, results, exportAnalysis, h, run, decode, exportValue)
  {
    var written, w := FileService.WritePhpExportFile(fs, classMapFile, exportAnalysis(results), "");
    if w.Fail? {
      return written, Failure(CacheNotWritable(w.error));
    }
    var reflectionData := ReflectionExporter.GetReflectionData(h, results.classMap, run, decode);
    if reflectionData.Failure? {
      return written, Failure(ReflectionError(reflectionData.error));
    }
    var after := FileService.Apply(fs, written);
    var written2, w2 := FileService.WritePhpExportFile(after, reflectionFile, exportValue(reflectionData.value), "");
    if w2.Fail? {
      return written, Failure(CacheNotWritable(w2.error));
    }
    return written + written2, Success(());
  }
}
