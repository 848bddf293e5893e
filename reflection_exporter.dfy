/** `Harmony\Services\ReflectionExporter`: for every class of a class map,
    the chain of its parent classes (nearest first) and its interface
    names, computed in a worker process and decoded from its JSON output.

    PHP's reflection is an input: an acyclic `Hierarchy`. The worker process
    and `json_decode` are inputs as well. */
module ReflectionExporter {
  import opened Wrappers
  import opened PhpStrings
  import opened PhpArrays
  import opened PhpValues

  /** What `ReflectionClass` tells about a class: its parent, if any, and its
      interface names. `depth` is any measure that every parent link
      decreases, which is what makes the hierarchy acyclic. */
  datatype Hierarchy = Hierarchy(
    parent: string -> Option<string>,
    interfaces: string -> seq<string>,
    depth: string -> nat)

  ghost predicate Acyclic(h: Hierarchy) {
    forall c :: h.parent(c).Some? ==> h.depth(h.parent(c).value) < h.depth(c)
  }

  /** The ancestors of `c`, nearest first. */
  function Ancestors(h: Hierarchy, c: string): (r: seq<string>)
    requires Acyclic(h)
    ensures r == [] <==> h.parent(c).None?
    decreases h.depth(c)
  {
    match h.parent(c)
    case None => []
    case Some(p) => [p] + Ancestors(h, p)
  }

  /** `s` follows the parent links from `c` to a class without a parent. */
  ghost predicate ParentChain(h: Hierarchy, c: string, s: seq<string>) {
    && (s == [] ==> h.parent(c).None?)
    && (s != [] ==> h.parent(c) == Some(s[0]) && h.parent(s[|s| - 1]).None?)
    && (forall i :: 0 < i < |s| ==> h.parent(s[i - 1]) == Some(s[i]))
  }

  /** The ancestors are the one chain of parent links that ends at a class
      with no parent. */
  lemma {:induction false} AncestorsIsChain(h: Hierarchy, c: string, s: seq<string>)
    requires Acyclic(h)
    ensures ParentChain(h, c, Ancestors(h, c))
    ensures ParentChain(h, c, s) ==> s == Ancestors(h, c)
    decreases h.depth(c)
  {
    match h.parent(c)
    case None =>
    case Some(p) =>
      AncestorsIsChain(h, p, if s == [] then [] else s[1..]);
      var a := Ancestors(h, c);
      assert a[1..] == Ancestors(h, p);
      if ParentChain(h, c, s) {
        ChainTail(h, c, s);
        assert s == [s[0]] + s[1..];
      }
  }

  /** Past its first link, a chain from `c` is a chain from `c`'s parent. */
  lemma ChainTail(h: Hierarchy, c: string, s: seq<string>)
    requires ParentChain(h, c, s) && h.parent(c).Some?
    ensures s != [] && s[0] == h.parent(c).value
    ensures ParentChain(h, s[0], s[1..])
  {
    assert s != [];
    if |s| > 1 {
      assert s[1..][0] == s[1];
      forall i | 0 < i < |s| - 1 ensures h.parent(s[1..][i - 1]) == Some(s[1..][i]) {
        assert h.parent(s[i]) == Some(s[i + 1]);
      }
    }
  }

  /** Every ancestor is strictly shallower than the class, so a class is never
      its own ancestor and no ancestor is listed twice. */
  lemma {:induction false} AncestorsDescend(h: Hierarchy, c: string)
    requires Acyclic(h)
    ensures forall i :: 0 <= i < |Ancestors(h, c)| ==> h.depth(Ancestors(h, c)[i]) < h.depth(c)
    ensures forall i, j :: 0 <= i < j < |Ancestors(h, c)| ==> h.depth(Ancestors(h, c)[j]) < h.depth(Ancestors(h, c)[i])
    decreases h.depth(c)
  {
    match h.parent(c)
    case None =>
    case Some(p) =>
      AncestorsDescend(h, p);
      var a := Ancestors(h, c);
      assert a[1..] == Ancestors(h, p);
      assert forall i :: 0 < i < |a| ==> a[i] == Ancestors(h, p)[i - 1];
  }

  lemma AncestorsDistinct(h: Hierarchy, c: string)
    requires Acyclic(h)
    ensures Distinct(Ancestors(h, c)) && c !in Ancestors(h, c)
  {
    AncestorsDescend(h, c);
  }

  /** The `while ($parentClass = $parentClass->getParentClass())` loop. */
  method ParentClasses(h: Hierarchy, className: string) returns (parentClasses: seq<string>)
    requires Acyclic(h)
    ensures parentClasses == Ancestors(h, className)
  {
    parentClasses := [];
    var parentClass := className;
    while h.parent(parentClass).Some?
      invariant parentClasses + Ancestors(h, parentClass) == Ancestors(h, className)
      decreases h.depth(parentClass)
    {
      var p := h.parent(parentClass).value;
      assert Ancestors(h, parentClass) == [p] + Ancestors(h, p);
      parentClasses := parentClasses + [p];
      parentClass := p;
    }
  }

  /** One entry of the reflection data: exactly `parents` and `interfaces`. */
  datatype ClassRecord = ClassRecord(parents: seq<string>, interfaces: seq<string>)

  type ReflectionData = OMap<string, ClassRecord>

  function RecordOf(h: Hierarchy, c: string): ClassRecord
    requires Acyclic(h)
  {
    ClassRecord(Ancestors(h, c), h.interfaces(c))
  }

  /** What the worker computes: one record per class, keyed and ordered
      like the class map, whose file names play no part. */
  function HierarchyData(h: Hierarchy, classMap: OMap<string, string>): (d: ReflectionData)
    requires Acyclic(h) && Valid(classMap)
    ensures Valid(d)
    ensures d.keys == classMap.keys
    ensures forall c :: c in d.values ==> d.values[c] == RecordOf(h, c)
  {
    OMap(classMap.keys, map c | c in classMap.values :: RecordOf(h, c))
  }

  /** The `foreach ($classMap as $className => $arr)` loop of the worker. */
  method ExportHierarchy(h: Hierarchy, classMap: OMap<string, string>) returns (reflectionData: ReflectionData)
    requires Acyclic(h) && Valid(classMap)
    ensures reflectionData == HierarchyData(h, classMap)
  {
    reflectionData := Empty();
    var i := 0;
    while i < |classMap.keys|
      invariant 0 <= i <= |classMap.keys| && Valid(reflectionData)
      invariant reflectionData.keys == classMap.keys[..i]
      invariant forall c :: c in reflectionData.values ==> reflectionData.values[c] == RecordOf(h, c)
    {
      var className := classMap.keys[i];
      var interfaces := h.interfaces(className);
      var parentClasses := ParentClasses(h, className);
      assert className !in classMap.keys[..i];
      reflectionData := Put(reflectionData, className, ClassRecord(parentClasses, interfaces));
      assert classMap.keys[..i + 1] == classMap.keys[..i] + [className];
      i := i + 1;
    }
    assert classMap.keys[..i] == classMap.keys;
    assert reflectionData.values.Keys == classMap.values.Keys;
  }

  /** The worker's two output streams. */
  datatype ProcessOutput = ProcessOutput(output: string, errorOutput: string)

  const ErrorPrefix := "Error triggered while exporting reflection data: "

  /** `runReflectionExporter` after the worker ran: a truthy error output
      is an error; otherwise the decoded output is returned, unless it
      decoded to `false`. Malformed JSON decodes to null and is returned. */
  function RunReflectionExporter(p: ProcessOutput, decode: string -> Value): (r: Result<Value, string>)
    ensures r.Failure? ==> StartsWith(r.error, ErrorPrefix)
  {
    if Truthy(p.errorOutput) then Failure(ErrorPrefix + p.errorOutput)
    else
      var result := decode(p.output);
      if result == Bool(false) then Failure(ErrorPrefix + p.output) else Success(result)
  }

  /** The run fails exactly when the error output is truthy or the output
      decodes to `false`, and otherwise returns the decoded value as it is. */
  lemma RunReflectionExporterOutcome(p: ProcessOutput, decode: string -> Value)
    ensures RunReflectionExporter(p, decode).Failure? <==> Truthy(p.errorOutput) || decode(p.output) == Bool(false)
    ensures Truthy(p.errorOutput) ==> RunReflectionExporter(p, decode) == Failure(ErrorPrefix + p.errorOutput)
    ensures RunReflectionExporter(p, decode).Success? ==> RunReflectionExporter(p, decode).value == decode(p.output)
    ensures !Truthy(p.errorOutput) && decode(p.output) == Null ==> RunReflectionExporter(p, decode) == Success(Null)
  {
  }

  /** The reflection data as the PHP array the worker encodes. */
  function RecordValue(r: ClassRecord): (v: Value)
    ensures v.Arr? && v.a.keys == [StrKey("parents"), StrKey("interfaces")]
  {
    var parents := List(seq(|r.parents|, i requires 0 <= i < |r.parents| => Text(r.parents[i])));
    var interfaces := List(seq(|r.interfaces|, i requires 0 <= i < |r.interfaces| => Text(r.interfaces[i])));
    Arr(OMap([StrKey("parents"), StrKey("interfaces")],
             map[StrKey("parents") := Arr(parents), StrKey("interfaces") := Arr(interfaces)]))
  }

  function DataValue(d: ReflectionData): (v: Value)
    requires Valid(d)
    ensures v.Arr? && Valid(v.a) && |v.a.keys| == |d.keys|
    ensures forall i :: 0 <= i < |d.keys| ==> v.a.keys[i] == StrKey(d.keys[i])
  {
    var keys := seq(|d.keys|, i requires 0 <= i < |d.keys| => StrKey(d.keys[i]));
    assert forall k :: k in keys ==> exists i :: 0 <= i < |d.keys| && k == StrKey(d.keys[i]);
    Arr(OMap(keys, map k | k in keys && k.s in d.values :: RecordValue(d.values[k.s])))
  }

  /** `getReflectionData($classMap, …)`: the worker runs `ExportHierarchy`;
      `run` stands for encoding its result and the process streams. */
  method GetReflectionData(h: Hierarchy, classMap: OMap<string, string>,
                           run: ReflectionData -> ProcessOutput, decode: string -> Value)
    returns (r: Result<Value, string>)
    requires Acyclic(h) && Valid(classMap)
    ensures r == RunReflectionExporter(run(HierarchyData(h, classMap)), decode)
  {
    var data := ExportHierarchy(h, classMap);
    r := RunReflectionExporter(run(data), decode);
  }

  /** When the worker reports nothing on its error stream and JSON decoding
      returns what was encoded, the caller gets one record per class of the
      map, in its order. */
  lemma FaithfulWorker(h: Hierarchy, d: ReflectionData, p: ProcessOutput, decode: string -> Value)
    requires Acyclic(h) && Valid(d)
    requires !Truthy(p.errorOutput) && decode(p.output) == DataValue(d)
    ensures RunReflectionExporter(p, decode) == Success(DataValue(d))
  {
  }
}
