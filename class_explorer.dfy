/** `Harmony\Services\ClassExplorer`: decides which classes of a class map can
    be loaded, by running an analysis worker on the classes not yet analysed,
    reading the worker's line protocol, and excluding every class that crashed
    the worker or printed something while being loaded.

    The worker (`runAnalyzeIncludes`, a PHP subprocess) is an oracle: a
    function from the ordered class map it is given to the text it prints. */
module ClassExplorer {
  import opened Wrappers
  import opened PhpStrings
  import opened PhpArrays

  /** The worker's sentinels, as the analysis script prints them. */
  const StartupLine := "FDSFZEREZ_STARTUP\n"
  const BeforeInclude := "X4EVDX4SEVX5_BEFOREINCLUDE"
  const AfterIncludeLine := "DSQRZREZRZER__AFTERINCLUDE\n"
  const EndFile := "SQDSG4FDSE3234JK_ENDFILE"

  /** Class name to file name. */
  type ClassMap = OMap<string, string>
  /** Class name to the output captured while loading it. */
  type ErrorMap = OMap<string, string>

  /** The exceptions `analyze` and `trimLine` throw. */
  datatype ExplorerError =
    | AnalysisFailed(output: string)    // HarmonyException: no startup line
    | StrangeBehaviour(marker: string)  // \Exception: unexpected begin marker
    | EndOfFileReached                  // \Exception from trimLine
  {
    function Message(): string {
      match this
      case AnalysisFailed(o) => "Error while running classes analysis: " + o
      case StrangeBehaviour(m) => "Strange behaviour while importing classes. Begin marker: " + m
      case EndOfFileReached => "End of file reached!"
    }
  }

  /** The classes not yet analysed in this pass, and the classes forbidden so far. */
  datatype RunState = RunState(pending: ClassMap, errors: ErrorMap)

  /** The array `analyze` returns: keys 'classMap' and 'errors'. */
  datatype Analysis = Analysis(classMap: ClassMap, errors: ErrorMap)

  /** Every key is a possible PHP class name as far as the protocol is
      concerned: it holds no newline. */
  ghost predicate ClassNames(m: ClassMap) {
    forall k :: k in m.values ==> '\n' !in k
  }

  ghost predicate ValidState(st: RunState) {
    Valid(st.pending) && Valid(st.errors)
  }

  /** The records that follow the startup line, read the way the inner
      `while (true)` loop of `analyze` reads them. */
  function ParseRecords(resp: string, st: RunState): (r: Result<RunState, ExplorerError>)
    requires ValidState(st)
    ensures r.Success? ==> ValidState(r.value)
    decreases |resp|
  {
    match SplitLine(resp)
    case None => Failure(EndOfFileReached)
    case Some((marker, afterMarker)) =>
      if marker == EndFile then Success(st)
      else if marker != BeforeInclude then Failure(StrangeBehaviour(marker))
      else
        match SplitLine(afterMarker)
        case None => Failure(EndOfFileReached)
        case Some((name, output)) =>
          match Find(output, AfterIncludeLine)
          case None =>
            Success(RunState(Without(st.pending, {name}), Put(st.errors, name, output)))
          case Some(pos) =>
            var errors := if pos == 0 then st.errors else Put(st.errors, name, output[..pos]);
            match SplitLine(output[pos..])
            case None => Failure(EndOfFileReached)
            case Some((_, rest)) => ParseRecords(rest, RunState(Without(st.pending, {name}), errors))
  }

  /** One worker run: find the startup line, then read the records after it. */
  function RunSpec(output: string, st: RunState): (r: Result<RunState, ExplorerError>)
    requires ValidState(st)
    ensures r.Success? ==> ValidState(r.value)
  {
    match Find(output, StartupLine)
    case None => Failure(AnalysisFailed(output))
    case Some(p) => ParseRecords(output[p + |StartupLine|..], st)
  }

  /** What a worker run may be relied on to do so that `analyze` terminates:
      on a non-empty map it fails, or it analyses at least one class, reports
      errors only for classes it was given, and stops before the end of the map
      only after recording an error for one of them (the class that crashed it). */
  ghost predicate RunProgress(m: ClassMap, e: ErrorMap, r: Result<RunState, ExplorerError>) {
    r.Success? ==>
      && |r.value.pending.keys| < |m.keys|
      && (forall k :: k in r.value.errors.values ==> k in e.values || k in m.values)
      && (r.value.pending.keys != [] ==> exists k :: k in m.values && k in r.value.errors.values)
  }

  ghost predicate WellBehaved(worker: ClassMap -> string) {
    forall m: ClassMap, e: ErrorMap ::
      Valid(m) && Valid(e) && ClassNames(m) && m.keys != [] && m.values.Keys !! e.values.Keys ==>
        RunProgress(m, e, RunSpec(worker(m), RunState(m, e)))
  }

  ghost predicate Inputs(pending: ClassMap, errors: ErrorMap) {
    Valid(pending) && Valid(errors) && ClassNames(pending) && pending.values.Keys !! errors.values.Keys
  }

  /** A worker run never puts a class back, never drops an error, and every
      class it records an error for is no longer pending. */
  lemma {:induction false} ParseRecordsFacts(resp: string, st: RunState)
    requires ValidState(st)
    ensures var r := ParseRecords(resp, st);
      r.Success? ==>
        && r.value.pending.values.Keys <= st.pending.values.Keys
        && st.errors.values.Keys <= r.value.errors.values.Keys
        && (r.value.errors.values.Keys - st.errors.values.Keys) !! r.value.pending.values.Keys
    decreases |resp|
  {
    match SplitLine(resp)
    case None =>
    case Some((marker, afterMarker)) =>
      if marker != EndFile && marker == BeforeInclude {
        match SplitLine(afterMarker)
        case None =>
        case Some((name, output)) =>
          match Find(output, AfterIncludeLine)
          case None =>
          case Some(pos) =>
            var errors := if pos == 0 then st.errors else Put(st.errors, name, output[..pos]);
            match SplitLine(output[pos..])
            case None =>
            case Some((_, rest)) =>
              ParseRecordsFacts(rest, RunState(Without(st.pending, {name}), errors));
      }
  }

  lemma RunSpecFacts(output: string, st: RunState)
    requires ValidState(st)
    ensures var r := RunSpec(output, st);
      r.Success? ==>
        && r.value.pending.values.Keys <= st.pending.values.Keys
        && st.errors.values.Keys <= r.value.errors.values.Keys
        && (r.value.errors.values.Keys - st.errors.values.Keys) !! r.value.pending.values.Keys
  {
    var f := Find(output, StartupLine);
    if f.Some? {
      var body := output[f.value + |StartupLine|..];
      ParseRecordsFacts(body, st);
      assert RunSpec(output, st) == ParseRecords(body, st);
    }
  }

  /** The inner `while (!empty($notYetAnalysedClassMap))` loop of one pass:
      the errors after the pass and the number of worker runs `$nbRun`. */
  function Runs(pending: ClassMap, errors: ErrorMap, nbRun: nat, worker: ClassMap -> string)
    : (r: Result<(ErrorMap, nat), ExplorerError>)
    requires Inputs(pending, errors) && WellBehaved(worker)
    ensures r.Success? ==> Valid(r.value.0) && errors.values.Keys <= r.value.0.values.Keys
    ensures r.Success? ==> forall k :: k in r.value.0.values ==> k in errors.values || k in pending.values
    ensures r.Success? ==> nbRun <= r.value.1
    ensures r.Success? && nbRun + 2 <= r.value.1 ==>
      exists k :: k in pending.values && k in r.value.0.values
    decreases |pending.keys|
  {
    if pending.keys == [] then Success((errors, nbRun))
    else
      match RunSpec(worker(pending), RunState(pending, errors))
      case Failure(e) => Failure(e)
      case Success(st) =>
        RunSpecFacts(worker(pending), RunState(pending, errors));
        Runs(st.pending, st.errors, nbRun + 1, worker)
  }

  /** The outer `do … while (true)` loop: passes are repeated on the classes
      still allowed until a pass needs at most one worker run. */
  function Passes(classMap: ClassMap, errors: ErrorMap, worker: ClassMap -> string)
    : (r: Result<Analysis, ExplorerError>)
    requires Inputs(classMap, errors) && WellBehaved(worker)
    decreases |classMap.keys|
  {
    match Runs(classMap, errors, 0, worker)
    case Failure(e) => Failure(e)
    case Success((errors', nbRun)) =>
      var remaining := Without(classMap, errors'.values.Keys);
      if nbRun <= 1 then Success(Analysis(remaining, errors'))
      else
        WithoutShrinksSome(classMap, errors'.values.Keys);
        Passes(remaining, errors', worker)
  }

  lemma WithoutShrinksSome(m: ClassMap, ks: set<string>)
    requires Valid(m) && exists k :: k in m.values && k in ks
    ensures |Without(m, ks).keys| < |m.keys|
  {
    var k :| k in m.values && k in ks;
    WithoutShrinks(m, ks, k);
  }

  /** The result of the passes: the class map is what it was minus every
      class with an error, errors are never dropped, and every error is for a
      class that was in the map or already had one. */
  lemma {:induction false} PassesPartition(classMap: ClassMap, errors: ErrorMap, worker: ClassMap -> string)
    requires Inputs(classMap, errors) && WellBehaved(worker)
    ensures var r := Passes(classMap, errors, worker);
      r.Success? ==>
        && r.value.classMap == Without(classMap, r.value.errors.values.Keys)
        && errors.values.Keys <= r.value.errors.values.Keys
        && r.value.errors.values.Keys <= errors.values.Keys + classMap.values.Keys
    decreases |classMap.keys|
  {
    match Runs(classMap, errors, 0, worker)
    case Failure(e) =>
    case Success((errors', nbRun)) =>
      var remaining := Without(classMap, errors'.values.Keys);
      if nbRun > 1 {
        WithoutShrinksSome(classMap, errors'.values.Keys);
        PassesPartition(remaining, errors', worker);
        PartitionStep(classMap, errors', Passes(remaining, errors', worker));
      }
  }

  /** One more pass: what the later passes keep of the remaining map is what
      they keep of the whole map. */
  lemma PartitionStep(classMap: ClassMap, errors': ErrorMap, r: Result<Analysis, ExplorerError>)
    requires Valid(classMap)
    requires r.Success? ==>
        && r.value.classMap == Without(Without(classMap, errors'.values.Keys), r.value.errors.values.Keys)
        && errors'.values.Keys <= r.value.errors.values.Keys
    ensures r.Success? ==> r.value.classMap == Without(classMap, r.value.errors.values.Keys)
  {
    if r.Success? {
      WithoutWithout(classMap, errors'.values.Keys, r.value.errors.values.Keys);
      assert errors'.values.Keys + r.value.errors.values.Keys == r.value.errors.values.Keys;
    }
  }

  class ClassExplorer {
    /** The text response from the analysis worker, consumed line by line. */
    var analysisResponse: string

    constructor ()
      ensures analysisResponse == ""
    {
      analysisResponse := "";
    }

    /** Removes the first line and its newline from `analysisResponse` and
        returns it; fails, leaving the response as it was, when there is no newline. */
    method TrimLine() returns (r: Result<string, ExplorerError>)
      modifies this
      ensures r.Failure? <==> '\n' !in old(analysisResponse)
      ensures r.Failure? ==> r.error == EndOfFileReached && analysisResponse == old(analysisResponse)
      ensures r.Success? ==> old(analysisResponse) == r.value + "\n" + analysisResponse && '\n' !in r.value
    {
      var newLinePos := Find(analysisResponse, "\n");
      if newLinePos.None? {
        assert forall i :: 0 <= i < |analysisResponse| ==>
          OccursAt(analysisResponse, "\n", i) == (analysisResponse[i] == '\n');
        return Failure(EndOfFileReached);
      }
      var p := newLinePos.value;
      var line := analysisResponse[..p];
      assert analysisResponse[p] == '\n' by { assert analysisResponse[p..p + 1] == "\n"; }
      forall j | 0 <= j < p ensures line[j] != '\n' {
        assert !OccursAt(analysisResponse, "\n", j);
        assert analysisResponse[j..j + 1] == [analysisResponse[j]];
      }
      assert analysisResponse == line + "\n" + analysisResponse[p + 1..];
      analysisResponse := analysisResponse[p + 1..];
      return Success(line);
    }

    /** The inner `while (true)` loop: reads records from `analysisResponse`
        until the end line, a crash, or a protocol error. */
    method ConsumeRecords(st: RunState) returns (r: Result<RunState, ExplorerError>)
      requires ValidState(st)
      modifies this
      ensures r == ParseRecords(old(analysisResponse), st)
    {
      var pending, errors := st.pending, st.errors;
      while true
        invariant Valid(pending) && Valid(errors)
        invariant ParseRecords(analysisResponse, RunState(pending, errors)) == ParseRecords(old(analysisResponse), st)
        decreases |analysisResponse|
      {
        ghost var resp0 := analysisResponse;
        var beginMarker := TrimLine();
        if beginMarker.Failure? {
          return Failure(beginMarker.error);
        }
        SplitLineOf(beginMarker.value, analysisResponse);
        if beginMarker.value == EndFile {
          return Success(RunState(pending, errors));
        } else if beginMarker.value != BeforeInclude {
          return Failure(StrangeBehaviour(beginMarker.value));
        }
        ghost var resp1 := analysisResponse;
        var analyzedClassName := TrimLine();
        if analyzedClassName.Failure? {
          return Failure(analyzedClassName.error);
        }
        var name := analyzedClassName.value;
        SplitLineOf(name, analysisResponse);
        ghost var output := analysisResponse;
        var endMarkerPos := Find(analysisResponse, AfterIncludeLine);
        if endMarkerPos != Some(0) {
          if endMarkerPos.None? {
            errors := Put(errors, name, analysisResponse);
            pending := Without(pending, {name});
            return Success(RunState(pending, errors));
          } else {
            errors := Put(errors, name, analysisResponse[..endMarkerPos.value]);
            analysisResponse := analysisResponse[endMarkerPos.value..];
          }
        }
        var afterMarker := TrimLine();
        if afterMarker.Failure? {
          return Failure(afterMarker.error);
        }
        SplitLineOf(afterMarker.value, analysisResponse);
        pending := Without(pending, {name});
      }
    }

    /** One pass of `analyze`: the worker is re-run on the classes not yet
        analysed until none is left; returns the errors and `$nbRun`. */
    method RunPass(classMap: ClassMap, forbiddenClasses: ErrorMap, worker: ClassMap -> string)
      returns (r: Result<(ErrorMap, nat), ExplorerError>)
      requires Inputs(classMap, forbiddenClasses) && WellBehaved(worker)
      modifies this
      ensures r == Runs(classMap, forbiddenClasses, 0, worker)
    {
      var notYetAnalysedClassMap, errors := classMap, forbiddenClasses;
      var nbRun: nat := 0;
      while notYetAnalysedClassMap.keys != []
        invariant Inputs(notYetAnalysedClassMap, errors)
        invariant Runs(notYetAnalysedClassMap, errors, nbRun, worker) == Runs(classMap, forbiddenClasses, 0, worker)
        decreases |notYetAnalysedClassMap.keys|
      {
        analysisResponse := worker(notYetAnalysedClassMap);
        nbRun := nbRun + 1;
        var startupPos := Find(analysisResponse, StartupLine);
        if startupPos.None? {
          return Failure(AnalysisFailed(analysisResponse));
        }
        analysisResponse := analysisResponse[startupPos.value + |StartupLine|..];
        var run := ConsumeRecords(RunState(notYetAnalysedClassMap, errors));
        if run.Failure? {
          return Failure(run.error);
        }
        RunSpecFacts(worker(notYetAnalysedClassMap), RunState(notYetAnalysedClassMap, errors));
        notYetAnalysedClassMap, errors := run.value.pending, run.value.errors;
      }
      return Success((errors, nbRun));
    }

    /** `analyze`: the class map without the classes that cannot be loaded,
        and those classes with the output that condemned them. */
    method Analyze(classMap: ClassMap, worker: ClassMap -> string) returns (r: Result<Analysis, ExplorerError>)
      requires Valid(classMap) && ClassNames(classMap) && WellBehaved(worker)
      modifies this
      ensures r == Passes(classMap, Empty(), worker)
      ensures r.Success? ==> r.value.classMap == Without(classMap, r.value.errors.values.Keys)
      ensures r.Success? ==> r.value.errors.values.Keys <= classMap.values.Keys
      ensures r.Success? ==> r.value.classMap.values.Keys !! r.value.errors.values.Keys
      ensures r.Success? ==>
        r.value.classMap.values.Keys + r.value.errors.values.Keys == classMap.values.Keys
    {
      PassesPartition(classMap, Empty(), worker);
      var forbiddenClasses: ErrorMap := Empty();
      var cm := classMap;
      while true
        invariant Inputs(cm, forbiddenClasses)
        invariant Passes(cm, forbiddenClasses, worker) == Passes(classMap, Empty(), worker)
        decreases |cm.keys|
      {
        var pass := RunPass(cm, forbiddenClasses, worker);
        if pass.Failure? {
          return Failure(pass.error);
        }
        var nbRun;
        ghost var cm0 := cm;
        forbiddenClasses, nbRun := pass.value.0, pass.value.1;
        cm := UnsetAll(cm, forbiddenClasses);
        if nbRun <= 1 {
          return Success(Analysis(cm, forbiddenClasses));
        }
        WithoutShrinksSome(cm0, forbiddenClasses.values.Keys);
      }
    }
  }

  /** `foreach ($forbiddenClasses as $badClass => $errorMessage) unset($classMap[$badClass]);` */
  method UnsetAll(classMap: ClassMap, forbiddenClasses: ErrorMap) returns (cm: ClassMap)
    requires Valid(classMap) && Valid(forbiddenClasses)
    ensures cm == Without(classMap, forbiddenClasses.values.Keys)
  {
    cm := classMap;
    WithoutNothing(classMap, {});
    assert Elems(forbiddenClasses.keys[..0]) == {};
    var i := 0;
    while i < |forbiddenClasses.keys|
      invariant 0 <= i <= |forbiddenClasses.keys|
      invariant cm == Without(classMap, Elems(forbiddenClasses.keys[..i]))
    {
      UnsetStep(classMap, forbiddenClasses.keys, i);
      cm := Without(cm, {forbiddenClasses.keys[i]});
      i := i + 1;
    }
    assert forbiddenClasses.keys[..i] == forbiddenClasses.keys;
    ElemsKeys(forbiddenClasses);
  }

  /** Unsetting one more key of the list. */
  lemma UnsetStep(classMap: ClassMap, keys: seq<string>, i: nat)
    requires Valid(classMap) && i < |keys|
    ensures Without(Without(classMap, Elems(keys[..i])), {keys[i]}) == Without(classMap, Elems(keys[..i + 1]))
  {
    WithoutWithout(classMap, Elems(keys[..i]), {keys[i]});
    assert keys[..i + 1] == keys[..i] + [keys[i]];
    ElemsSnoc(keys[..i], keys[i]);
  }

  // The records of the protocol, one lemma per shape a record can take.

  /** One record that begins with the BEFOREINCLUDE line and the class name,
      followed by `output`. */
  lemma RecordStep(name: string, output: string, st: RunState)
    requires ValidState(st) && '\n' !in name
    ensures ParseRecords(BeforeInclude + "\n" + name + "\n" + output, st)
         == match Find(output, AfterIncludeLine)
            case None =>
              Success(RunState(Without(st.pending, {name}), Put(st.errors, name, output)))
            case Some(pos) =>
              var errors := if pos == 0 then st.errors else Put(st.errors, name, output[..pos]);
              match SplitLine(output[pos..])
              case None => Failure(EndOfFileReached)
              case Some((_, rest)) => ParseRecords(rest, RunState(Without(st.pending, {name}), errors))
  {
    SplitLineOf(BeforeInclude, name + "\n" + output);
    assert BeforeInclude + "\n" + (name + "\n" + output) == BeforeInclude + "\n" + name + "\n" + output;
    SplitLineOf(name, output);
  }

  /** A record whose AFTERINCLUDE line comes `pos` characters into `output`. */
  lemma RecordStepFound(name: string, output: string, pos: nat, marker: string, rest: string, st: RunState)
    requires ValidState(st) && '\n' !in name
    requires Find(output, AfterIncludeLine) == Some(pos) && pos <= |output|
    requires SplitLine(output[pos..]) == Some((marker, rest))
    ensures ParseRecords(BeforeInclude + "\n" + name + "\n" + output, st)
         == ParseRecords(rest, RunState(Without(st.pending, {name}),
                                        if pos == 0 then st.errors else Put(st.errors, name, output[..pos])))
  {
    RecordStep(name, output, st);
  }

  /** Splitting at the AFTERINCLUDE line. */
  lemma AfterIncludeSplit(rest: string)
    ensures SplitLine(AfterIncludeLine + rest) == Some(("DSQRZREZRZER__AFTERINCLUDE", rest))
  {
    SplitLineOf("DSQRZREZRZER__AFTERINCLUDE", rest);
    assert "DSQRZREZRZER__AFTERINCLUDE" + "\n" + rest == AfterIncludeLine + rest;
  }

  /** A class that loaded silently: AFTERINCLUDE follows its name line at once;
      it leaves the pending map, gets no error, and reading goes on. */
  lemma LoadedSilently(name: string, rest: string, st: RunState)
    requires ValidState(st) && '\n' !in name
    ensures ParseRecords(BeforeInclude + "\n" + name + "\n" + AfterIncludeLine + rest, st)
         == ParseRecords(rest, RunState(Without(st.pending, {name}), st.errors))
  {
    var output := AfterIncludeLine + rest;
    assert BeforeInclude + "\n" + name + "\n" + AfterIncludeLine + rest
        == BeforeInclude + "\n" + name + "\n" + output;
    RecordStep(name, output, st);
    assert output[..|AfterIncludeLine|] == AfterIncludeLine;
    assert Find(output, AfterIncludeLine) == Some(0);
    assert output[0..] == output;
    AfterIncludeSplit(rest);
  }

  /** Output of a class that then reached AFTERINCLUDE: no AFTERINCLUDE line
      starts inside it, not even one overlapping the real marker. */
  ghost predicate EndsAtMarker(detail: string) {
    forall j :: 0 <= j < |detail| ==> !OccursAt(detail + AfterIncludeLine, AfterIncludeLine, j)
  }

  /** Output of a class that crashed the worker: it holds no AFTERINCLUDE line. */
  ghost predicate NoMarker(output: string) {
    forall j :: !OccursAt(output, AfterIncludeLine, j)
  }

  /** The first AFTERINCLUDE line after `detail` is the one that follows it. */
  lemma FindAfterDetail(detail: string, rest: string)
    requires EndsAtMarker(detail)
    ensures Find(detail + AfterIncludeLine + rest, AfterIncludeLine) == Some(|detail|)
  {
    var output := detail + AfterIncludeLine + rest;
    forall j | 0 <= j < |detail| ensures !OccursAt(output, AfterIncludeLine, j) {
      OccursAtPrefix(detail, AfterIncludeLine, rest, j);
    }
    assert output[|detail|..|detail| + |AfterIncludeLine|] == AfterIncludeLine;
    FindAt(output, AfterIncludeLine, |detail|);
  }

  /** A class that printed `detail` before AFTERINCLUDE: it leaves the pending
      map, `detail` becomes its error, and reading goes on after the marker. */
  lemma LoadedWithOutput(name: string, detail: string, rest: string, st: RunState)
    requires ValidState(st) && '\n' !in name && detail != "" && EndsAtMarker(detail)
    ensures ParseRecords(BeforeInclude + "\n" + name + "\n" + detail + AfterIncludeLine + rest, st)
         == ParseRecords(rest, RunState(Without(st.pending, {name}), Put(st.errors, name, detail)))
  {
    var output := detail + AfterIncludeLine + rest;
    FindAfterDetail(detail, rest);
    assert output[|detail|..] == AfterIncludeLine + rest;
    AfterIncludeSplit(rest);
    assert output[..|detail|] == detail;
    var header := BeforeInclude + "\n" + name + "\n";
    Regroup(header, detail + AfterIncludeLine, rest);
    Regroup(header, detail, AfterIncludeLine);
    RecordStepFound(name, output, |detail|, "DSQRZREZRZER__AFTERINCLUDE", rest, st);
  }

  /** A class that crashed the worker: no AFTERINCLUDE follows at all; the
      whole rest of the output becomes its error and the run is over. */
  lemma CrashedOn(name: string, output: string, st: RunState)
    requires ValidState(st) && '\n' !in name && NoMarker(output)
    ensures ParseRecords(BeforeInclude + "\n" + name + "\n" + output, st)
         == Success(RunState(Without(st.pending, {name}), Put(st.errors, name, output)))
  {
    RecordStep(name, output, st);
  }

  /** The end line closes the run and changes nothing. */
  lemma EndOfRun(rest: string, st: RunState)
    requires ValidState(st)
    ensures ParseRecords(EndFile + "\n" + rest, st) == Success(st)
  {
    SplitLineOf(EndFile, rest);
  }

  /** Any other line where a record should begin is a protocol error. */
  lemma UnexpectedMarker(marker: string, rest: string, st: RunState)
    requires ValidState(st) && '\n' !in marker && marker != EndFile && marker != BeforeInclude
    ensures ParseRecords(marker + "\n" + rest, st) == Failure(StrangeBehaviour(marker))
  {
    SplitLineOf(marker, rest);
  }

  /** Output that ends inside a record's marker or name line runs into the end
      of the text. */
  lemma TruncatedRecord(tail: string, st: RunState)
    requires ValidState(st) && '\n' !in tail
    ensures ParseRecords(tail, st) == Failure(EndOfFileReached)
    ensures ParseRecords(BeforeInclude + "\n" + tail, st) == Failure(EndOfFileReached)
  {
    SplitLineOf(BeforeInclude, tail);
  }

  /** Parsing the records never reports a missing startup line. */
  lemma {:induction false} RecordsNeverAnalysisFailed(resp: string, st: RunState)
    requires ValidState(st)
    ensures !(ParseRecords(resp, st).Failure? && ParseRecords(resp, st).error.AnalysisFailed?)
    decreases |resp|
  {
    match SplitLine(resp)
    case None =>
    case Some((marker, afterMarker)) =>
      if marker != EndFile && marker == BeforeInclude {
        match SplitLine(afterMarker)
        case None =>
        case Some((name, output)) =>
          match Find(output, AfterIncludeLine)
          case None =>
          case Some(pos) =>
            var errors := if pos == 0 then st.errors else Put(st.errors, name, output[..pos]);
            match SplitLine(output[pos..])
            case None =>
            case Some((_, rest)) =>
              RecordsNeverAnalysisFailed(rest, RunState(Without(st.pending, {name}), errors));
      }
  }

  /** A run fails with the worker's raw output exactly when the output lacks
      the startup line. */
  lemma StartupMissing(output: string, st: RunState)
    requires ValidState(st)
    ensures RunSpec(output, st) == Failure(AnalysisFailed(output))
        <==> forall j :: !OccursAt(output, StartupLine, j)
  {
    var f := Find(output, StartupLine);
    if f.Some? {
      var body := output[f.value + |StartupLine|..];
      RecordsNeverAnalysisFailed(body, st);
      assert RunSpec(output, st) == ParseRecords(body, st);
    }
  }

  /** Reading resumes right after the first startup line; whatever came before
      it is ignored. */
  lemma AfterStartup(prefix: string, body: string, st: RunState)
    requires ValidState(st)
    requires forall j :: 0 <= j < |prefix| ==> !OccursAt(prefix + StartupLine, StartupLine, j)
    ensures RunSpec(prefix + StartupLine + body, st) == ParseRecords(body, st)
  {
    var output := prefix + StartupLine + body;
    forall j | 0 <= j < |prefix| ensures !OccursAt(output, StartupLine, j) {
      OccursAtPrefix(prefix, StartupLine, body, j);
    }
    assert output[|prefix|..|prefix| + |StartupLine|] == StartupLine;
    FindAt(output, StartupLine, |prefix|);
    assert output[|prefix| + |StartupLine|..] == body;
  }
}
