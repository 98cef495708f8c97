/** What one `compressVideo` call of either service does, as a function of the
    service's state and the engine's behaviour: the result, the stage and progress
    values handed to the callbacks, the working set left behind and the encode
    command issued. The service class is proved to follow it. */
module Session {
  import opened Text
  import opened Outcomes
  import opened Media
  import opened Planner
  import opened Progress
  import opened Loader

  /** The settings that tell the two service classes apart. */
  datatype Tuning = Tuning(
    sources: seq<string>,
    isolationMessage: string,
    encoding: Encoding,
    warnsOversize: bool)

  /** services/VideoCompressionService.js */
  const Legacy := Tuning(LegacySources, LegacyIsolationMessage, LegacyEncoding, true)

  /** services/VideoCompressionServiceV2.js */
  const Current := Tuning(CurrentSources, CurrentIsolationMessage, CurrentEncoding, false)

  /** The environment an engine is created in: whether loading from each source
      succeeds, and how the engine words a request for a file it does not have. */
  datatype Host = Host(sources: string -> Step, missingFile: string)

  /** The engine's answers during one `compressVideo` call, in call order, and the
      events it emits while encoding. */
  datatype Script = Script(
    host: Host,
    write: Step,
    events: seq<EngineEvent>,
    exec: Step,
    produced: map<string, seq<byte>>,
    read: Step,
    deleteInput: Step,
    deleteOutput: Step)

  /** One call of a callback: `onStageChange(n)` or `onProgress(p)`. */
  datatype Emission = Stage(stage: nat) | Percent(value: real)

  const FailurePrefix: string := "Compression failed: "
  const VideoMime: string := "video/mp4"

  /** The stage and progress calls of each phase. */
  const Preparing: seq<Emission> := [Stage(0), Percent(0.0)]
  const Loading: seq<Emission> := [Stage(1), Percent(5.0)]
  const Written: seq<Emission> := [Percent(15.0), Stage(2)]
  const Analyzed: seq<Emission> := [Percent(25.0), Stage(3)]
  const Encoded: seq<Emission> := [Percent(85.0), Stage(4)]
  const Completed: seq<Emission> := [Percent(100.0), Stage(5)]

  function Percents(ps: seq<real>): (es: seq<Emission>)
    ensures |es| == |ps|
    ensures forall k :: 0 <= k < |ps| ==> es[k] == Percent(ps[k])
  {
    if ps == [] then [] else [Percent(ps[0])] + Percents(ps[1..])
  }

  /** Everything one call leaves behind. `duration` is the estimate stored in
      `videoDuration` once the analysing step is reached, and `command` is the
      encoder invocation once the compressing step is reached. */
  datatype Outcome = Outcome(
    result: Result<Blob>,
    emitted: seq<Emission>,
    loaded: bool,
    files: map<string, seq<byte>>,
    duration: Option<real>,
    command: Option<seq<string>>)

  /** The encoder arguments for a file under a byte budget. */
  function EncodeCommand(t: Tuning, targetBytes: nat, file: File): seq<string>
  {
    EncoderArgs(InputFileName(file.name), Plan(targetBytes as real, EstimateDuration(file.Size()), t.encoding), t.encoding)
  }

  /** The clean-up of a successful run: delete the input, then the output; a failing
      first delete skips the second, and any failure is swallowed. */
  function Cleanup(files: map<string, seq<byte>>, input: string, s: Script): map<string, seq<byte>>
  {
    if s.deleteInput.Done? && input in files then
      var rest := files - {input};
      if s.deleteOutput.Done? && OutputFileName in rest then rest - {OutputFileName} else rest
    else files
  }

  /** The part of a call after the engine is ready, on the working set `files`. */
  function Encode(t: Tuning, targetBytes: nat, files: map<string, seq<byte>>, missing: string,
                  file: File, s: Script, opening: seq<Emission>): Outcome
  {
    var input := InputFileName(file.name);
    var started := opening + Loading;
    if s.write.Failed? then Outcome(Err(FailurePrefix + s.write.message), started, true, files, None, None)
    else
      var written := files[input := file.data];
      var duration := EstimateDuration(file.Size());
      var command := EncodeCommand(t, targetBytes, file);
      var encoding := started + Written + Analyzed + Percents(ForwardAll(s.events, Some(duration), true));
      if s.exec.Failed? then
        Outcome(Err(FailurePrefix + s.exec.message), encoding, true, written, Some(duration), Some(command))
      else
        var encoded := written + s.produced;
        var finishing := encoding + Encoded;
        if s.read.Failed? then
          Outcome(Err(FailurePrefix + s.read.message), finishing, true, encoded, Some(duration), Some(command))
        else if OutputFileName !in encoded then
          Outcome(Err(FailurePrefix + missing), finishing, true, encoded, Some(duration), Some(command))
        else
          Outcome(Ok(Blob(encoded[OutputFileName], VideoMime)), finishing + Completed, true,
                  Cleanup(encoded, input, s), Some(duration), Some(command))
  }

  /** A whole `compressVideo` call. A service that is not loaded first reports stage 0
      and progress 0 and initializes a fresh engine; an initialization error escapes
      as it is, every later error is prefixed with `Compression failed: `. */
  function Run(t: Tuning, targetBytes: nat, wasLoaded: bool, files: map<string, seq<byte>>, missing: string,
               file: File, s: Script): Outcome
  {
    if wasLoaded then Encode(t, targetBytes, files, missing, file, s, [])
    else
      var init := InitializeOutcome(t.sources, s.host.sources, t.isolationMessage);
      if init.Failed? then Outcome(Err(init.message), Preparing, false, map[], None, None)
      else Encode(t, targetBytes, map[], s.host.missingFile, file, s, Preparing)
  }

  /** The stage numbers among the emissions, in order. */
  function Stages(es: seq<Emission>): (st: seq<nat>)
    ensures |st| <= |es|
  {
    if es == [] then []
    else (if es[0].Stage? then [es[0].stage] else []) + Stages(es[1..])
  }

  lemma {:induction false} StagesAppend(a: seq<Emission>, b: seq<Emission>)
    ensures Stages(a + b) == Stages(a) + Stages(b)
  {
    if a == [] {
      assert a + b == b;
    } else {
      assert (a + b)[0] == a[0];
      assert (a + b)[1..] == a[1..] + b;
      StagesAppend(a[1..], b);
    }
  }

  lemma {:induction false} StagesOfPercents(ps: seq<real>)
    ensures Stages(Percents(ps)) == []
  {
    if ps != [] {
      assert Percents(ps)[1..] == Percents(ps[1..]);
      StagesOfPercents(ps[1..]);
    }
  }

  /** The checkpoints of each phase name their stage. */
  lemma PhaseStages()
    ensures Stages(Preparing) == [0] && Stages(Loading) == [1] && Stages(Written) == [2]
    ensures Stages(Analyzed) == [3] && Stages(Encoded) == [4] && Stages(Completed) == [5]
  {
    assert Preparing[1..][1..] == [] && Loading[1..][1..] == [] && Written[1..][1..] == [];
    assert Analyzed[1..][1..] == [] && Encoded[1..][1..] == [] && Completed[1..][1..] == [];
  }

  /** The working set a call starts from: the loaded engine's, or a fresh engine's. */
  function StartFiles(wasLoaded: bool, files: map<string, seq<byte>>): map<string, seq<byte>>
  {
    if wasLoaded then files else map[]
  }

  /** The opening emissions of a call: stage 0 and progress 0 only for an unloaded
      service. */
  function Opening(wasLoaded: bool): seq<Emission>
  {
    if wasLoaded then [] else Preparing
  }

  /** Unless a first initialization fails, a call is the encode part run on the
      engine it starts with. */
  lemma RunIsEncode(t: Tuning, targetBytes: nat, wasLoaded: bool, files: map<string, seq<byte>>,
                    missing: string, file: File, s: Script)
    requires wasLoaded || InitializeOutcome(t.sources, s.host.sources, t.isolationMessage).Done?
    ensures Run(t, targetBytes, wasLoaded, files, missing, file, s)
      == Encode(t, targetBytes, StartFiles(wasLoaded, files), if wasLoaded then missing else s.host.missingFile,
                file, s, Opening(wasLoaded))
  {
  }

  /** The emissions of a complete encode part. */
  lemma EncodeSuccessShape(t: Tuning, targetBytes: nat, files: map<string, seq<byte>>, missing: string,
                           file: File, s: Script, opening: seq<Emission>)
    requires Encode(t, targetBytes, files, missing, file, s, opening).result.Ok?
    ensures var o := Encode(t, targetBytes, files, missing, file, s, opening);
      var encoded := files[InputFileName(file.name) := file.data] + s.produced;
      s.write.Done? && s.exec.Done? && s.read.Done? && OutputFileName in encoded
      && o.result.value == Blob(encoded[OutputFileName], VideoMime)
      && o.emitted == opening + Loading + Written + Analyzed
           + Percents(ForwardAll(s.events, Some(EstimateDuration(file.Size())), true)) + Encoded + Completed
      && o.files == Cleanup(encoded, InputFileName(file.name), s)
  {
  }

  /** The emissions of an encode part that fails: cut after the write, the encode or
      the read, always with the failure prefix. */
  lemma EncodeFailureShape(t: Tuning, targetBytes: nat, files: map<string, seq<byte>>, missing: string,
                           file: File, s: Script, opening: seq<Emission>)
    requires Encode(t, targetBytes, files, missing, file, s, opening).result.Err?
    ensures var o := Encode(t, targetBytes, files, missing, file, s, opening);
      var fwd := Percents(ForwardAll(s.events, Some(EstimateDuration(file.Size())), true));
      && FailurePrefix <= o.result.message && o.loaded
      && (o.emitted == opening + Loading
          || o.emitted == opening + Loading + Written + Analyzed + fwd
          || o.emitted == opening + Loading + Written + Analyzed + fwd + Encoded)
  {
  }

  /** The stages of a full trace: the opening's, then 1 to 5. */
  lemma StagesOfFullTrace(opening: seq<Emission>, fwd: seq<real>)
    ensures Stages(opening + Loading + Written + Analyzed + Percents(fwd) + Encoded + Completed)
      == Stages(opening) + [1, 2, 3, 4, 5]
  {
    var open := opening;
    var f := Percents(fwd);
    PhaseStages();
    StagesOfPercents(fwd);
    StagesAppend(open + Loading + Written + Analyzed + f + Encoded, Completed);
    StagesAppend(open + Loading + Written + Analyzed + f, Encoded);
    StagesAppend(open + Loading + Written + Analyzed, f);
    StagesAppend(open + Loading + Written, Analyzed);
    StagesAppend(open + Loading, Written);
    StagesAppend(open, Loading);
  }

  /** The stages of a trace cut short: a prefix of 1 to 4 after the opening's. */
  lemma StagesOfCutTrace(opening: seq<Emission>, fwd: seq<real>)
    ensures Stages(opening + Loading) == Stages(opening) + [1]
    ensures Stages(opening + Loading + Written + Analyzed + Percents(fwd)) == Stages(opening) + [1, 2, 3]
    ensures Stages(opening + Loading + Written + Analyzed + Percents(fwd) + Encoded) == Stages(opening) + [1, 2, 3, 4]
  {
    var open := opening;
    var f := Percents(fwd);
    PhaseStages();
    StagesOfPercents(fwd);
    StagesAppend(open + Loading + Written + Analyzed + f, Encoded);
    StagesAppend(open + Loading + Written + Analyzed, f);
    StagesAppend(open + Loading + Written, Analyzed);
    StagesAppend(open + Loading, Written);
    StagesAppend(open, Loading);
  }

  /** A successful call reports every stage once, in order, and every checkpoint in
      order, with the engine's own progress reports between 25 and 85; its blob is the
      encoder's output, typed `video/mp4`. */
  lemma SuccessTrace(t: Tuning, targetBytes: nat, wasLoaded: bool, files: map<string, seq<byte>>,
                     missing: string, file: File, s: Script)
    requires Run(t, targetBytes, wasLoaded, files, missing, file, s).result.Ok?
    ensures var o := Run(t, targetBytes, wasLoaded, files, missing, file, s);
      o.emitted == Opening(wasLoaded) + Loading + Written + Analyzed
        + Percents(ForwardAll(s.events, Some(EstimateDuration(file.Size())), true)) + Encoded + Completed
    ensures var o := Run(t, targetBytes, wasLoaded, files, missing, file, s);
      Stages(o.emitted) == (if wasLoaded then [] else [0]) + [1, 2, 3, 4, 5]
    ensures var o := Run(t, targetBytes, wasLoaded, files, missing, file, s);
      o.result.value.mimeType == VideoMime && o.loaded
    ensures var o := Run(t, targetBytes, wasLoaded, files, missing, file, s);
      var encoded := StartFiles(wasLoaded, files)[InputFileName(file.name) := file.data] + s.produced;
      s.write.Done? && s.exec.Done? && s.read.Done?
      && OutputFileName in encoded && o.result.value.data == encoded[OutputFileName]
  {
    var missing' := if wasLoaded then missing else s.host.missingFile;
    RunIsEncode(t, targetBytes, wasLoaded, files, missing, file, s);
    EncodeSuccessShape(t, targetBytes, StartFiles(wasLoaded, files), missing', file, s, Opening(wasLoaded));
    var fwd := ForwardAll(s.events, Some(EstimateDuration(file.Size())), true);
    StagesOfFullTrace(Opening(wasLoaded), fwd);
    PhaseStages();
    assert Stages([]) == [];
  }

  /** A failed call never reaches stage 5, nor the final 100 checkpoint that goes with
      it, and its message says where it failed. */
  lemma FailureTrace(t: Tuning, targetBytes: nat, wasLoaded: bool, files: map<string, seq<byte>>,
                     missing: string, file: File, s: Script)
    requires Run(t, targetBytes, wasLoaded, files, missing, file, s).result.Err?
    ensures var o := Run(t, targetBytes, wasLoaded, files, missing, file, s);
      5 !in Stages(o.emitted)
    ensures var o := Run(t, targetBytes, wasLoaded, files, missing, file, s);
      var init := InitializeOutcome(t.sources, s.host.sources, t.isolationMessage);
      if !wasLoaded && init.Failed? then
        o.result.message == init.message && o.emitted == Preparing && !o.loaded && o.command.None?
      else
        FailurePrefix <= o.result.message && o.loaded
  {
    var init := InitializeOutcome(t.sources, s.host.sources, t.isolationMessage);
    if wasLoaded || init.Done? {
      var missing' := if wasLoaded then missing else s.host.missingFile;
      var open := Opening(wasLoaded);
      RunIsEncode(t, targetBytes, wasLoaded, files, missing, file, s);
      EncodeFailureShape(t, targetBytes, StartFiles(wasLoaded, files), missing', file, s, open);
      var fwd := ForwardAll(s.events, Some(EstimateDuration(file.Size())), true);
      StagesOfCutTrace(open, fwd);
      PhaseStages();
      assert Stages([]) == [];
      assert 5 !in Stages(open);
    } else {
      PhaseStages();
    }
  }

  /** The encode command carries the estimated duration's plan: the service's floor
      under the cap, its buffer multiple, and the working-set names. */
  lemma CommandPlan(t: Tuning, targetBytes: nat, wasLoaded: bool, files: map<string, seq<byte>>,
                    missing: string, file: File, s: Script)
    requires t == Legacy || t == Current
    requires Run(t, targetBytes, wasLoaded, files, missing, file, s).command.Some?
    ensures var o := Run(t, targetBytes, wasLoaded, files, missing, file, s);
      var plan := Plan(targetBytes as real, EstimateDuration(file.Size()), t.encoding);
      o.command.value == EncoderArgs(InputFileName(file.name), plan, t.encoding)
      && plan.maxrateKbps >= t.encoding.floorKbps
      && OptionValue(o.command.value, "-i") == Some(InputFileName(file.name))
      && OptionValue(o.command.value, "-maxrate") == Some(NatToString(plan.maxrateKbps) + "k")
      && OptionValue(o.command.value, "-bufsize") == Some(HalfText(plan.bufsizeHalfKbps) + "k")
      && Last(o.command.value) == OutputFileName
  {
    var plan := Plan(targetBytes as real, EstimateDuration(file.Size()), t.encoding);
    var input := InputFileName(file.name);
    assert input[0] == 'i';
    EncoderArgsSettings(input, plan, t.encoding);
    EncoderArgsRates(input, plan, t.encoding);
    EncoderArgsOutput(input, plan, t.encoding);
  }

  /** After a success whose two deletes both succeed, the working set holds neither
      the input nor the output; a failing first delete leaves both in place. */
  lemma CleanupEffect(t: Tuning, targetBytes: nat, wasLoaded: bool, files: map<string, seq<byte>>,
                      missing: string, file: File, s: Script)
    requires Run(t, targetBytes, wasLoaded, files, missing, file, s).result.Ok?
    ensures var o := Run(t, targetBytes, wasLoaded, files, missing, file, s);
      s.deleteInput.Done? && s.deleteOutput.Done? ==>
        InputFileName(file.name) !in o.files && OutputFileName !in o.files
    ensures var o := Run(t, targetBytes, wasLoaded, files, missing, file, s);
      s.deleteInput.Failed? ==> InputFileName(file.name) in o.files && OutputFileName in o.files
  {
    var missing' := if wasLoaded then missing else s.host.missingFile;
    RunIsEncode(t, targetBytes, wasLoaded, files, missing, file, s);
    EncodeSuccessShape(t, targetBytes, StartFiles(wasLoaded, files), missing', file, s, Opening(wasLoaded));
    InputFileNameShape(file.name);
  }

  /** A service that was already loaded does not initialize again: nothing precedes
      stage 1. */
  lemma LoadedSkipsInitialize(t: Tuning, targetBytes: nat, files: map<string, seq<byte>>, missing: string,
                              file: File, s: Script)
    ensures var o := Run(t, targetBytes, true, files, missing, file, s);
      o.loaded && |o.emitted| >= 2 && o.emitted[..2] == Loading
  {
  }

  /** The current service's outcome on a 100 MB file: the encoder is asked for a
      1214k cap and a 1821k buffer. */
  lemma CurrentCommandFor100MB(file: File)
    requires |file.data| == 100 * MiB
    ensures EncodeCommand(Current, 8 * MiB, file)[9] == "1214k"
    ensures EncodeCommand(Current, 8 * MiB, file)[11] == "1821k"
  {
    CurrentPlanFor100MB();
    assert NatToString(1214) == NatToString(121) + "4" == NatToString(12) + "14" == "1214";
  }

  /** The engine's answers during `getVideoInfo`. */
  datatype ProbeScript = ProbeScript(host: Host, write: Step, exec: Step)

  /** `{ duration, size }` as `getVideoInfo` returns it. */
  datatype VideoInfo = VideoInfo(duration: real, size: nat)

  /** `getVideoInfo` of the old service: an initialization error escapes; a failing
      write or probe gives the fixed fallback; otherwise the size-based estimate. */
  function ProbeInfo(t: Tuning, wasLoaded: bool, file: File, s: ProbeScript): (r: Result<VideoInfo>)
  {
    var init := if wasLoaded then Done else InitializeOutcome(t.sources, s.host.sources, t.isolationMessage);
    if init.Failed? then Err(init.message)
    else if s.write.Failed? || s.exec.Failed? then Ok(VideoInfo(FallbackDuration, file.Size()))
    else Ok(VideoInfo(ProbeDuration(file.Size()), file.Size()))
  }

  /** The probe reports the file's own size with either the fallback or an estimate of
      at least ten seconds; only a failed initialization makes it an error, and that
      error is never wrapped as a compression failure. */
  lemma ProbeInfoCases(t: Tuning, wasLoaded: bool, file: File, s: ProbeScript)
    requires t == Legacy
    ensures var r := ProbeInfo(t, wasLoaded, file, s);
      r.Ok? ==> r.value.size == file.Size() && (r.value.duration == 60.0 || r.value.duration >= 10.0)
    ensures var r := ProbeInfo(t, wasLoaded, file, s);
      r.Err? <==> !wasLoaded && FirstLoad(LegacySources, s.host.sources).None?
    ensures var r := ProbeInfo(t, wasLoaded, file, s);
      r.Err? ==> r.message == Classify(s.host.sources(ProxySource).message, LegacyIsolationMessage)
    ensures var r := ProbeInfo(t, wasLoaded, file, s);
      (s.write.Failed? || s.exec.Failed?) && r.Ok? ==> r.value.duration == 60.0
  {
    assert LegacySources[1..] == [];
  }
}
