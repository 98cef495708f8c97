/** The compression service object shared by services/VideoCompressionService.js
    (`Legacy`) and services/VideoCompressionServiceV2.js (`Current`): its fields, the
    engine it drives and the callbacks it calls. Every method is proved against the
    functions of the `Loader`, `Progress` and `Session` modules. */
module Service {
  import opened Text
  import opened Outcomes
  import opened Media
  import opened Planner
  import opened Progress
  import opened Loader
  import opened Session
  import opened FFmpeg

  class CompressionService {
    /** Which of the two service classes this object is. */
    const tuning: Tuning
    /** `config.MAX_FILE_SIZE_MB`, the size every result should fit. */
    const targetSizeMB: nat

    var ffmpeg: Engine?
    var isLoaded: bool
    /** `this.videoDuration`; `None` until a duration is estimated. */
    var videoDuration: Option<real>
    /** Whether `progressCallback` and `stageCallback` are set. */
    var hasProgressCallback: bool
    var hasStageCallback: bool

    /** A loaded service has an engine, and a known duration is never below five seconds. */
    predicate Valid()
      reads this
    {
      (isLoaded ==> ffmpeg != null) && (videoDuration.Some? ==> videoDuration.value >= 5.0)
    }

    function TargetBytes(): nat
    {
      targetSizeMB * MiB
    }

    /** The engine's working set, empty when there is no engine. */
    function Files(): map<string, seq<byte>>
      reads this, ffmpeg
    {
      if ffmpeg != null then ffmpeg.files else map[]
    }

    /** How the current engine words a read of a missing file. */
    function Missing(): string
      reads this
    {
      if ffmpeg != null then ffmpeg.missingFileMessage else ""
    }

    constructor(tuning: Tuning, targetSizeMB: nat)
      ensures this.tuning == tuning && this.targetSizeMB == targetSizeMB
      ensures ffmpeg == null && !isLoaded && videoDuration.None?
      ensures !hasProgressCallback && !hasStageCallback
      ensures Valid()
    {
      this.tuning := tuning;
      this.targetSizeMB := targetSizeMB;
      ffmpeg := null;
      isLoaded := false;
      videoDuration := None;
      hasProgressCallback := false;
      hasStageCallback := false;
    }

    method SetCallbacks()
      modifies this
      ensures hasProgressCallback && hasStageCallback
      ensures ffmpeg == old(ffmpeg) && isLoaded == old(isLoaded) && videoDuration == old(videoDuration)
    {
      hasProgressCallback := true;
      hasStageCallback := true;
    }

    /** `initialize()`: nothing when loaded; otherwise a fresh engine tries the sources
        in order until one loads, and the failure of the last one is classified. */
    method Initialize(host: Host) returns (r: Step)
      requires Valid()
      modifies this
      ensures Valid()
      ensures old(isLoaded) ==> r == Done && isLoaded && ffmpeg == old(ffmpeg)
      ensures !old(isLoaded) ==>
        && ffmpeg != null && fresh(ffmpeg)
        && r == InitializeOutcome(tuning.sources, host.sources, tuning.isolationMessage)
        && isLoaded == r.Done? && ffmpeg.loaded == r.Done?
        && ffmpeg.attempts == Tried(tuning.sources, host.sources)
        && ffmpeg.files == map[] && ffmpeg.commands == []
        && ffmpeg.missingFileMessage == host.missingFile
      ensures videoDuration == old(videoDuration)
      ensures hasProgressCallback == old(hasProgressCallback) && hasStageCallback == old(hasStageCallback)
    {
      if isLoaded {
        return Done;
      }
      var engine := new Engine(host.missingFile);
      ffmpeg := engine;
      var sources := tuning.sources;
      var i := 0;
      var loadSuccess := false;
      var lastError: Option<string> := None;
      while i < |sources|
        invariant 0 <= i <= |sources|
        invariant engine.attempts == sources[..i]
        invariant engine.files == map[] && engine.commands == [] && !engine.loaded
        invariant forall j :: 0 <= j < i ==> host.sources(sources[j]).Failed?
        invariant lastError == if i == 0 then None else Some(host.sources(sources[i - 1]).message)
        invariant ffmpeg == engine && !isLoaded
        modifies engine
      {
        var o := engine.Load(sources[i], host.sources(sources[i]));
        if o.Done? {
          loadSuccess := true;
          FirstLoadAt(sources, host.sources, i);
          i := i + 1;
          break;
        }
        lastError := Some(o.message);
        i := i + 1;
      }
      if !loadSuccess {
        assert sources[..i] == sources;
        AllFailed(sources, host.sources);
        var message := if lastError.Some? then lastError.value else AllSourcesFailed;
        return Failed(Classify(message, tuning.isolationMessage));
      }
      isLoaded := true;
      r := Done;
    }

    /** `parseProgressFromLog(message)`: the value handed to the progress callback. */
    method ParseProgressFromLog(message: string) returns (p: Option<real>)
      ensures p == LogProgress(message, videoDuration, hasProgressCallback)
    {
      MatchContainsKey(message);
      var elapsed := ElapsedSeconds(message);
      if elapsed.Some? && Truthy(videoDuration) && hasProgressCallback {
        p := Some(Min(elapsed.value / videoDuration.value * 100.0, 100.0));
      } else {
        p := None;
      }
    }

    /** The engine's `log` handler: lines mentioning `time=` go to the parser. */
    method OnLog(message: string) returns (p: Option<real>)
      ensures p == Forward(Log(message), videoDuration, hasProgressCallback)
    {
      if Contains(message, Key) {
        p := ParseProgressFromLog(message);
      } else {
        MatchContainsKey(message);
        p := None;
      }
    }

    /** The engine's `progress` handler. */
    method OnProgress(progress: Option<real>) returns (p: Option<real>)
      ensures p == Forward(Ratio(progress), videoDuration, hasProgressCallback)
    {
      if hasProgressCallback && progress.Some? {
        p := Some(Min(progress.value * 100.0, 100.0));
      } else {
        p := None;
      }
    }

    /** The handlers run over the events the engine emits, collecting every value
        passed to the progress callback. */
    method DispatchEvents(events: seq<EngineEvent>) returns (out: seq<real>)
      ensures out == ForwardAll(events, videoDuration, hasProgressCallback)
    {
      out := [];
      var i := 0;
      while i < |events|
        invariant 0 <= i <= |events|
        invariant out == ForwardAll(events[..i], videoDuration, hasProgressCallback)
      {
        var p: Option<real>;
        match events[i] {
          case Log(m) => p := OnLog(m);
          case Ratio(x) => p := OnProgress(x);
        }
        ForwardAllAppend(events[..i], [events[i]], videoDuration, hasProgressCallback);
        assert events[..i + 1] == events[..i] + [events[i]];
        out := out + (if p.Some? then [p.value] else []);
        i := i + 1;
      }
      assert events[..i] == events;
    }

    /** `compressVideo(file, onProgress, onStageChange)`: the result, every callback
        value in order, and whether the old service's oversize warning fires. */
    method CompressVideo(file: File, s: Script) returns (r: Result<Blob>, emitted: seq<Emission>, warned: bool)
      requires Valid()
      modifies this, ffmpeg
      ensures Valid() && ffmpeg != null
      ensures var o := Run(tuning, TargetBytes(), old(isLoaded), old(Files()), old(Missing()), file, s);
        && r == o.result && emitted == o.emitted && isLoaded == o.loaded
        && ffmpeg.files == o.files
        && videoDuration == (if o.duration.Some? then o.duration else old(videoDuration))
        && ffmpeg.commands == (if old(isLoaded) then old(ffmpeg.commands) else [])
             + (if o.command.Some? then [o.command.value] else [])
      ensures old(isLoaded) ==> ffmpeg == old(ffmpeg)
      ensures !old(isLoaded) ==> fresh(ffmpeg)
      ensures warned <==> tuning.warnsOversize && r.Ok? && r.value.Size() > TargetBytes()
    {
      var wasLoaded := isLoaded;
      var opening: seq<Emission> := [];
      if !isLoaded {
        opening := Preparing;
        var init := Initialize(s.host);
        if init.Failed? {
          r, emitted, warned := Err(init.message), opening, false;
          return;
        }
      }
      assert ffmpeg.files == StartFiles(wasLoaded, old(Files()));
      RunIsEncode(tuning, TargetBytes(), wasLoaded, old(Files()), old(Missing()), file, s);
      SetCallbacks();
      r, emitted, warned := EncodeOnEngine(file, s, opening);
    }

    /** The body of `compressVideo` once the engine is ready and the callbacks are set. */
    method EncodeOnEngine(file: File, s: Script, opening: seq<Emission>)
      returns (r: Result<Blob>, emitted: seq<Emission>, warned: bool)
      requires Valid() && isLoaded && hasProgressCallback
      modifies this, ffmpeg
      ensures Valid() && ffmpeg == old(ffmpeg) && isLoaded
      ensures var o := Encode(tuning, TargetBytes(), old(ffmpeg.files), ffmpeg.missingFileMessage, file, s, opening);
        && r == o.result && emitted == o.emitted && ffmpeg.files == o.files
        && videoDuration == (if o.duration.Some? then o.duration else old(videoDuration))
        && ffmpeg.commands == old(ffmpeg.commands) + (if o.command.Some? then [o.command.value] else [])
      ensures warned <==> tuning.warnsOversize && r.Ok? && r.value.Size() > TargetBytes()
    {
      var engine := ffmpeg;
      warned := false;
      emitted := opening + Loading;
      var input := InputFileName(file.name);
      var w := engine.WriteFile(input, file.data, s.write);
      if w.Failed? {
        r := Err(FailurePrefix + w.message);
        return;
      }
      emitted := emitted + Written;
      var duration := EstimateDuration(file.Size());
      videoDuration := Some(duration);
      emitted := emitted + Analyzed;
      var plan := Plan(TargetBytes() as real, duration, tuning.encoding);
      var args := EncoderArgs(input, plan, tuning.encoding);
      var forwarded := DispatchEvents(s.events);
      emitted := emitted + Percents(forwarded);
      var x := engine.Exec(args, s.exec, s.produced);
      if x.Failed? {
        r := Err(FailurePrefix + x.message);
        return;
      }
      emitted := emitted + Encoded;
      var data := engine.ReadFile(OutputFileName, s.read);
      if data.Err? {
        r := Err(FailurePrefix + data.message);
        return;
      }
      var blob := Blob(data.value, VideoMime);
      var deleted := engine.DeleteFile(input, s.deleteInput);
      if deleted.Done? {
        var _ := engine.DeleteFile(OutputFileName, s.deleteOutput);
      }
      emitted := emitted + Completed;
      warned := tuning.warnsOversize && blob.Size() > TargetBytes();
      r := Ok(blob);
    }

    /** `getVideoInfo(file)` of the old service: the probe's estimate, or the fallback
        when the engine fails; it is never given the lower-cased name. */
    method GetVideoInfo(file: File, s: ProbeScript) returns (r: Result<VideoInfo>)
      requires Valid() && tuning == Legacy
      modifies this, ffmpeg
      ensures Valid()
      ensures r == ProbeInfo(tuning, old(isLoaded), file, s)
      ensures r.Ok? ==> ffmpeg != null && isLoaded
      ensures r.Ok? ==> var start := StartFiles(old(isLoaded), old(Files()));
        ffmpeg.files == if s.write.Done? then start[ProbeFileName(file.name) := file.data] else start
      ensures videoDuration == if r.Ok? && s.write.Done? && s.exec.Done? then Some(r.value.duration)
                               else old(videoDuration)
    {
      if !isLoaded {
        var init := Initialize(s.host);
        if init.Failed? {
          r := Err(init.message);
          return;
        }
      }
      var engine := ffmpeg;
      var name := ProbeFileName(file.name);
      var w := engine.WriteFile(name, file.data, s.write);
      if w.Failed? {
        r := Ok(VideoInfo(FallbackDuration, file.Size()));
        return;
      }
      var x := engine.Exec(ProbeArgs(name), s.exec, map[]);
      if x.Failed? {
        r := Ok(VideoInfo(FallbackDuration, file.Size()));
        return;
      }
      assert map[] + engine.files == engine.files;
      var duration := ProbeDuration(file.Size());
      videoDuration := Some(duration);
      r := Ok(VideoInfo(duration, file.Size()));
    }

    /** `terminate()`: only a loaded engine is torn down, its errors are swallowed, and
        the service is then unloaded; otherwise nothing changes. */
    method Terminate(o: Step)
      requires Valid()
      modifies this, ffmpeg
      ensures Valid() && ffmpeg == old(ffmpeg)
      ensures old(isLoaded) ==> !isLoaded && !ffmpeg.loaded && ffmpeg.files == map[]
      ensures !old(isLoaded) ==> !isLoaded && (ffmpeg != null ==> unchanged(ffmpeg))
      ensures videoDuration == old(videoDuration)
      ensures hasProgressCallback == old(hasProgressCallback) && hasStageCallback == old(hasStageCallback)
    {
      if ffmpeg != null && isLoaded {
        var _ := ffmpeg.Terminate(o);
        isLoaded := false;
      }
    }
  }

  /** When every source fails, no source loads. */
  lemma AllFailed(sources: seq<string>, outcomeOf: string -> Step)
    requires forall j :: 0 <= j < |sources| ==> outcomeOf(sources[j]).Failed?
    ensures FirstLoad(sources, outcomeOf).None?
  {
  }

  /** The loop in `initialize` stops at the first source that loads. */
  lemma FirstLoadAt(sources: seq<string>, outcomeOf: string -> Step, i: nat)
    requires i < |sources| && outcomeOf(sources[i]).Done?
    requires forall j :: 0 <= j < i ==> outcomeOf(sources[j]).Failed?
    ensures FirstLoad(sources, outcomeOf) == Some(i)
    ensures Tried(sources, outcomeOf) == sources[..i + 1]
  {

  }
}
