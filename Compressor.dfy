/** components/VideoCompressor.js: the page controller that owns one compression
    service of the current kind, keeps the selected file, the result and the progress
    display, and names the download. */
module Compressor {
  import opened Text
  import opened Outcomes
  import opened Media
  import opened Session
  import opened Compatibility
  import opened Service

  /** The last stage reported in `es`, or `start` when none was. */
  function LastStage(es: seq<Emission>, start: nat): nat
  {
    var st := Stages(es);
    if st == [] then start else st[|st| - 1]
  }

  /** The last percentage reported in `es`, or `start` when none was. */
  function LastPercent(es: seq<Emission>, start: real): real
  {
    if es == [] then start
    else if es[|es| - 1].Percent? then es[|es| - 1].value
    else LastPercent(es[..|es| - 1], start)
  }

  /** The stage shown after a call is either the starting one or one the call reported. */
  lemma LastStageReported(es: seq<Emission>, start: nat)
    ensures LastStage(es, start) == start || LastStage(es, start) in Stages(es)
  {
  }

  /** After a successful call the display reads stage 5 and 100 percent; after a failed
      one it never reads stage 5. */
  lemma DisplayAfterRun(t: Tuning, targetBytes: nat, wasLoaded: bool, files: map<string, seq<byte>>,
                        missing: string, file: File, s: Script)
    ensures var o := Run(t, targetBytes, wasLoaded, files, missing, file, s);
      o.result.Ok? ==> LastStage(o.emitted, 0) == 5 && LastPercent(o.emitted, 0.0) == 100.0
    ensures var o := Run(t, targetBytes, wasLoaded, files, missing, file, s);
      o.result.Err? ==> LastStage(o.emitted, 0) != 5
  {
    var o := Run(t, targetBytes, wasLoaded, files, missing, file, s);
    if o.result.Ok? {
      SuccessTrace(t, targetBytes, wasLoaded, files, missing, file, s);
      var es := o.emitted;
      assert es[|es| - 1] == Stage(5);
      assert es[..|es| - 1][|es| - 2] == Percent(100.0);
    } else {
      FailureTrace(t, targetBytes, wasLoaded, files, missing, file, s);
      LastStageReported(o.emitted, 0);
    }
  }

  /** `compressed.size <= MAX_FILE_SIZE_MB * 1024 * 1024`: the "Target achieved" badge. */
  predicate TargetAchieved(size: nat, maxFileSizeMB: nat)
  {
    size <= maxFileSizeMB * MiB
  }

  /** `name.replace(/\.[^/.]+$/, '')`: a final dot followed by at least one character
      and no slash is removed together with what follows it. */
  function StripExtension(name: string): (stem: string)
    ensures stem <= name
  {
    if '.' !in name then name
    else
      var i := LastIndexOf(name, '.');
      var tail := name[i + 1..];
      if |tail| > 0 && '/' !in tail then name[..i] else name
  }

  /** A stem followed by a dot and an extension free of dots and slashes loses exactly
      the dot and the extension. */
  lemma StripExtensionRoundTrip(stem: string, ext: string)
    requires |ext| > 0 && '.' !in ext && '/' !in ext
    ensures StripExtension(stem + "." + ext) == stem
  {
    var name := stem + "." + ext;
    assert name[|stem|] == '.';
    assert name[|stem| + 1..] == ext;
    assert forall j :: |stem| < j < |name| ==> name[j] == ext[j - |stem| - 1];
    assert name[..|stem|] == stem;
  }

  /** What the pattern leaves alone: a name with no dot, a name ending in a dot, and a
      name whose last dot is followed by a slash. A dot file loses everything. */
  lemma StripExtensionEdges(name: string)
    ensures '.' !in name ==> StripExtension(name) == name
    ensures |name| > 0 && name[|name| - 1] == '.' ==> StripExtension(name) == name
    ensures '.' in name && '/' in name[LastIndexOf(name, '.') + 1..] ==> StripExtension(name) == name
    ensures StripExtension(".bashrc") == ""
  {
    if |name| > 0 && name[|name| - 1] == '.' {
      assert LastIndexOf(name, '.') == |name| - 1;
    }
    StripExtensionRoundTrip("", "bashrc");
    assert "" + "." + "bashrc" == ".bashrc";
  }

  /** `${nameWithoutExt}-8mb-${hostname with dots as underscores}.mp4` */
  function DownloadName(name: string, hostname: string): string
  {
    StripExtension(name) + "-8mb-" + ReplaceAll(hostname, '.', '_') + ".mp4"
  }

  /** The download name starts with the stem, ends in `.mp4`, and between the marker
      and the suffix carries the host name with no dots left. */
  lemma DownloadNameShape(name: string, hostname: string)
    ensures var d := DownloadName(name, hostname); var stem := StripExtension(name);
      && stem <= d
      && d[|d| - 4..] == ".mp4"
      && d[|stem|..|stem| + 5] == "-8mb-"
      && d[|stem| + 5..|d| - 4] == ReplaceAll(hostname, '.', '_')
      && '.' !in d[|stem| + 5..|d| - 4]
  {
    var stem := StripExtension(name);
    var host := ReplaceAll(hostname, '.', '_');
    var d := DownloadName(name, hostname);
    assert d == stem + "-8mb-" + host + ".mp4";
    assert d[|stem| + 5..|d| - 4] == host;
  }

  lemma DownloadNameExample()
    ensures DownloadName("my.clip.MOV", "example.com") == "my.clip-8mb-example_com.mp4"
  {
    StripExtensionRoundTrip("my.clip", "MOV");
    assert "my.clip" + "." + "MOV" == "my.clip.MOV";
    var host := ReplaceAll("example.com", '.', '_');
    assert host == "example_com";
  }

  class Compressor {
    /** The `compressionService` state: one current-kind service for the page's life. */
    const service: CompressionService
    /** `config.MAX_FILE_SIZE_MB` */
    const maxFileSizeMB: nat

    var selectedFile: Option<File>
    var compressedBlob: Option<Blob>
    var isCompressing: bool
    var progress: real
    var currentStage: nat
    var error: string
    var compatibilityError: string

    predicate Valid()
      reads this, service
    {
      service.tuning == Current && service.targetSizeMB == maxFileSizeMB && service.Valid()
    }

    constructor(maxFileSizeMB: nat)
      ensures Valid() && fresh(service) && this.maxFileSizeMB == maxFileSizeMB
      ensures !service.isLoaded && service.ffmpeg == null
      ensures selectedFile.None? && compressedBlob.None? && !isCompressing
      ensures progress == 0.0 && currentStage == 0 && error == "" && compatibilityError == ""
    {
      service := new CompressionService(Current, maxFileSizeMB);
      this.maxFileSizeMB := maxFileSizeMB;
      selectedFile := None;
      compressedBlob := None;
      isCompressing := false;
      progress := 0.0;
      currentStage := 0;
      error := "";
      compatibilityError := "";
    }

    /** The mount effect: an incompatible browser's message is kept for display. */
    method Mount(env: Environment)
      modifies this
      ensures var n := NoticeFor(Issues(Detect(env)));
        compatibilityError == (if n.kind == Error then n.message else old(compatibilityError))
      ensures selectedFile == old(selectedFile) && compressedBlob == old(compressedBlob)
      ensures isCompressing == old(isCompressing) && progress == old(progress)
      ensures currentStage == old(currentStage) && error == old(error)
    {
      var compatibility := GetCompatibilityMessage(env);
      if compatibility.kind == Error {
        compatibilityError := compatibility.message;
      }
    }

    /** The "Continue Anyway" button. */
    method DismissCompatibility()
      modifies this
      ensures compatibilityError == ""
      ensures selectedFile == old(selectedFile) && compressedBlob == old(compressedBlob)
      ensures isCompressing == old(isCompressing) && progress == old(progress)
      ensures currentStage == old(currentStage) && error == old(error)
    {
      compatibilityError := "";
    }

    /** The unmount cleanup: the service is terminated. */
    method Unmount(o: Step)
      requires Valid()
      modifies service, service.ffmpeg
      ensures Valid() && !service.isLoaded
      ensures service.ffmpeg == old(service.ffmpeg)
      ensures old(service.isLoaded) ==> !service.ffmpeg.loaded && service.ffmpeg.files == map[]
    {
      service.Terminate(o);
    }

    /** `handleFileSelect(file)`: a new file forgets the previous result, error and
        progress. */
    method HandleFileSelect(file: File)
      modifies this
      ensures selectedFile == Some(file) && compressedBlob.None? && error == ""
      ensures progress == 0.0 && currentStage == 0
      ensures isCompressing == old(isCompressing) && compatibilityError == old(compatibilityError)
    {
      selectedFile := Some(file);
      compressedBlob := None;
      error := "";
      progress := 0.0;
      currentStage := 0;
    }

    /** `handleCompress()`: nothing without a file; otherwise the display restarts at
        zero, follows every callback of the service, and ends with either the blob or
        the error message, no longer compressing. `warned` is the console warning for a
        result above the target. */
    method HandleCompress(s: Script) returns (warned: bool)
      requires Valid()
      modifies this, service, service.ffmpeg
      ensures Valid()
      ensures selectedFile == old(selectedFile) && compatibilityError == old(compatibilityError)
      ensures old(selectedFile).None? ==>
        && compressedBlob == old(compressedBlob) && isCompressing == old(isCompressing)
        && progress == old(progress) && currentStage == old(currentStage) && error == old(error)
        && !warned && unchanged(service)
      ensures old(selectedFile).Some? ==>
        var o := Run(Current, service.TargetBytes(), old(service.isLoaded), old(service.Files()),
                     old(service.Missing()), old(selectedFile).value, s);
        && !isCompressing
        && progress == LastPercent(o.emitted, 0.0) && currentStage == LastStage(o.emitted, 0)
        && compressedBlob == (if o.result.Ok? then Some(o.result.value) else None)
        && error == (if o.result.Err? then o.result.message else "")
        && (warned <==> o.result.Ok? && !TargetAchieved(o.result.value.Size(), maxFileSizeMB))
        && service.isLoaded == o.loaded && service.ffmpeg != null && service.ffmpeg.files == o.files
    {
      warned := false;
      if selectedFile.None? {
        return;
      }
      var file := selectedFile.value;
      isCompressing := true;
      error := "";
      progress := 0.0;
      currentStage := 0;
      compressedBlob := None;
      var compressed, emitted, _ := service.CompressVideo(file, s);
      progress := LastPercent(emitted, progress);
      currentStage := LastStage(emitted, currentStage);
      match compressed {
        case Ok(blob) =>
          compressedBlob := Some(blob);
          warned := blob.Size() > maxFileSizeMB * MiB;
        case Err(message) =>
          error := message;
      }
      isCompressing := false;
    }

    /** `handleCancel()`: the display drops back to zero at once; the service is
        terminated and the error then reads "Compression cancelled". */
    method HandleCancel(o: Step)
      requires Valid()
      modifies this, service, service.ffmpeg
      ensures Valid() && !service.isLoaded
      ensures !isCompressing && progress == 0.0 && currentStage == 0
      ensures error == "Compression cancelled"
      ensures selectedFile == old(selectedFile) && compressedBlob == old(compressedBlob)
      ensures compatibilityError == old(compatibilityError)
    {
      isCompressing := false;
      progress := 0.0;
      currentStage := 0;
      service.Terminate(o);
      error := "Compression cancelled";
    }

    /** `handleDownload()`: the name the download gets, or nothing when either the
        result or the file is missing. */
    method HandleDownload(hostname: string) returns (name: Option<string>)
      ensures compressedBlob.None? || selectedFile.None? ==> name.None?
      ensures compressedBlob.Some? && selectedFile.Some? ==>
        name == Some(DownloadName(selectedFile.value.name, hostname))
    {
      if compressedBlob.None? || selectedFile.None? {
        return None;
      }
      var original := selectedFile.value.name;
      var stem := StripExtension(original);
      var host := ReplaceAll(hostname, '.', '_');
      name := Some(stem + "-8mb-" + host + ".mp4");
    }

    /** `handleReset()`: back to the empty page. */
    method HandleReset()
      modifies this
      ensures selectedFile.None? && compressedBlob.None? && !isCompressing
      ensures progress == 0.0 && currentStage == 0 && error == ""
      ensures compatibilityError == old(compatibilityError)
    {
      selectedFile := None;
      compressedBlob := None;
      isCompressing := false;
      progress := 0.0;
      currentStage := 0;
      error := "";
    }
  }
}
