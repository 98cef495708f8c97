/** How `initialize` of both services chooses an asset source for the engine and
    what it reports when none loads. Each source's load outcome is an input. */
module Loader {
  import opened Text
  import opened Outcomes

  /** The sources of the current service, in the order they are tried. */
  const ProxySource: string := "/ffmpeg-proxy"
  const UnpkgSource: string := "https://unpkg.com/@ffmpeg/core@0.12.6/dist/umd"
  const JsdelivrSource: string := "https://cdn.jsdelivr.net/npm/@ffmpeg/core@0.12.6/dist/umd"
  const CurrentSources: seq<string> := [ProxySource, UnpkgSource, JsdelivrSource]

  /** The old service only ever loads from the local proxy. */
  const LegacySources: seq<string> := [ProxySource]

  const AllSourcesFailed: string := "Failed to load FFmpeg from all sources"
  const EnginePrefix: string := "Failed to initialize " + "video processing engine: "

  /** Both services open their isolation message with the same sentence. */
  const IsolationRequired: string := "Cross-origin isolation required. "
  const LegacyIsolationMessage: string :=
    IsolationRequired + "Please serve over HTTPS or enable cross-origin headers."
  const CurrentIsolationMessage: string :=
    IsolationRequired + "Please ensure the app is served with proper headers."

  /** Position of the first source that loads, if any. */
  function FirstLoad(sources: seq<string>, outcomeOf: string -> Step): (k: Option<nat>)
    ensures k.Some? ==> k.value < |sources| && outcomeOf(sources[k.value]).Done?
    ensures k.Some? ==> forall j :: 0 <= j < k.value ==> outcomeOf(sources[j]).Failed?
    ensures k.None? ==> forall j :: 0 <= j < |sources| ==> outcomeOf(sources[j]).Failed?
  {
    if sources == [] then None
    else if outcomeOf(sources[0]).Done? then Some(0)
    else match FirstLoad(sources[1..], outcomeOf)
      case None => None
      case Some(k) => Some(k + 1)
  }

  /** The sources actually tried: up to and including the first that loads, or all. */
  function Tried(sources: seq<string>, outcomeOf: string -> Step): (t: seq<string>)
    ensures t <= sources
    ensures FirstLoad(sources, outcomeOf).None? <==> t == sources && forall j :: 0 <= j < |t| ==> outcomeOf(t[j]).Failed?
    ensures FirstLoad(sources, outcomeOf).Some? ==> |t| > 0 && outcomeOf(Last(t)).Done?
  {
    match FirstLoad(sources, outcomeOf)
    case None => sources
    case Some(k) => sources[..k + 1]
  }

  /** The error thrown when no source loads: the last source's error, or a fixed
      message when no source was tried. */
  function LoadError(sources: seq<string>, outcomeOf: string -> Step): (m: string)
    requires FirstLoad(sources, outcomeOf).None?
  {
    if sources == [] then AllSourcesFailed else outcomeOf(Last(sources)).message
  }

  /** An engine error that points at missing cross-origin isolation. */
  predicate IsIsolationError(message: string)
  {
    Contains(message, "SharedArrayBuffer") || Contains(message, "crossOriginIsolated")
  }

  /** The error `initialize` rethrows for an underlying error message. */
  function Classify(message: string, isolationMessage: string): (m: string)
  {
    if IsIsolationError(message) then isolationMessage else EnginePrefix + message
  }

  /** The outcome of `initialize` on an engine that is not yet loaded. */
  function InitializeOutcome(sources: seq<string>, outcomeOf: string -> Step, isolationMessage: string): (r: Step)
    ensures r.Done? <==> FirstLoad(sources, outcomeOf).Some?
  {
    if FirstLoad(sources, outcomeOf).Some? then Done
    else Failed(Classify(LoadError(sources, outcomeOf), isolationMessage))
  }

  /** Classification puts an isolation problem in the fixed message and wraps every
      other message whole after the generic prefix; the two kinds never coincide. */
  lemma ClassifyCases(message: string, isolationMessage: string)
    requires isolationMessage == LegacyIsolationMessage || isolationMessage == CurrentIsolationMessage
    ensures IsIsolationError(message) ==> Classify(message, isolationMessage) == isolationMessage
    ensures !IsIsolationError(message) ==> Classify(message, isolationMessage) == EnginePrefix + message
    ensures Classify(message, isolationMessage) == isolationMessage <==> IsIsolationError(message)
  {
    assert (EnginePrefix + message)[0] == 'F' != IsolationRequired[0] == isolationMessage[0];
  }

  /** The current service stops at the proxy when it loads, and reaches the last CDN
      only after the proxy and unpkg have both failed. */
  lemma CurrentSourceOrder(outcomeOf: string -> Step)
    ensures outcomeOf(ProxySource).Done? ==> Tried(CurrentSources, outcomeOf) == [ProxySource]
    ensures outcomeOf(ProxySource).Failed? && outcomeOf(UnpkgSource).Done?
      ==> Tried(CurrentSources, outcomeOf) == [ProxySource, UnpkgSource]
    ensures JsdelivrSource in Tried(CurrentSources, outcomeOf)
      <==> outcomeOf(ProxySource).Failed? && outcomeOf(UnpkgSource).Failed?
  {
    var s := CurrentSources;
    assert s[1..] == [UnpkgSource, JsdelivrSource] && s[1..][1..] == [JsdelivrSource];
    assert s[1..][1..][1..] == [];
    assert |ProxySource| < |UnpkgSource| < |JsdelivrSource|;
    var k := FirstLoad(s, outcomeOf);
    if outcomeOf(ProxySource).Done? {
      assert k == Some(0);
    } else if outcomeOf(UnpkgSource).Done? {
      assert FirstLoad(s[1..], outcomeOf) == Some(0);
      assert k == Some(1);
    } else if outcomeOf(JsdelivrSource).Done? {
      assert FirstLoad(s[1..][1..], outcomeOf) == Some(0);
      assert FirstLoad(s[1..], outcomeOf) == Some(1);
      assert k == Some(2);
    } else {
      assert FirstLoad(s[1..][1..][1..], outcomeOf) == None;
      assert FirstLoad(s[1..][1..], outcomeOf) == None;
      assert FirstLoad(s[1..], outcomeOf) == None;
      assert k == None;
    }
  }

  /** When every source fails, the last one's error is what gets classified. */
  lemma AllFailReportsLast(sources: seq<string>, outcomeOf: string -> Step)
    requires |sources| > 0
    requires forall j :: 0 <= j < |sources| ==> outcomeOf(sources[j]).Failed?
    ensures InitializeOutcome(sources, outcomeOf, CurrentIsolationMessage)
      == Failed(Classify(outcomeOf(Last(sources)).message, CurrentIsolationMessage))
  {
  }
}
