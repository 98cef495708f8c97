/** utils/compatibility.js: the browser feature checklist and the message built from
    it. The four browser probes are parameters. */
module Compatibility {
  import opened Text
  import opened Outcomes

  /** What the browser exposes: whether `SharedArrayBuffer`, `WebAssembly` and `Worker`
      are defined, and `window.crossOriginIsolated`, which may be undefined. */
  datatype Environment = Environment(
    sharedArrayBuffer: bool,
    webAssembly: bool,
    crossOriginIsolated: Option<bool>,
    webWorkers: bool)

  /** The `details` object: four plain flags. */
  datatype Capabilities = Capabilities(
    sharedArrayBuffer: bool,
    webAssembly: bool,
    crossOriginIsolated: bool,
    webWorkers: bool)

  /** An undefined `crossOriginIsolated` counts as false (`|| false`). */
  function Detect(env: Environment): (c: Capabilities)
    ensures c.crossOriginIsolated <==> env.crossOriginIsolated == Some(true)
    ensures c.sharedArrayBuffer == env.sharedArrayBuffer && c.webAssembly == env.webAssembly
    ensures c.webWorkers == env.webWorkers
  {
    Capabilities(env.sharedArrayBuffer, env.webAssembly,
                 env.crossOriginIsolated.Some? && env.crossOriginIsolated.value, env.webWorkers)
  }

  const SharedArrayBufferIssue: string :=
    "SharedArrayBuffer is not available. This usually means the page is not cross-origin isolated."
  const WebAssemblyIssue: string := "WebAssembly is not supported in this browser."
  const IsolationIssue: string :=
    "Cross-origin isolation is not enabled. This is required for SharedArrayBuffer."
  const WorkersIssue: string := "Web Workers are not supported in this browser."

  /** The position of an issue in the checklist's fixed order. */
  function Rank(issue: string): nat
  {
    if issue == SharedArrayBufferIssue then 0
    else if issue == WebAssemblyIssue then 1
    else if issue == IsolationIssue then 2
    else 3
  }

  function Count(b: bool): nat { if b then 1 else 0 }

  /** The issues `checkCompatibility` collects, one per missing feature. */
  function Issues(c: Capabilities): (issues: seq<string>)
    ensures |issues| <= 4
  {
    (if c.sharedArrayBuffer then [] else [SharedArrayBufferIssue])
      + (if c.webAssembly then [] else [WebAssemblyIssue])
      + (if c.crossOriginIsolated then [] else [IsolationIssue])
      + (if c.webWorkers then [] else [WorkersIssue])
  }

  /** Each issue is reported exactly when its feature is missing, the issues come in
      the fixed order SharedArrayBuffer, WebAssembly, cross-origin isolation, workers,
      and none is reported twice. */
  lemma IssuesMeaning(c: Capabilities)
    ensures SharedArrayBufferIssue in Issues(c) <==> !c.sharedArrayBuffer
    ensures WebAssemblyIssue in Issues(c) <==> !c.webAssembly
    ensures IsolationIssue in Issues(c) <==> !c.crossOriginIsolated
    ensures WorkersIssue in Issues(c) <==> !c.webWorkers
    ensures |Issues(c)| == Count(!c.sharedArrayBuffer) + Count(!c.webAssembly)
      + Count(!c.crossOriginIsolated) + Count(!c.webWorkers)
    ensures forall i, j :: 0 <= i < j < |Issues(c)| ==> Rank(Issues(c)[i]) < Rank(Issues(c)[j])
    ensures Issues(c) == [] <==> c.sharedArrayBuffer && c.webAssembly && c.crossOriginIsolated && c.webWorkers
  {
    assert |SharedArrayBufferIssue| == 93 && |WebAssemblyIssue| == 45;
    assert |IsolationIssue| == 78 && |WorkersIssue| == 46;
  }

  /** `{ isCompatible, issues, details }` */
  datatype Report = Report(isCompatible: bool, issues: seq<string>, details: Capabilities)

  /** `checkCompatibility()` for the given browser. */
  method CheckCompatibility(env: Environment) returns (r: Report)
    ensures r.details == Detect(env)
    ensures r.issues == Issues(r.details)
    ensures r.isCompatible <==> r.issues == []
  {
    var c := Detect(env);
    var issues: seq<string> := [];
    if !c.sharedArrayBuffer {
      issues := issues + [SharedArrayBufferIssue];
    }
    if !c.webAssembly {
      issues := issues + [WebAssemblyIssue];
    }
    if !c.crossOriginIsolated {
      issues := issues + [IsolationIssue];
    }
    if !c.webWorkers {
      issues := issues + [WorkersIssue];
    }
    r := Report(|issues| == 0, issues, c);
  }

  /** A browser is compatible exactly when it has all four features. */
  lemma CompatibleExactly(env: Environment)
    ensures Issues(Detect(env)) == [] <==>
      env.sharedArrayBuffer && env.webAssembly && env.crossOriginIsolated == Some(true) && env.webWorkers
  {
    IssuesMeaning(Detect(env));
  }

  datatype Kind = Success | Error

  /** `{ type, message }` */
  datatype Notice = Notice(kind: Kind, message: string)

  const SuccessMessage: string := "Your browser supports all required features!"
  const Header: string := "Your browser or environment has some compatibility issues:\n\n"
  const Remedies: string :=
    "\nTo fix these issues:\n"
    + "• Make sure you're using a modern browser (Chrome 88+, Firefox 79+, Safari 15.2+)\n"
    + "• If developing locally, use HTTPS (try: npx serve -s build --ssl-cert)\n"
    + "• For production, ensure your server sends the required headers:\n"
    + "  - Cross-Origin-Embedder-Policy: require-corp\n"
    + "  - Cross-Origin-Opener-Policy: same-origin\n"

  /** `${n}. ${issue}\n` */
  function Line(n: nat, issue: string): string
  {
    NatToString(n) + ". " + issue + "\n"
  }

  /** The numbered lines of the issues, counted from 1. */
  function NumberedLines(issues: seq<string>): string
  {
    if issues == [] then ""
    else NumberedLines(issues[..|issues| - 1]) + Line(|issues|, issues[|issues| - 1])
  }

  /** The message `getCompatibilityMessage` shows for the issues found. */
  function NoticeFor(issues: seq<string>): Notice
  {
    if issues == [] then Notice(Success, SuccessMessage)
    else Notice(Error, Header + NumberedLines(issues) + Remedies)
  }

  /** The `forEach` of `getCompatibilityMessage()`: one line per issue, numbered from 1,
      appended in order. */
  method AppendNumberedLines(issues: seq<string>) returns (lines: string)
    ensures lines == NumberedLines(issues)
  {
    lines := "";
    var index := 0;
    while index < |issues|
      invariant 0 <= index <= |issues|
      invariant lines == NumberedLines(issues[..index])
    {
      assert issues[..index + 1][..index] == issues[..index];
      lines := lines + Line(index + 1, issues[index]);
      index := index + 1;
    }
    assert issues[..index] == issues;
  }

  /** `getCompatibilityMessage()`: the success notice for a compatible browser, else the
      header, the numbered issues and the remedies. */
  method GetCompatibilityMessage(env: Environment) returns (n: Notice)
    ensures n == NoticeFor(Issues(Detect(env)))
  {
    var result := CheckCompatibility(env);
    if result.isCompatible {
      return Notice(Success, SuccessMessage);
    }
    var lines := AppendNumberedLines(result.issues);
    n := Notice(Error, Header + lines + Remedies);
  }

  /** The lines for a prefix of the issues begin the lines for all of them. */
  lemma {:induction false} NumberedLinesPrefix(issues: seq<string>, k: nat)
    requires k <= |issues|
    ensures NumberedLines(issues[..k]) <= NumberedLines(issues)
    decreases |issues| - k
  {
    if k < |issues| {
      var n := |issues|;
      NumberedLinesPrefix(issues[..n - 1], k);
      assert issues[..n - 1][..k] == issues[..k];
    } else {
      assert issues[..k] == issues;
    }
  }

  /** Where the line of issue `k` starts in the numbered lines. */
  function LineOffset(issues: seq<string>, k: nat): nat
    requires k < |issues|
  {
    |NumberedLines(issues[..k])|
  }

  /** The line of issue `k`, numbered `k + 1`, sits at its offset. */
  lemma LineAt(issues: seq<string>, k: nat)
    requires k < |issues|
    ensures var off := LineOffset(issues, k); var line := Line(k + 1, issues[k]);
      off + |line| <= |NumberedLines(issues)| && NumberedLines(issues)[off..off + |line|] == line
  {
    var upto := issues[..k + 1];
    assert upto[..k] == issues[..k] && upto[k] == issues[k];
    assert NumberedLines(upto) == NumberedLines(issues[..k]) + Line(k + 1, issues[k]);
    NumberedLinesPrefix(issues, k + 1);
  }

  /** Every issue appears on a line numbered with its position, counted from 1. */
  lemma NumberedLinesHoldEach(issues: seq<string>, k: nat)
    requires k < |issues|
    ensures Contains(NumberedLines(issues), Line(k + 1, issues[k]))
  {
    LineAt(issues, k);
    ContainsAt(NumberedLines(issues), Line(k + 1, issues[k]), LineOffset(issues, k));
  }

  /** Whatever surrounds the numbered lines, each issue's line is still in the text. */
  lemma {:induction false} SurroundedLinesHoldEach(before: string, issues: seq<string>, after: string, k: nat)
    requires k < |issues|
    ensures Contains(before + NumberedLines(issues) + after, Line(k + 1, issues[k]))
  {
    LineAt(issues, k);
    var body := NumberedLines(issues);
    var message := before + body + after;
    var off := LineOffset(issues, k);
    var line := Line(k + 1, issues[k]);
    assert message[|before| + off..|before| + off + |line|] == body[off..off + |line|];
    ContainsAt(message, line, |before| + off);
  }

  /** A compatible browser gets the success notice; any other gets an error notice that
      opens with the header, lists every issue with its number and closes with the
      remedies. */
  lemma NoticeCases(env: Environment)
    ensures var issues := Issues(Detect(env));
      issues == [] ==> NoticeFor(issues) == Notice(Success, SuccessMessage)
    ensures var issues := Issues(Detect(env)); var n := NoticeFor(issues);
      issues != [] ==>
        && n.kind == Error
        && Header <= n.message
        && n.message[|n.message| - |Remedies|..] == Remedies
        && forall k :: 0 <= k < |issues| ==> Contains(n.message, Line(k + 1, issues[k]))
  {
    var issues := Issues(Detect(env));
    if issues != [] {
      forall k | 0 <= k < |issues|
        ensures Contains(Header + NumberedLines(issues) + Remedies, Line(k + 1, issues[k]))
      {
        SurroundedLinesHoldEach(Header, issues, Remedies, k);
      }
    }
  }
}
