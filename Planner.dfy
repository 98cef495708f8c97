/** The arithmetic and naming inside the two compression services: the file-size
    duration heuristics, the bitrate cap and buffer size handed to the encoder, the
    working-set file names and the encoder argument list. JavaScript computes these
    in doubles; they are modelled with exact reals and `.Floor`. */
module Planner {
  import opened Text
  import opened Media
  import opened FileNames
  import opened Outcomes

  function Max(a: real, b: real): real { if a > b then a else b }

  /** `file.size / (1024 * 1024)`. */
  function SizeMB(size: nat): real { size as real / MiB as real }

  /** `Math.max(fileSizeMB * 0.5, 5)`: the encode path's estimate of the duration in
      seconds, half a second per megabyte and never under five seconds. */
  function EstimateDuration(size: nat): (d: real)
    ensures d >= 5.0 && d >= SizeMB(size) * 0.5
    ensures size >= 10 * MiB ==> d == SizeMB(size) * 0.5
    ensures size <= 10 * MiB ==> d == 5.0
  {
    Max(SizeMB(size) * 0.5, 5.0)
  }

  /** `Math.max(file.size / (1024 * 1024), 10)`: `getVideoInfo`'s estimate, one second
      per megabyte and never under ten seconds. */
  function ProbeDuration(size: nat): (d: real)
    ensures d >= 10.0 && d >= SizeMB(size)
    ensures size >= 10 * MiB ==> d == SizeMB(size)
    ensures size <= 10 * MiB ==> d == 10.0
  {
    Max(SizeMB(size), 10.0)
  }

  /** The duration `getVideoInfo` reports when probing fails. */
  const FallbackDuration: real := 60.0

  /** The average bit rate, in bits per second, that spends `targetBytes` over `duration`. */
  function BitsPerSecond(targetBytes: real, duration: real): real
    requires duration != 0.0
  {
    targetBytes * 8.0 / duration
  }

  /** `Math.max(Math.floor(targetBytes * 8 / duration / 1000) - 128, floor)`, in kbps.
      Above the floor it is the largest whole kbps rate that, with a 128 kbps audio
      allowance, fits the budget; the floor wins when nothing above it fits. */
  function Bitrate(targetBytes: real, duration: real, floor: int): (r: int)
    requires duration != 0.0
    ensures r >= floor
    ensures r > floor ==>
      ((r + 128) * 1000) as real <= BitsPerSecond(targetBytes, duration) < ((r + 129) * 1000) as real
    ensures r == floor ==> BitsPerSecond(targetBytes, duration) < ((floor + 129) * 1000) as real
  {
    var raw := (targetBytes * 8.0 / duration / 1000.0).Floor - 128;
    if raw > floor then raw else floor
  }

  /** A longer duration never raises the rate for a non-negative budget. */
  lemma BitrateNonIncreasing(targetBytes: real, d1: real, d2: real, floor: int)
    requires targetBytes >= 0.0 && 0.0 < d1 <= d2
    ensures Bitrate(targetBytes, d2, floor) <= Bitrate(targetBytes, d1, floor)
  {
    var x := targetBytes * 8.0;
    assert x / d2 <= x / d1 by {
      assert x / d2 * d2 == x == x / d1 * d1;
      assert x / d1 * d1 <= x / d1 * d2;
    }
    var a, b := x / d2 / 1000.0, x / d1 / 1000.0;
    assert a <= b;
    assert a.Floor <= b.Floor;
  }

  /** JavaScript's rendering of the number h / 2: digits, with `.5` when h is odd. */
  function HalfText(h: nat): string
  {
    if h % 2 == 0 then NatToString(h / 2) else NatToString(h / 2) + ".5"
  }

  /** Reading the rendered text back gives h / 2: its integer digits are h / 2 rounded
      down and the `.5` appears exactly when h is odd. */
  lemma HalfTextValue(h: nat)
    ensures h % 2 == 0 ==> (forall i :: 0 <= i < |HalfText(h)| ==> IsDigit(HalfText(h)[i]))
    ensures h % 2 == 0 ==> 2 * DigitsValue(HalfText(h)) == h
    ensures h % 2 == 1 ==> |HalfText(h)| >= 3 && HalfText(h)[|HalfText(h)| - 2..] == ".5"
    ensures h % 2 == 1 ==> 2 * DigitsValue(HalfText(h)[..|HalfText(h)| - 2]) + 1 == h
  {
    DigitsValueOfNatToString(h / 2);
    if h % 2 == 1 {
      var s := HalfText(h);
      assert s[..|s| - 2] == NatToString(h / 2);
    }
  }

  /** The encoder settings that differ between the two services. */
  datatype Encoding = Encoding(
    preset: string,
    crf: string,
    floorKbps: nat,        // minimum `-maxrate`
    bufsizeHalves: nat,    // `-bufsize` is `-maxrate` times bufsizeHalves / 2
    audioBitrate: string)

  /** services/VideoCompressionService.js: preset fast, crf 28, floor 300, bufsize x2, 128k audio. */
  const LegacyEncoding := Encoding("fast", "28", 300, 4, "128k")

  /** services/VideoCompressionServiceV2.js: preset ultrafast, crf 30, floor 400, bufsize x1.5, 96k audio. */
  const CurrentEncoding := Encoding("ultrafast", "30", 400, 3, "96k")

  /** The rate-control settings handed to the encoder: the `-maxrate` cap in kbps and
      the `-bufsize` in half-kbps, so that a 1.5 multiplier stays a whole number. */
  datatype BitratePlan = BitratePlan(maxrateKbps: nat, bufsizeHalfKbps: nat)

  /** The plan a service derives for a byte budget and an estimated duration: the
      floored cap, and a buffer of the service's multiple of it. */
  function Plan(targetBytes: real, duration: real, e: Encoding): (p: BitratePlan)
    requires duration > 0.0
    ensures p.maxrateKbps >= e.floorKbps
    ensures p.maxrateKbps == Bitrate(targetBytes, duration, e.floorKbps)
    ensures p.bufsizeHalfKbps == p.maxrateKbps * e.bufsizeHalves
  {
    var rate := Bitrate(targetBytes, duration, e.floorKbps);
    BitratePlan(rate, rate * e.bufsizeHalves)
  }

  /** The one output name in the working set. */
  const OutputFileName := "output.mp4"

  /** `'input.' + file.name.split('.').pop().toLowerCase()`. */
  function InputFileName(name: string): string
  {
    "input." + ToLowerAscii(ExtensionOf(name))
  }

  /** `getVideoInfo`'s name: the same, without lower-casing. */
  function ProbeFileName(name: string): string
  {
    "input." + ExtensionOf(name)
  }

  /** The input name keeps the original extension, lower-cased, and never collides
      with the output name. */
  lemma InputFileNameShape(name: string)
    ensures ExtensionOf(InputFileName(name)) == ToLowerAscii(ExtensionOf(name))
    ensures InputFileName(name) != OutputFileName
    ensures '.' !in name ==> InputFileName(name) == "input." + ToLowerAscii(name)
  {
    var lowered := ToLowerAscii(ExtensionOf(name));
    ToLowerAsciiKeepsAbsent(ExtensionOf(name), '.');
    ExtensionOfDotted("input", lowered);
    assert "input." + lowered == "input" + ['.'] + lowered;
    assert InputFileName(name)[0] == 'i' != OutputFileName[0];
  }

  /** The probe command of `getVideoInfo`: decode the input to the null muxer. */
  function ProbeArgs(input: string): seq<string>
  {
    ["-i", input, "-f", "null", "-"]
  }

  /** The single encode command: H.264 with the service's preset and crf, the
      computed `-maxrate` and `-bufsize`, AAC audio, fast start, MP4, overwrite. */
  function EncoderArgs(input: string, p: BitratePlan, e: Encoding): seq<string>
  {
    ["-i", input,
     "-c:v", "libx264",
     "-preset", e.preset,
     "-crf", e.crf,
     "-maxrate", NatToString(p.maxrateKbps) + "k",
     "-bufsize", HalfText(p.bufsizeHalfKbps) + "k",
     "-c:a", "aac",
     "-b:a", e.audioBitrate,
     "-movflags", "+faststart",
     "-f", "mp4",
     "-y",
     OutputFileName]
  }

  predicate IsFlag(arg: string) { |arg| > 0 && arg[0] == '-' }

  /** The value that follows the first occurrence of `flag` at or after position `i`,
      as the encoder reads its argument list from left to right. */
  function OptionValueFrom(args: seq<string>, flag: string, i: nat): (v: Option<string>)
    decreases |args| - i
  {
    if i + 1 >= |args| then None
    else if args[i] == flag then Some(args[i + 1])
    else OptionValueFrom(args, flag, i + 1)
  }

  function OptionValue(args: seq<string>, flag: string): (v: Option<string>)
  {
    OptionValueFrom(args, flag, 0)
  }

  /** The encoder reads the input name, the preset and the crf. */
  lemma EncoderArgsSettings(input: string, p: BitratePlan, e: Encoding)
    requires !IsFlag(input) && !IsFlag(e.preset)
    ensures OptionValue(EncoderArgs(input, p, e), "-i") == Some(input)
    ensures OptionValue(EncoderArgs(input, p, e), "-preset") == Some(e.preset)
    ensures OptionValue(EncoderArgs(input, p, e), "-crf") == Some(e.crf)
  {
    var args := EncoderArgs(input, p, e);
    assert OptionValueFrom(args, "-preset", 4) == Some(e.preset);
    assert OptionValueFrom(args, "-preset", 3) == Some(e.preset);
    assert OptionValueFrom(args, "-preset", 2) == Some(e.preset);
    assert OptionValueFrom(args, "-preset", 1) == Some(e.preset);
    assert OptionValueFrom(args, "-crf", 6) == Some(e.crf);
    assert OptionValueFrom(args, "-crf", 5) == Some(e.crf);
    assert OptionValueFrom(args, "-crf", 4) == Some(e.crf);
    assert OptionValueFrom(args, "-crf", 3) == Some(e.crf);
    assert OptionValueFrom(args, "-crf", 2) == Some(e.crf);
    assert OptionValueFrom(args, "-crf", 1) == Some(e.crf);
  }

  /** The encoder reads the plan's rate cap and buffer size. */
  lemma EncoderArgsRates(input: string, p: BitratePlan, e: Encoding)
    requires !IsFlag(input) && !IsFlag(e.preset) && !IsFlag(e.crf)
    ensures OptionValue(EncoderArgs(input, p, e), "-maxrate") == Some(NatToString(p.maxrateKbps) + "k")
    ensures OptionValue(EncoderArgs(input, p, e), "-bufsize") == Some(HalfText(p.bufsizeHalfKbps) + "k")
  {
    var args := EncoderArgs(input, p, e);
    var m, b := Some(args[9]), Some(args[11]);
    assert OptionValueFrom(args, "-maxrate", 8) == m;
    assert OptionValueFrom(args, "-maxrate", 7) == m;
    assert OptionValueFrom(args, "-maxrate", 6) == m;
    assert OptionValueFrom(args, "-maxrate", 5) == m;
    assert OptionValueFrom(args, "-maxrate", 4) == m;
    assert OptionValueFrom(args, "-maxrate", 3) == m;
    assert OptionValueFrom(args, "-maxrate", 2) == m;
    assert OptionValueFrom(args, "-maxrate", 1) == m;
    assert OptionValueFrom(args, "-bufsize", 10) == b;
    assert args[9][0] != '-';
    assert OptionValueFrom(args, "-bufsize", 9) == b;
    assert OptionValueFrom(args, "-bufsize", 8) == b;
    assert OptionValueFrom(args, "-bufsize", 7) == b;
    assert OptionValueFrom(args, "-bufsize", 6) == b;
    assert OptionValueFrom(args, "-bufsize", 5) == b;
    assert OptionValueFrom(args, "-bufsize", 4) == b;
    assert OptionValueFrom(args, "-bufsize", 3) == b;
    assert OptionValueFrom(args, "-bufsize", 2) == b;
    assert OptionValueFrom(args, "-bufsize", 1) == b;
  }

  /** The output name is the last argument, so the encoder writes exactly that entry. */
  lemma EncoderArgsOutput(input: string, p: BitratePlan, e: Encoding)
    ensures |EncoderArgs(input, p, e)| == 22
    ensures Last(EncoderArgs(input, p, e)) == OutputFileName
  {
    var args := EncoderArgs(input, p, e);
    assert args[21] == OutputFileName;
  }

  /** A 100 MB file under the current service: 50 s estimated, 1214k cap, 1821k buffer. */
  lemma CurrentPlanFor100MB()
    ensures EstimateDuration(100 * MiB) == 50.0
    ensures Plan((8 * MiB) as real, 50.0, CurrentEncoding) == BitratePlan(1214, 3642)
    ensures HalfText(3642) == "1821"
  {
    var b := (8 * MiB) as real * 8.0 / 50.0 / 1000.0;
    assert 1342.0 <= b < 1343.0;
    assert b.Floor == 1342;
    assert NatToString(1821) == NatToString(182) + "1" == NatToString(18) + "21" == "1821";
  }

  /** A 2000 MB file under the old service: 1000 s estimated and the 300k floor. */
  lemma LegacyPlanFor2000MB()
    ensures EstimateDuration(2000 * MiB) == 1000.0
    ensures Plan((8 * MiB) as real, 1000.0, LegacyEncoding) == BitratePlan(300, 1200)
  {
    var b := (8 * MiB) as real * 8.0 / 1000.0 / 1000.0;
    assert 67.0 <= b < 68.0;
    assert b.Floor == 67;
  }
}
