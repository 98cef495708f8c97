/** Progress reporting of both compression services: ffmpeg's `time=HH:MM:SS.ff` log
    lines and the engine's ratio events, each turned into a percentage for the
    progress callback. */
module Progress {
  import opened Text
  import opened Outcomes

  /** The literal that starts a time stamp in ffmpeg's log. */
  const Key: string := "time="

  /** `time=` plus `\d{2}:\d{2}:\d{2}.\d{2}`: five plus eleven characters. */
  const StampLength: nat := 16

  /** The characters JavaScript's `.` does not match. */
  predicate IsLineTerminator(c: char)
  {
    c == '\n' || c == '\r' || c == '\U{2028}' || c == '\U{2029}'
  }

  /** The characters JavaScript's `.` consumes in one step: a single UTF-16 code unit
      that is not a line terminator. A character outside the Basic Multilingual Plane
      is two code units, and the digit after the first would then be its low
      surrogate, so the pattern cannot match there. */
  predicate WildcardMatches(c: char)
  {
    !IsLineTerminator(c) && c as int < 0x1_0000
  }

  /** The pattern `time=(\d{2}):(\d{2}):(\d{2}.\d{2})` matches at position `i`. */
  predicate MatchesAt(s: string, i: nat)
  {
    i + StampLength <= |s|
    && s[i..i + 5] == Key
    && IsDigit(s[i + 5]) && IsDigit(s[i + 6]) && s[i + 7] == ':'
    && IsDigit(s[i + 8]) && IsDigit(s[i + 9]) && s[i + 10] == ':'
    && IsDigit(s[i + 11]) && IsDigit(s[i + 12]) && WildcardMatches(s[i + 13])
    && IsDigit(s[i + 14]) && IsDigit(s[i + 15])
  }

  /** The leftmost match at or after `i`, as `String.prototype.match` finds it. */
  function FirstMatchFrom(s: string, i: nat): (m: Option<nat>)
    ensures m.Some? ==> i <= m.value && MatchesAt(s, m.value)
    ensures m.Some? ==> forall j :: i <= j < m.value ==> !MatchesAt(s, j)
    ensures m.None? ==> forall j :: i <= j ==> !MatchesAt(s, j)
    decreases |s| - i
  {
    if i + StampLength > |s| then None
    else if MatchesAt(s, i) then Some(i)
    else FirstMatchFrom(s, i + 1)
  }

  function TwoDigitValue(a: char, b: char): nat
    requires IsDigit(a) && IsDigit(b)
  {
    10 * DigitValue(a) + DigitValue(b)
  }

  function Pow10(n: nat): (p: nat)
    ensures p >= 1
  {
    if n == 0 then 1 else 10 * Pow10(n - 1)
  }

  /** `parseFloat` of the five-character seconds field `dd?dd`: the wildcard decides
      how much of the field is a number. */
  function ParseSeconds(f: string): (r: real)
    requires |f| == 5 && IsDigit(f[0]) && IsDigit(f[1]) && IsDigit(f[3]) && IsDigit(f[4])
    ensures r >= 0.0
    ensures f[2] == '.' ==> TwoDigitValue(f[0], f[1]) as real <= r < TwoDigitValue(f[0], f[1]) as real + 1.0
  {
    var whole := TwoDigitValue(f[0], f[1]);
    var tail := TwoDigitValue(f[3], f[4]);
    if f[2] == '.' then whole as real + tail as real / 100.0
    else if IsDigit(f[2]) then (1000 * whole + 100 * DigitValue(f[2]) + tail) as real
    else if f[2] == 'e' || f[2] == 'E' then (whole * Pow10(tail)) as real
    else whole as real
  }

  /** `hours * 3600 + minutes * 60 + seconds` of the stamp that matches at `i`. */
  function StampSeconds(s: string, i: nat): (t: real)
    requires MatchesAt(s, i)
    ensures t >= 0.0
  {
    var hours := TwoDigitValue(s[i + 5], s[i + 6]);
    var minutes := TwoDigitValue(s[i + 8], s[i + 9]);
    (hours * 3600 + minutes * 60) as real + ParseSeconds(s[i + 11..i + 16])
  }

  /** The elapsed time a log line reports, if it carries a stamp. */
  function ElapsedSeconds(line: string): (t: Option<real>)
    ensures t.Some? ==> t.value >= 0.0
  {
    match FirstMatchFrom(line, 0)
    case None => None
    case Some(i) => Some(StampSeconds(line, i))
  }

  function Min(a: real, b: real): real { if a < b then a else b }

  /** The video duration is truthy: defined and not zero. */
  predicate Truthy(duration: Option<real>) { duration.Some? && duration.value != 0.0 }

  /** What the `log` handler forwards for one line: nothing unless the line mentions
      `time=`, carries a full stamp and a duration is known; otherwise the elapsed
      share of the duration as a percentage, capped at 100. */
  function LogProgress(line: string, duration: Option<real>, hasCallback: bool): (p: Option<real>)
    ensures p.Some? <==> hasCallback && ElapsedSeconds(line).Some? && Truthy(duration)
    ensures p.Some? ==> p.value <= 100.0
    ensures p.Some? ==> p.value == Min(ElapsedSeconds(line).value / duration.value * 100.0, 100.0)
    ensures p.Some? && duration.value > 0.0 ==> 0.0 <= p.value
  {
    if !Contains(line, Key) then
      MatchContainsKey(line);
      None
    else
      match ElapsedSeconds(line)
      case None => None
      case Some(t) =>
        if Truthy(duration) && hasCallback then
          MinOfNonNegative(t, duration.value);
          Some(Min(t / duration.value * 100.0, 100.0))
        else None
  }

  lemma MinOfNonNegative(t: real, d: real)
    requires t >= 0.0
    ensures d > 0.0 ==> t / d * 100.0 >= 0.0
  {
  }

  /** A stamp contains the key, so the `includes('time=')` test never hides one. */
  lemma MatchContainsKey(line: string)
    ensures ElapsedSeconds(line).Some? ==> Contains(line, Key)
  {
    var m := FirstMatchFrom(line, 0);
    if m.Some? {
      ContainsAt(line, Key, m.value);
    }
  }

  /** What the `progress` handler forwards for a ratio: nothing without a callback or
      without a ratio, otherwise the ratio as a percentage capped at 100 (and not
      clamped from below). */
  function RatioProgress(ratio: Option<real>, hasCallback: bool): (p: Option<real>)
    ensures p.Some? <==> hasCallback && ratio.Some?
    ensures p.Some? ==> p.value <= 100.0
    ensures p.Some? ==> (p.value == 100.0 <==> ratio.value >= 1.0)
    ensures p.Some? && ratio.value < 1.0 ==> p.value == ratio.value * 100.0
  {
    if hasCallback && ratio.Some? then Some(Min(ratio.value * 100.0, 100.0)) else None
  }

  /** One event of the engine while it encodes. */
  datatype EngineEvent = Log(message: string) | Ratio(progress: Option<real>)

  /** The value the service hands to the progress callback for one event, if any. */
  function Forward(e: EngineEvent, duration: Option<real>, hasCallback: bool): Option<real>
  {
    match e
    case Log(line) => LogProgress(line, duration, hasCallback)
    case Ratio(p) => RatioProgress(p, hasCallback)
  }

  /** Every value forwarded for a run of events, in order. */
  function ForwardAll(events: seq<EngineEvent>, duration: Option<real>, hasCallback: bool): (out: seq<real>)
    ensures |out| <= |events|
    ensures forall k :: 0 <= k < |out| ==> out[k] <= 100.0
  {
    if events == [] then []
    else
      var rest := ForwardAll(events[1..], duration, hasCallback);
      match Forward(events[0], duration, hasCallback)
      case None => rest
      case Some(p) => [p] + rest
  }

  lemma ForwardAllAppend(a: seq<EngineEvent>, b: seq<EngineEvent>, duration: Option<real>, hasCallback: bool)
    ensures ForwardAll(a + b, duration, hasCallback) == ForwardAll(a, duration, hasCallback) + ForwardAll(b, duration, hasCallback)
  {
    if a == [] {
      assert a + b == b;
    } else {
      assert (a + b)[0] == a[0];
      assert (a + b)[1..] == a[1..] + b;
      ForwardAllAppend(a[1..], b, duration, hasCallback);
    }
  }

  /** Without a callback nothing is forwarded. */
  lemma {:induction false} ForwardAllWithoutCallback(events: seq<EngineEvent>, duration: Option<real>)
    ensures ForwardAll(events, duration, false) == []
  {
    if events != [] {
      ForwardAllWithoutCallback(events[1..], duration);
    }
  }

  /** A clock reading as ffmpeg prints it: hours, minutes, seconds and hundredths. */
  datatype Clock = Clock(hours: nat, minutes: nat, seconds: nat, hundredths: nat)
  {
    predicate Valid() { hours < 100 && minutes < 100 && seconds < 100 && hundredths < 100 }

    function Seconds(): real
    {
      (hours * 3600 + minutes * 60 + seconds) as real + hundredths as real / 100.0
    }
  }

  /** `time=HH:MM:SS.ff` for a clock reading. */
  function Stamp(c: Clock): (s: string)
    requires c.Valid()
    ensures |s| == StampLength
  {
    Key + TwoDigits(c.hours) + ":" + TwoDigits(c.minutes) + ":" + TwoDigits(c.seconds)
      + "." + TwoDigits(c.hundredths)
  }

  lemma StampMatches(c: Clock)
    requires c.Valid()
    ensures MatchesAt(Stamp(c), 0)
    ensures StampSeconds(Stamp(c), 0) == c.Seconds()
  {
    var s := Stamp(c);
    assert s[0..5] == Key;
    assert s[11..16] == TwoDigits(c.seconds) + "." + TwoDigits(c.hundredths);
  }

  /** A stamp printed after text that holds no `t` is read back exactly: the parser
      inverts ffmpeg's rendering. */
  lemma ElapsedOfStamp(prefix: string, c: Clock, suffix: string)
    requires c.Valid() && 't' !in prefix
    ensures ElapsedSeconds(prefix + Stamp(c) + suffix) == Some(c.Seconds())
  {
    var stamp := Stamp(c);
    var line := prefix + stamp + suffix;
    var n := |prefix|;
    StampMatches(c);
    assert line[n..n + StampLength] == stamp;
    assert MatchesAt(line, n) by {
      assert line[n..n + 5] == stamp[0..5];
      assert forall k :: 0 <= k < StampLength ==> line[n + k] == stamp[k];
    }
    assert StampSeconds(line, n) == StampSeconds(stamp, 0) by {
      assert line[n + 11..n + 16] == stamp[11..16];
      assert forall k :: 0 <= k < StampLength ==> line[n + k] == stamp[k];
    }
    NoMatchBefore(prefix, line, 0);
    assert FirstMatchFrom(line, 0) == Some(n) by {
      FirstMatchSkips(line, 0, n);
    }
  }

  /** A match starts with `t`, so none starts inside a `t`-free prefix. */
  lemma NoMatchBefore(prefix: string, line: string, j: nat)
    requires prefix <= line && 't' !in prefix
    ensures forall k :: j <= k < |prefix| ==> !MatchesAt(line, k)
  {
    forall k | j <= k < |prefix|
      ensures !MatchesAt(line, k)
    {
      assert line[k] == prefix[k] != 't';
      if k + 5 <= |line| {
        assert line[k..k + 5][0] == line[k];
      }
    }
  }

  lemma {:induction false} FirstMatchSkips(s: string, i: nat, n: nat)
    requires i <= n && MatchesAt(s, n)
    requires forall k :: i <= k < n ==> !MatchesAt(s, k)
    ensures FirstMatchFrom(s, i) == Some(n)
    decreases n - i
  {
    if i < n {
      FirstMatchSkips(s, i + 1, n);
    }
  }

  /** ffmpeg prints 1 minute 30.5 seconds as `time=00:01:30.50`. */
  lemma ExampleStamp()
    ensures Stamp(Clock(0, 1, 30, 50)) == "time=00:01:30.50"
  {
    assert TwoDigits(0) == "00" && TwoDigits(1) == "01";
    assert TwoDigits(30) == "30" && TwoDigits(50) == "50";
  }

  /** The stamp after the frame counter is read back as 90.5 seconds. */
  lemma ExampleElapsed()
    ensures ElapsedSeconds("frame=100 time=00:01:30.50") == Some(90.5)
  {
    var c := Clock(0, 1, 30, 50);
    ExampleStamp();
    assert "frame=100 " + Stamp(c) + "" == "frame=100 time=00:01:30.50";
    ElapsedOfStamp("frame=100 ", c, "");
  }

  /** A line reporting 1 minute 30.5 seconds of a 180-second video is 90.5/180 of
      the way. */
  lemma LogProgressExample()
    ensures LogProgress("frame=100 time=00:01:30.50", Some(180.0), true) == Some(90.5 / 180.0 * 100.0)
  {
    ExampleElapsed();
    MatchContainsKey("frame=100 time=00:01:30.50");
  }

  /** The unescaped `.` in the pattern lets a digit stand in for the decimal point,
      and `parseFloat` then reads all five characters as whole seconds. */
  lemma WildcardDigitExample()
    ensures ElapsedSeconds("time=00:00:12345") == Some(12345.0)
    ensures LogProgress("time=00:00:12345", Some(60.0), true) == Some(100.0)
  {
    var s := "time=00:00:12345";
    assert MatchesAt(s, 0);
    assert s[11..16] == "12345";
  }

  /** A character outside the Basic Multilingual Plane where the decimal point belongs
      is two UTF-16 code units: `.` takes the first and `\d` fails on the second, so
      the line carries no stamp and nothing is forwarded. */
  lemma AstralWildcardExample()
    ensures ElapsedSeconds("time=00:00:12\U{1F600}34") == None
    ensures LogProgress("time=00:00:12\U{1F600}34", Some(60.0), true) == None
  {
    var s := "time=00:00:12\U{1F600}34";
    assert |s| == StampLength && s[13] == '\U{1F600}';
    assert !MatchesAt(s, 0);
  }
}
