/** The serial line decoder: validates a line of `|`-separated slider
    readings, keeps a per-slider cache of the last reported value, and turns
    every significant change into a slider-move event. */
module Serial {
  import opened Base
  import opened Text
  import opened Scalar
  import Config

  /** Largest reading a slider reports (10-bit converter). */
  const MaxRawValue: int := 1023

  /** Cache value that no reading can equal, set for every slider after a count change. */
  const Sentinel: real := -1.0

  const FieldSeparator: char := '|'
  const LineEnding: string := "\r\n"

  datatype SliderMoveEvent = SliderMoveEvent(sliderId: int, percentValue: real)

  /** The two configuration fields the decoder reads. */
  datatype DecoderConfig = DecoderConfig(invertSliders: bool, noiseReductionLevel: string)

  /** The decoder's mutable part: the slider count of the last matching line
      and the last value reported for each slider. */
  datatype DecoderState = DecoderState(lastKnownNumSliders: int, current: seq<real>)

  datatype LineOutcome = LineOutcome(state: DecoderState, events: seq<SliderMoveEvent>)

  const InitialState: DecoderState := DecoderState(0, [])

  /** Every reachable state: either no count recorded yet (start-up, or after a
      configuration reload), or one cache slot per slider. */
  predicate WellFormed(st: DecoderState)
  {
    st.lastKnownNumSliders == 0 || |st.current| == st.lastKnownNumSliders
  }

  // ---------------------------------------------------------------------------
  // The line pattern ^\d{1,4}(\|\d{1,4})*\r\n$
  // ---------------------------------------------------------------------------

  /** Length of the run of decimal digits that starts `s`. */
  function DigitRun(s: string): (n: nat)
    ensures n <= |s|
    ensures AllDigits(s[..n])
    ensures n < |s| ==> !IsDigit(s[n])
  {
    if |s| == 0 || !IsDigit(s[0]) then 0
    else
      var n := DigitRun(s[1..]);
      assert s[..n + 1] == [s[0]] + s[1..][..n];
      n + 1
  }

  /** One field of the pattern: one to four decimal digits. */
  predicate IsField(f: string)
  {
    1 <= |f| <= 4 && AllDigits(f)
  }

  /** `s` matches `\d{1,4}(\|\d{1,4})*` as a whole, read left to right the way
      the regular expression reads it. */
  predicate FieldsMatch(s: string)
    decreases |s|
  {
    var n := DigitRun(s);
    1 <= n <= 4 && (n == |s| || (s[n] == FieldSeparator && FieldsMatch(s[n + 1..])))
  }

  /** The expected line pattern of the decoder. */
  predicate ExpectedLinePattern(line: string)
  {
    HasSuffix(line, LineEnding) && FieldsMatch(line[..|line| - 2])
  }

  /** The digit run is the only prefix of digits that is followed by a non-digit or the end. */
  lemma DigitRunUnique(s: string, m: nat)
    requires m <= |s| && AllDigits(s[..m]) && (m < |s| ==> !IsDigit(s[m]))
    ensures DigitRun(s) == m
  {
    var n := DigitRun(s);
    assert forall k | 0 <= k < m :: s[..m][k] == s[k];
    assert forall k | 0 <= k < n :: s[..n][k] == s[k];
  }

  /** Matching consumes one field up to the first separator, then the rest. */
  lemma FieldsMatchUnfold(s: string)
    ensures var i := IndexOf(s, FieldSeparator);
            FieldsMatch(s) <==> IsField(s[..i]) && (i == |s| || FieldsMatch(s[i + 1..]))
  {
    var i := IndexOf(s, FieldSeparator);
    if AllDigits(s[..i]) {
      DigitRunUnique(s, i);
    } else {
      var j :| 0 <= j < i && !IsDigit(s[..i][j]);
      var n := DigitRun(s);
      assert forall k | 0 <= k < n :: s[..n][k] == s[k];
      assert s[j] == s[..i][j];
      assert n <= j;
      assert s[n] != FieldSeparator by {
        assert s[n] == s[..i][n];
      }
    }
  }

  /** Every piece is a field. */
  predicate AllFields(parts: seq<string>)
  {
    forall j | 0 <= j < |parts| :: IsField(parts[j])
  }

  lemma AllFieldsCons(f: string, rest: seq<string>)
    ensures AllFields([f] + rest) <==> IsField(f) && AllFields(rest)
  {
    var parts := [f] + rest;
    assert parts[0] == f;
    assert forall j | 0 <= j < |rest| :: parts[j + 1] == rest[j];
  }

  /** The left-to-right reading of the pattern agrees with splitting on `|`:
      a string matches exactly when every piece of its split is a field. */
  lemma {:induction false} FieldsMatchIffSplitFields(s: string)
    ensures FieldsMatch(s) <==> AllFields(Split(s, FieldSeparator))
    decreases |s|
  {
    var i := IndexOf(s, FieldSeparator);
    FieldsMatchUnfold(s);
    if i < |s| {
      FieldsMatchIffSplitFields(s[i + 1..]);
      AllFieldsCons(s[..i], Split(s[i + 1..], FieldSeparator));
    } else {
      assert s[..i] == s;
      AllFieldsCons(s, []);
    }
  }

  // ---------------------------------------------------------------------------
  // One field: parse, normalise, invert, debounce
  // ---------------------------------------------------------------------------

  /** A field denotes at most 9999. */
  lemma FieldBound(s: string)
    ensures IsField(s) ==> DigitsValue(s) < 10000
  {
    if IsField(s) {
      DigitsValueBound(s);
      assert Pow10(|s|) <= 10000 by {
        assert Pow10(1) == 10 && Pow10(2) == 100 && Pow10(3) == 1000 && Pow10(4) == 10000;
      }
    }
  }

  /** The per-field validation: an integer per `strconv.Atoi` that is not above 1023. */
  function ParseField(s: string): (r: Option<int>)
    ensures r.Some? ==> r.value <= MaxRawValue
    ensures IsField(s) && DigitsValue(s) <= MaxRawValue ==> r == Some(DigitsValue(s))
    ensures IsField(s) && DigitsValue(s) > MaxRawValue ==> r == None
  {
    FieldBound(s);
    match Atoi(s)
    case Err(_) => None
    case Ok(raw) => if raw > MaxRawValue then None else Some(raw)
  }

  /** The reported value of a reading: two-decimal truncation of raw/1023,
      inverted when configured. */
  function FieldValue(raw: int, invert: bool): real
  {
    var scaled := NormalizeScalar(raw as real / 1023.0);
    if invert then Invert(scaled) else scaled
  }

  /** For every reading 0..1023 the reported value is floor(100 * raw / 1023)
      hundredths, or its complement to 100 when inverted, and lies in [0, 1]:
      511 reports 0.49, 512 reports 0.50 and 1023 reports 1.00. */
  lemma FieldValueOnGrid(raw: int, invert: bool)
    requires 0 <= raw <= MaxRawValue
    ensures FieldValue(raw, invert) == (if invert then 100 - Hundredths(raw) else Hundredths(raw)) as real / 100.0
    ensures 0.0 <= FieldValue(raw, invert) <= 1.0
    ensures !invert ==> FieldValue(511, invert) == 0.49 && FieldValue(512, invert) == 0.50 && FieldValue(1023, invert) == 1.00
  {
    NormalizeRaw(raw);
    HundredthsRange(raw);
    NormalizeRaw(511);
    NormalizeRaw(512);
    NormalizeRaw(1023);
  }

  datatype FieldResult = FieldResult(cached: real, event: Option<real>)

  /** One validated reading against its cache slot: the new slot value, and the
      value to report when the change is significant. */
  function FieldStep(prev: real, raw: int, cfg: DecoderConfig): (r: FieldResult)
    ensures r.event.Some? <==> SignificantlyDifferent(prev, FieldValue(raw, cfg.invertSliders), cfg.noiseReductionLevel)
    ensures r.event.Some? ==> r.cached == r.event.value == FieldValue(raw, cfg.invertSliders)
    ensures r.event.None? ==> r.cached == prev
  {
    var v := FieldValue(raw, cfg.invertSliders);
    if SignificantlyDifferent(prev, v, cfg.noiseReductionLevel) then FieldResult(v, Some(v))
    else FieldResult(prev, None)
  }

  /** On the hundredths grid the field pipeline reports exactly the moves of at
      least MinSteps hundredths and the moves onto either end of the range;
      the first reading after a reset always reports. */
  lemma FieldStepOnGrid(prevHundredths: int, raw: int, cfg: DecoderConfig)
    requires 0 <= raw <= MaxRawValue
    ensures var h := if cfg.invertSliders then 100 - Hundredths(raw) else Hundredths(raw);
            var r := FieldStep(prevHundredths as real / 100.0, raw, cfg);
            && 0 <= h <= 100
            && (r.event.Some? <==>
                 || IntAbs(prevHundredths - h) >= MinSteps(cfg.noiseReductionLevel)
                 || (h == 100 && prevHundredths != 100)
                 || (h == 0 && prevHundredths != 0))
            && (r.event.Some? ==> r.event.value == h as real / 100.0)
    ensures FieldStep(Sentinel, raw, cfg).event.Some?
  {
    HundredthsRange(raw);
    FieldValueOnGrid(raw, cfg.invertSliders);
    var h := if cfg.invertSliders then 100 - Hundredths(raw) else Hundredths(raw);
    GridSignificance(prevHundredths, h, cfg.noiseReductionLevel);
    SentinelAlwaysSignificant(FieldValue(raw, cfg.invertSliders), cfg.noiseReductionLevel);
  }

  // ---------------------------------------------------------------------------
  // A whole line of fields
  // ---------------------------------------------------------------------------

  /** Index of the first field from `i` on that fails validation, or the field count. */
  function FirstBad(values: seq<string>, i: nat): (b: nat)
    requires i <= |values|
    ensures i <= b <= |values|
    ensures forall j | i <= j < b :: ParseField(values[j]).Some?
    ensures b < |values| ==> ParseField(values[b]).None?
    decreases |values| - i
  {
    if i == |values| || ParseField(values[i]).None? then i else FirstBad(values, i + 1)
  }

  /** The cache slot of field j once the line has been read up to it. */
  function SlotAfter(cur: seq<real>, cfg: DecoderConfig, values: seq<string>, j: nat): real
    requires |cur| == |values| && j < |values| && ParseField(values[j]).Some?
  {
    FieldStep(cur[j], ParseField(values[j]).value, cfg).cached
  }

  /** Field j reports a significant change. */
  predicate Fires(cur: seq<real>, cfg: DecoderConfig, values: seq<string>, j: nat)
    requires |cur| == |values| && j < |values|
  {
    ParseField(values[j]).Some? && FieldStep(cur[j], ParseField(values[j]).value, cfg).event.Some?
  }

  /** The cache once fields i.. have been read: each validated field rewrites
      its slot, and reading stops at the first invalid field. */
  function CacheFrom(cur: seq<real>, cfg: DecoderConfig, values: seq<string>, i: nat): (c: seq<real>)
    requires |cur| == |values| && i <= |values|
    ensures |c| == |cur|
    decreases |values| - i
  {
    if i == |values| || ParseField(values[i]).None? then cur
    else CacheFrom(cur[i := SlotAfter(cur, cfg, values, i)], cfg, values, i + 1)
  }

  datatype FieldsOutcome = FieldsOutcome(current: seq<real>, events: seq<SliderMoveEvent>, complete: bool)

  /** Reads fields i.. of a line. A field that fails validation abandons the
      events of the whole line, but cache slots already rewritten stay rewritten. */
  function DecodeFrom(cur: seq<real>, cfg: DecoderConfig, values: seq<string>, i: nat): (r: FieldsOutcome)
    requires |cur| == |values| && i <= |values|
    ensures |r.current| == |cur|
    ensures r.complete <==> FirstBad(values, i) == |values|
    ensures !r.complete ==> r.events == []
    ensures r.current == CacheFrom(cur, cfg, values, i)
    decreases |values| - i
  {
    if i == |values| then FieldsOutcome(cur, [], true)
    else match ParseField(values[i])
      case None => FieldsOutcome(cur, [], false)
      case Some(raw) =>
        var step := FieldStep(cur[i], raw, cfg);
        var rest := DecodeFrom(cur[i := step.cached], cfg, values, i + 1);
        if !rest.complete then rest
        else
          var here := if step.event.Some? then [SliderMoveEvent(i, step.event.value)] else [];
          FieldsOutcome(rest.current, here + rest.events, true)
  }

  /** The value field j reports, once validated. */
  function ValueAt(cfg: DecoderConfig, values: seq<string>, j: nat): real
    requires j < |values| && ParseField(values[j]).Some?
  {
    FieldValue(ParseField(values[j]).value, cfg.invertSliders)
  }

  /** Cache slots: earlier fields and fields from the first invalid one on keep
      their value; every validated field before it is debounced against its slot. */
  lemma DecodeFromCache(cur: seq<real>, cfg: DecoderConfig, values: seq<string>, i: nat)
    requires |cur| == |values| && i <= |values|
    ensures var r := DecodeFrom(cur, cfg, values, i);
            && (forall j | 0 <= j < i :: r.current[j] == cur[j])
            && (forall j | i <= j < FirstBad(values, i) :: r.current[j] == SlotAfter(cur, cfg, values, j))
            && (forall j | FirstBad(values, i) <= j < |values| :: r.current[j] == cur[j])
  {
    var c := CacheFrom(cur, cfg, values, i);
    forall j | 0 <= j < |values| && (j < i || FirstBad(values, i) <= j)
      ensures c[j] == cur[j]
    {
      CacheFromKeeps(cur, cfg, values, i, j);
    }
    forall j | i <= j < FirstBad(values, i)
      ensures c[j] == SlotAfter(cur, cfg, values, j)
    {
      CacheFromSlot(cur, cfg, values, i, j);
    }
  }

  /** A slot before the fields read, or from the first invalid field on, is untouched. */
  lemma CacheFromKeeps(cur: seq<real>, cfg: DecoderConfig, values: seq<string>, i: nat, j: nat)
    requires |cur| == |values| && i <= |values| && j < |values| && (j < i || FirstBad(values, i) <= j)
    ensures CacheFrom(cur, cfg, values, i)[j] == cur[j]
  {
    if j < i {
      CacheFromKeepsBefore(cur, cfg, values, i, j);
    } else {
      CacheFromKeepsAfterBad(cur, cfg, values, i, j);
    }
  }

  lemma {:induction false} CacheFromKeepsBefore(cur: seq<real>, cfg: DecoderConfig, values: seq<string>, i: nat, j: nat)
    requires |cur| == |values| && j < i <= |values|
    ensures CacheFrom(cur, cfg, values, i)[j] == cur[j]
    decreases |values| - i
  {
    if i < |values| && ParseField(values[i]).Some? {
      var cur' := cur[i := SlotAfter(cur, cfg, values, i)];
      assert CacheFrom(cur, cfg, values, i) == CacheFrom(cur', cfg, values, i + 1);
      CacheFromKeepsBefore(cur', cfg, values, i + 1, j);
    }
  }

  lemma {:induction false} CacheFromKeepsAfterBad(cur: seq<real>, cfg: DecoderConfig, values: seq<string>, i: nat, j: nat)
    requires |cur| == |values| && i <= |values| && FirstBad(values, i) <= j < |values|
    ensures CacheFrom(cur, cfg, values, i)[j] == cur[j]
    decreases |values| - i
  {
    if i < |values| && ParseField(values[i]).Some? {
      var cur' := cur[i := SlotAfter(cur, cfg, values, i)];
      assert CacheFrom(cur, cfg, values, i) == CacheFrom(cur', cfg, values, i + 1);
      assert FirstBad(values, i) == FirstBad(values, i + 1);
      CacheFromKeepsAfterBad(cur', cfg, values, i + 1, j);
    }
  }

  /** A validated slot before the first invalid field is debounced against its old value. */
  lemma {:induction false} CacheFromSlot(cur: seq<real>, cfg: DecoderConfig, values: seq<string>, i: nat, j: nat)
    requires |cur| == |values| && i <= |values| && i <= j < FirstBad(values, i)
    ensures CacheFrom(cur, cfg, values, i)[j] == SlotAfter(cur, cfg, values, j)
    decreases |values| - i
  {
    var cur' := cur[i := SlotAfter(cur, cfg, values, i)];
    assert FirstBad(values, i) == FirstBad(values, i + 1);
    if j == i {
      CacheFromKeeps(cur', cfg, values, i + 1, i);
    } else {
      CacheFromSlot(cur', cfg, values, i + 1, j);
      assert cur'[j] == cur[j];
    }
  }

  /** Every event lies in [lo, |values|), comes from a field that fires, and
      carries the value that field reports. */
  predicate EventsSound(cur: seq<real>, cfg: DecoderConfig, values: seq<string>, lo: nat, events: seq<SliderMoveEvent>)
    requires |cur| == |values|
  {
    forall k | 0 <= k < |events| ::
      && lo <= events[k].sliderId < |values|
      && Fires(cur, cfg, values, events[k].sliderId)
      && events[k].percentValue == ValueAt(cfg, values, events[k].sliderId)
  }

  /** Slider ids strictly increase along the events. */
  predicate Ascending(events: seq<SliderMoveEvent>)
  {
    forall a, b | 0 <= a < b < |events| :: events[a].sliderId < events[b].sliderId
  }

  /** Every event comes from a field that fires and carries the value that field
      reports; events come in strictly ascending slider order. */
  lemma {:induction false} DecodeFromEventsSound(cur: seq<real>, cfg: DecoderConfig, values: seq<string>, i: nat)
    requires |cur| == |values| && i <= |values|
    ensures EventsSound(cur, cfg, values, i, DecodeFrom(cur, cfg, values, i).events)
    ensures Ascending(DecodeFrom(cur, cfg, values, i).events)
    decreases |values| - i
  {
    if i < |values| && ParseField(values[i]).Some? {
      var step := FieldStep(cur[i], ParseField(values[i]).value, cfg);
      var cur' := cur[i := step.cached];
      DecodeFromEventsSound(cur', cfg, values, i + 1);
      var rest := DecodeFrom(cur', cfg, values, i + 1);
      if rest.complete {
        var here := if step.event.Some? then [SliderMoveEvent(i, step.event.value)] else [];
        var r := DecodeFrom(cur, cfg, values, i);
        assert r.events == here + rest.events;
        PrependSound(cur, cur', cfg, values, i, here, rest.events);
      }
    }
  }

  /** Whether a field fires depends on its own cache slot only. */
  lemma FiresSame(cur: seq<real>, cur': seq<real>, cfg: DecoderConfig, values: seq<string>, j: nat)
    requires |cur| == |values| == |cur'| && j < |values| && cur[j] == cur'[j]
    ensures Fires(cur, cfg, values, j) == Fires(cur', cfg, values, j)
  {
  }

  /** Putting the event of field i (if any) before sound, ascending events of
      later fields keeps them sound and ascending. */
  lemma PrependSound(cur: seq<real>, cur': seq<real>, cfg: DecoderConfig, values: seq<string>, i: nat,
                     here: seq<SliderMoveEvent>, rest: seq<SliderMoveEvent>)
    requires |cur| == |values| == |cur'| && i < |values|
    requires forall j | 0 <= j < |values| && j != i :: cur'[j] == cur[j]
    requires EventsSound(cur', cfg, values, i + 1, rest) && Ascending(rest)
    requires |here| <= 1
    requires |here| == 1 ==>
      && here[0].sliderId == i
      && Fires(cur, cfg, values, i)
      && here[0].percentValue == ValueAt(cfg, values, i)
    ensures EventsSound(cur, cfg, values, i, here + rest)
    ensures Ascending(here + rest)
  {
    var all := here + rest;
    forall k | |here| <= k < |all|
      ensures all[k] == rest[k - |here|]
      ensures i + 1 <= all[k].sliderId < |values|
      ensures Fires(cur, cfg, values, all[k].sliderId)
    {
      var id := rest[k - |here|].sliderId;
      assert Fires(cur', cfg, values, id);
      FiresSame(cur', cur, cfg, values, id);
    }
  }

  /** When every field is valid, each field that fires has its event. */
  lemma {:induction false} DecodeFromEventsComplete(cur: seq<real>, cfg: DecoderConfig, values: seq<string>, i: nat)
    requires |cur| == |values| && i <= |values|
    ensures var r := DecodeFrom(cur, cfg, values, i);
            r.complete ==> forall j | i <= j < |values| && Fires(cur, cfg, values, j) ::
              exists k | 0 <= k < |r.events| :: r.events[k].sliderId == j
    decreases |values| - i
  {
    if i < |values| && ParseField(values[i]).Some? {
      var step := FieldStep(cur[i], ParseField(values[i]).value, cfg);
      var cur' := cur[i := step.cached];
      DecodeFromEventsComplete(cur', cfg, values, i + 1);
      var rest := DecodeFrom(cur', cfg, values, i + 1);
      if rest.complete {
        var here := if step.event.Some? then [SliderMoveEvent(i, step.event.value)] else [];
        var r := DecodeFrom(cur, cfg, values, i);
        assert r.events == here + rest.events;
        forall j | i <= j < |values| && Fires(cur, cfg, values, j)
          ensures exists k | 0 <= k < |r.events| :: r.events[k].sliderId == j
        {
          if j == i {
            assert r.events[0].sliderId == i;
          } else {
            assert Fires(cur', cfg, values, j);
            var k :| 0 <= k < |rest.events| && rest.events[k].sliderId == j;
            assert r.events[|here| + k] == rest.events[k];
          }
        }
      }
    }
  }

  /** The cache after a count change: one sentinel slot per slider. */
  function ResetCache(n: nat): (c: seq<real>)
    ensures |c| == n && forall j | 0 <= j < n :: c[j] == Sentinel
  {
    seq(n, _ => Sentinel)
  }

  /** Steps shared by every matching line: record a changed slider count with a
      fresh cache, then read the fields. */
  function Decode(st: DecoderState, cfg: DecoderConfig, values: seq<string>): (r: LineOutcome)
    requires WellFormed(st) && |values| >= 1
    ensures WellFormed(r.state)
    ensures r.state.lastKnownNumSliders == |values|
  {
    var reset := if |values| != st.lastKnownNumSliders then DecoderState(|values|, ResetCache(|values|)) else st;
    var fields := DecodeFrom(reset.current, cfg, values, 0);
    LineOutcome(DecoderState(|values|, fields.current), fields.events)
  }

  /** processLine as written: the pattern is matched against the line it is given and
      the line is split on `|` alone. */
  function ProcessLine(st: DecoderState, cfg: DecoderConfig, line: string): (r: LineOutcome)
    requires WellFormed(st)
    ensures WellFormed(r.state)
    ensures !ExpectedLinePattern(line) ==> r == LineOutcome(st, [])
    ensures ExpectedLinePattern(line) ==> r.state.lastKnownNumSliders == |Split(line, FieldSeparator)|
  {
    if !ExpectedLinePattern(line) then LineOutcome(st, [])
    else Decode(st, cfg, Split(line, FieldSeparator))
  }

  /** A string with exactly one line feed, at its end: what `ReadString('\n')`
      hands back for a complete line. */
  predicate IsReadLine(raw: string)
  {
    |raw| > 0 && raw[|raw| - 1] == '\n' && '\n' !in raw[..|raw| - 1]
  }

  /** One iteration of readLoop once a line is read: strip `\r\n`, then process. */
  function ReadLoopStep(st: DecoderState, cfg: DecoderConfig, raw: string): LineOutcome
    requires WellFormed(st)
  {
    ProcessLine(st, cfg, TrimSuffix(raw, LineEnding))
  }

  /** The last field of a matching line always carries the line ending. */
  lemma LastFieldCarriesLineEnding(line: string)
    requires ExpectedLinePattern(line)
    ensures var values := Split(line, FieldSeparator);
            ParseField(values[|values| - 1]).None?
  {
    var values := Split(line, FieldSeparator);
    var last := values[|values| - 1];
    var k := SplitLastStart(line, FieldSeparator);
    assert line[|line| - 1] == '\n' && line[|line| - 2] == '\r' by {
      assert line[|line| - 2..] == LineEnding;
    }
    assert k <= |line| - 2;
    assert last[|last| - 1] == line[|line| - 1];
    assert Atoi(last).Err?;
  }

  /** processLine never emits an event: the last field of every matching line
      is `<digits>\r\n`, which `strconv.Atoi` rejects. */
  lemma ProcessLineNeverEmits(st: DecoderState, cfg: DecoderConfig, line: string)
    requires WellFormed(st)
    ensures ProcessLine(st, cfg, line).events == []
  {
    if ExpectedLinePattern(line) {
      LastFieldCarriesLineEnding(line);
    }
  }

  /** Independently, what readLoop passes on has lost its `\r\n`, so the
      pattern never matches and the decoder state never changes. */
  lemma ReadLoopNeverMatches(st: DecoderState, cfg: DecoderConfig, raw: string)
    requires WellFormed(st) && IsReadLine(raw)
    ensures !ExpectedLinePattern(TrimSuffix(raw, LineEnding))
    ensures ReadLoopStep(st, cfg, raw) == LineOutcome(st, [])
  {
    var t := TrimSuffix(raw, LineEnding);
    if HasSuffix(raw, LineEnding) {
      assert t == raw[..|raw| - 2];
      assert forall j | 0 <= j < |t| :: t[j] == raw[..|raw| - 1][j];
      assert |t| >= 2 ==> t[|t| - 2..][1] != '\n';
    } else {
      assert t == raw;
    }
    assert !HasSuffix(t, LineEnding);
  }

  // ---------------------------------------------------------------------------
  // The decoder as evidently intended: the pattern without the line ending,
  // applied to the line readLoop has already trimmed.
  // ---------------------------------------------------------------------------

  /** processLine on a trimmed line, matched against `^\d{1,4}(\|\d{1,4})*$`. */
  function ProcessTrimmedLine(st: DecoderState, cfg: DecoderConfig, line: string): (r: LineOutcome)
    requires WellFormed(st)
    ensures WellFormed(r.state)
    ensures !FieldsMatch(line) ==> r == LineOutcome(st, [])
  {
    if !FieldsMatch(line) then LineOutcome(st, [])
    else Decode(st, cfg, Split(line, FieldSeparator))
  }

  /** readLoop's step with the corrected decoder. */
  function ReadLoopStepFixed(st: DecoderState, cfg: DecoderConfig, raw: string): LineOutcome
    requires WellFormed(st)
  {
    ProcessTrimmedLine(st, cfg, TrimSuffix(raw, LineEnding))
  }

  /** A matching line, as evidently intended, is decoded as a whole: with the
      cache c0 it starts from (all sentinels after a count change), every valid
      field is debounced against its slot, and events are reported only when
      no field is invalid, one per firing field, in ascending slider order. */
  lemma DecodeCharacterization(st: DecoderState, cfg: DecoderConfig, values: seq<string>)
    requires WellFormed(st) && |values| >= 1
    ensures var c0 := if |values| != st.lastKnownNumSliders then ResetCache(|values|) else st.current;
            var r := Decode(st, cfg, values);
            var bad := FirstBad(values, 0);
            && |c0| == |values| == |r.state.current|
            && (forall j | 0 <= j < bad :: r.state.current[j] == SlotAfter(c0, cfg, values, j))
            && (forall j | bad <= j < |values| :: r.state.current[j] == c0[j])
            && (bad < |values| ==> r.events == [])
            && EventsSound(c0, cfg, values, 0, r.events)
            && Ascending(r.events)
            && (bad == |values| ==> forall j | 0 <= j < |values| && Fires(c0, cfg, values, j) ::
                 exists k | 0 <= k < |r.events| :: r.events[k].sliderId == j)
  {
    var c0 := if |values| != st.lastKnownNumSliders then ResetCache(|values|) else st.current;
    DecodeFromCache(c0, cfg, values, 0);
    DecodeFromEventsSound(c0, cfg, values, 0);
    DecodeFromEventsComplete(c0, cfg, values, 0);
  }

  /** Every field of a matching line is a non-negative reading. */
  lemma MatchedFieldsNonNegative(values: seq<string>, j: nat)
    requires AllFields(values) && j < |values| && ParseField(values[j]).Some?
    ensures 0 <= ParseField(values[j]).value <= MaxRawValue
  {
    assert IsField(values[j]);
    FieldBound(values[j]);
  }

  /** Every field from i on reporting its value, in order. */
  function AllEvents(cfg: DecoderConfig, values: seq<string>, i: nat): (r: seq<SliderMoveEvent>)
    requires i <= |values| && FirstBad(values, i) == |values|
  {
    seq(|values| - i, k requires 0 <= k < |values| - i => SliderMoveEvent(i + k, ValueAt(cfg, values, i + k)))
  }

  lemma AllEventsCons(cfg: DecoderConfig, values: seq<string>, i: nat)
    requires i < |values| && FirstBad(values, i) == |values|
    ensures FirstBad(values, i + 1) == |values|
    ensures AllEvents(cfg, values, i) == [SliderMoveEvent(i, ValueAt(cfg, values, i))] + AllEvents(cfg, values, i + 1)
  {
    var a := AllEvents(cfg, values, i);
    var b := AllEvents(cfg, values, i + 1);
    assert forall k | 1 <= k < |a| :: a[k] == b[k - 1];
  }

  /** With every slot at the sentinel and every field valid, each field reports:
      the events are exactly (j, value of field j) for every j from i on. */
  lemma {:induction false} DecodeFromAllFire(cur: seq<real>, cfg: DecoderConfig, values: seq<string>, i: nat)
    requires |cur| == |values| && i <= |values| && AllFields(values)
    requires FirstBad(values, i) == |values|
    requires forall j | i <= j < |values| :: cur[j] == Sentinel
    ensures |DecodeFrom(cur, cfg, values, i).events| == |values| - i
    ensures forall k | 0 <= k < |values| - i ::
              DecodeFrom(cur, cfg, values, i).events[k] == SliderMoveEvent(i + k, ValueAt(cfg, values, i + k))
    decreases |values| - i
  {
    DecodeFromAllEvents(cur, cfg, values, i);
  }

  lemma {:induction false} DecodeFromAllEvents(cur: seq<real>, cfg: DecoderConfig, values: seq<string>, i: nat)
    requires |cur| == |values| && i <= |values| && AllFields(values)
    requires FirstBad(values, i) == |values|
    requires forall j | i <= j < |values| :: cur[j] == Sentinel
    ensures DecodeFrom(cur, cfg, values, i).events == AllEvents(cfg, values, i)
    decreases |values| - i
  {
    if i < |values| {
      var cur' := AllFireStep(cur, cfg, values, i);
      DecodeFromAllEvents(cur', cfg, values, i + 1);
      AllEventsCons(cfg, values, i);
    } else {
      assert |AllEvents(cfg, values, i)| == 0;
    }
  }

  /** One step of the all-fire case: field i reports and the rest of the line
      is read against the cache with slot i rewritten. */
  lemma AllFireStep(cur: seq<real>, cfg: DecoderConfig, values: seq<string>, i: nat) returns (cur': seq<real>)
    requires |cur| == |values| && i < |values| && AllFields(values)
    requires FirstBad(values, i) == |values|
    requires forall j | i <= j < |values| :: cur[j] == Sentinel
    ensures |cur'| == |values| && FirstBad(values, i + 1) == |values|
    ensures forall j | i + 1 <= j < |values| :: cur'[j] == Sentinel
    ensures DecodeFrom(cur, cfg, values, i).events
         == [SliderMoveEvent(i, ValueAt(cfg, values, i))] + DecodeFrom(cur', cfg, values, i + 1).events
  {
    assert ParseField(values[i]).Some?;
    SentinelFires(cfg, values, i);
    var step := FieldStep(cur[i], ParseField(values[i]).value, cfg);
    cur' := cur[i := step.cached];
    assert DecodeFrom(cur', cfg, values, i + 1).complete;
  }

  /** A valid field of a matching line reports against a sentinel slot. */
  lemma SentinelFires(cfg: DecoderConfig, values: seq<string>, i: nat)
    requires i < |values| && AllFields(values) && ParseField(values[i]).Some?
    ensures FieldStep(Sentinel, ParseField(values[i]).value, cfg).event == Some(ValueAt(cfg, values, i))
  {
    var raw := ParseField(values[i]).value;
    MatchedFieldsNonNegative(values, i);
    FieldValueOnGrid(raw, cfg.invertSliders);
    SentinelAlwaysSignificant(FieldValue(raw, cfg.invertSliders), cfg.noiseReductionLevel);
  }

  /** After a change in slider count, the first line whose fields are all valid
      reports every slider, in order, with its value, and caches those values. */
  lemma FirstReportAfterResetFires(st: DecoderState, cfg: DecoderConfig, line: string)
    requires WellFormed(st) && FieldsMatch(line)
    requires var values := Split(line, FieldSeparator);
             |values| != st.lastKnownNumSliders && FirstBad(values, 0) == |values|
    ensures var values := Split(line, FieldSeparator);
            var r := ProcessTrimmedLine(st, cfg, line);
            && |r.events| == |values| == |r.state.current|
            && (forall j | 0 <= j < |values| :: r.events[j] == SliderMoveEvent(j, ValueAt(cfg, values, j)))
            && (forall j | 0 <= j < |values| :: r.state.current[j] == ValueAt(cfg, values, j))
  {
    var values := Split(line, FieldSeparator);
    FieldsMatchIffSplitFields(line);
    DecodeFromAllFire(ResetCache(|values|), cfg, values, 0);
    DecodeFromCache(ResetCache(|values|), cfg, values, 0);
    forall j | 0 <= j < |values|
      ensures SlotAfter(ResetCache(|values|), cfg, values, j) == ValueAt(cfg, values, j)
    {
      SentinelFires(cfg, values, j);
    }
  }

  /** A field read twice in a row against the slot it left behind does not
      report the second time. */
  lemma SettledDoesNotFire(prev: real, raw: int, cfg: DecoderConfig)
    requires 0 <= raw <= MaxRawValue
    ensures FieldStep(FieldStep(prev, raw, cfg).cached, raw, cfg).event.None?
  {
    FieldValueOnGrid(raw, cfg.invertSliders);
    var h := if cfg.invertSliders then 100 - Hundredths(raw) else Hundredths(raw);
    GridUnchangedNotSignificant(h, cfg.noiseReductionLevel);
  }

  /** When no field from i up to the first invalid one fires, reading the line
      leaves the cache as it is and reports nothing. */
  lemma {:induction false} DecodeFromQuiet(cur: seq<real>, cfg: DecoderConfig, values: seq<string>, i: nat)
    requires |cur| == |values| && i <= |values|
    requires forall j | i <= j < FirstBad(values, i) :: !Fires(cur, cfg, values, j)
    ensures DecodeFrom(cur, cfg, values, i).current == cur
    ensures DecodeFrom(cur, cfg, values, i).events == []
    decreases |values| - i
  {
    if i < |values| && ParseField(values[i]).Some? {
      var step := FieldStep(cur[i], ParseField(values[i]).value, cfg);
      assert !Fires(cur, cfg, values, i);
      assert cur[i := step.cached] == cur;
      DecodeFromQuiet(cur, cfg, values, i + 1);
    }
  }

  /** Replaying a matching line right after it changes nothing and reports
      nothing: every slot already holds its field's value or a value too close
      to it to count. */
  lemma ReplayIsQuiet(st: DecoderState, cfg: DecoderConfig, line: string)
    requires WellFormed(st) && FieldsMatch(line)
    ensures var first := ProcessTrimmedLine(st, cfg, line);
            ProcessTrimmedLine(first.state, cfg, line) == LineOutcome(first.state, [])
  {
    var values := Split(line, FieldSeparator);
    FieldsMatchIffSplitFields(line);
    var first := Decode(st, cfg, values);
    var c0 := if |values| != st.lastKnownNumSliders then ResetCache(|values|) else st.current;
    var c1 := first.state.current;
    DecodeCharacterization(st, cfg, values);
    forall j | 0 <= j < FirstBad(values, 0)
      ensures !Fires(c1, cfg, values, j)
    {
      MatchedFieldsNonNegative(values, j);
      SettledDoesNotFire(c0[j], ParseField(values[j]).value, cfg);
    }
    DecodeFromQuiet(c1, cfg, values, 0);
  }

  lemma ExampleFields()
    ensures Split("512|1023", FieldSeparator) == ["512", "1023"]
    ensures ParseField("512") == Some(512) && ParseField("1023") == Some(1023)
  {
    ExampleSplit();
    ExampleDigits();
    assert IsField("512") && IsField("1023");
  }

  lemma ExampleSplit()
    ensures Split("512|1023", FieldSeparator) == ["512", "1023"]
  {
    var line := "512|1023";
    assert line == "512" + "|1023";
    IndexOfAfter("512", FieldSeparator, "|1023");
    assert line[..3] == "512" && line[4..] == "1023";
    IndexOfAbsent("1023", FieldSeparator);
    assert Split("1023", FieldSeparator) == ["1023"];
  }

  lemma ExampleDigits()
    ensures DigitsValue("512") == 512 && DigitsValue("1023") == 1023
  {
    assert DigitsValue("512") == 512 by {
      assert "512"[..2] == "51" && "51"[..1] == "5" && "5"[..0] == "";
    }
    assert DigitsValue("1023") == 1023 by {
      assert "1023"[..3] == "102" && "102"[..2] == "10" && "10"[..1] == "1" && "1"[..0] == "";
    }
  }

  /** The line "512|1023" from start-up, not inverted, default noise level:
      slider 0 reports 0.50 and slider 1 reports 1.00. */
  lemma EndToEndExample()
    ensures ProcessTrimmedLine(InitialState, DecoderConfig(false, ""), "512|1023")
         == LineOutcome(DecoderState(2, [0.5, 1.0]),
                        [SliderMoveEvent(0, 0.5), SliderMoveEvent(1, 1.0)])
  {
    var line := "512|1023";
    var cfg := DecoderConfig(false, "");
    var values := ExampleLine();
    assert ValueAt(cfg, values, 0) == FieldValue(512, false) == 0.5 by {
      FieldValueOnGrid(512, false);
    }
    assert ValueAt(cfg, values, 1) == FieldValue(1023, false) == 1.0 by {
      FieldValueOnGrid(512, false);
    }
    FirstReportAfterResetFires(InitialState, cfg, line);
    var r := ProcessTrimmedLine(InitialState, cfg, line);
    assert r.events == [SliderMoveEvent(0, 0.5), SliderMoveEvent(1, 1.0)];
    assert r.state.current == [0.5, 1.0];
  }

  /** With the corrected decoder, the line "512|1023\r\n" as the device sends
      it reaches readLoop and reports both sliders at start-up. */
  lemma ReadLoopFixedReports()
    ensures ReadLoopStepFixed(InitialState, DecoderConfig(false, ""), "512|1023\r\n")
         == LineOutcome(DecoderState(2, [0.5, 1.0]),
                        [SliderMoveEvent(0, 0.5), SliderMoveEvent(1, 1.0)])
  {
    var raw := "512|1023\r\n";
    assert HasSuffix(raw, LineEnding) && raw[..|raw| - |LineEnding|] == "512|1023";
    EndToEndExample();
  }

  /** "512|1023" matches, splits into two fields, and both are valid. */
  lemma ExampleLine() returns (values: seq<string>)
    ensures values == Split("512|1023", FieldSeparator) == ["512", "1023"]
    ensures FieldsMatch("512|1023") && FirstBad(values, 0) == 2
    ensures ParseField("512") == Some(512) && ParseField("1023") == Some(1023)
  {
    ExampleFields();
    values := ["512", "1023"];
    assert AllFields(values) by {
      assert IsField(values[0]) && IsField(values[1]);
    }
    FieldsMatchIffSplitFields("512|1023");
    assert FirstBad(values, 2) == 2;
    assert ParseField(values[1]).Some? && FirstBad(values, 1) == 2;
    assert ParseField(values[0]).Some? && FirstBad(values, 0) == 2;
  }

  // ---------------------------------------------------------------------------
  // Dispatch and reconnection
  // ---------------------------------------------------------------------------

  /** Each event, in order, handed to every consumer in subscription order:
      the pairs (consumer index, event). */
  function Deliveries(events: seq<SliderMoveEvent>, consumers: nat): (r: seq<(nat, SliderMoveEvent)>)
    ensures |r| == |events| * consumers
  {
    if |events| == 0 then []
    else seq(consumers, c => (c, events[0])) + Deliveries(events[1..], consumers)
  }

  /** Event e reaches consumer c at position e * n + c: every consumer sees
      every event, events in order, consumers in subscription order. */
  lemma {:induction false} DeliveriesOrder(events: seq<SliderMoveEvent>, consumers: nat, e: nat, c: nat)
    requires e < |events| && c < consumers
    ensures e * consumers + c < |events| * consumers
    ensures Deliveries(events, consumers)[e * consumers + c] == (c, events[e])
    decreases |events|
  {
    var n := consumers;
    MulStep(|events|, n);
    if e > 0 {
      DeliveriesOrder(events[1..], n, e - 1, c);
      MulStep(e, n);
      var head := seq(n, k => (k, events[0]));
      assert Deliveries(events, n) == head + Deliveries(events[1..], n);
      assert Deliveries(events, n)[n + ((e - 1) * n + c)] == Deliveries(events[1..], n)[(e - 1) * n + c];
    }
  }

  lemma MulStep(a: int, n: int)
    ensures a * n == (a - 1) * n + n
  {
  }

  /** Go's conversion of an `int` to a 64-bit `uint`. */
  function ToUint(x: int): nat
  {
    x % 0x1_0000_0000_0000_0000
  }

  /** The options a connection is opened with: port name and baud rate. */
  datatype OpenOptions = OpenOptions(portName: string, baudRate: nat)

  /** The options Start derives from the configuration. */
  function OptionsFor(info: Config.ConnectionInfo): OpenOptions
  {
    OpenOptions(info.comPort, ToUint(info.baudRate))
  }

  /** needsReconnect: the configured port or baud rate differs from the open connection's. */
  function NeedsReconnect(info: Config.ConnectionInfo, opts: OpenOptions): (r: bool)
    ensures r <==> opts != OptionsFor(info)
  {
    info.comPort != opts.portName || ToUint(info.baudRate) != opts.baudRate
  }
}
