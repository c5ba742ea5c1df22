/** Software full detection: two debounce counters over battery samples, one for the
    software float voltage with a termination current, one for the hardware voltage. */
module FullDetect {
  import opened Kernel

  const FULL_COUNTS_SW := 5
  const FULL_COUNTS_HW := 3
  const BATT_TEMP_COLD := 1
  const BATT_TEMP_LITTLE_COLD := 2
  const BATT_TEMP_WARM := 7

  datatype Config = Config(
    enabled: bool, vbatMaxMv: seq<int>, fvOffsetMv: int, littleColdItermMa: int, swItermMa: int, fullCountSwNum: int)

  /** One call: whether FFC is in DEFAULT, whether a charger is online, the battery
      region, voltage, current (negative when charging) and voltage decrement. */
  datatype Sample = Sample(ffcDefault: bool, online: bool, region: nat, vbatMv: int, ibatMa: int, decCv: int)

  /** The function's static variables. */
  datatype Counters = Counters(retSw: bool, retHw: bool, sw: int, hw: int)

  const CLEAR := Counters(false, false, 0, 0)

  /** The sample reaches the counters at all. */
  predicate Considered(c: Config, x: Sample)
  {
    c.enabled && x.ffcDefault
  }

  /** The sample is measured against the full voltages rather than clearing the counters. */
  predicate Evaluated(c: Config, x: Sample)
  {
    Considered(c, x) && x.online && BATT_TEMP_COLD <= x.region <= BATT_TEMP_WARM
  }

  predicate ValidConfig(c: Config)
  {
    |c.vbatMaxMv| == 9
  }

  function TermMa(c: Config, x: Sample): int
  {
    if c.littleColdItermMa > 0 && x.region == BATT_TEMP_LITTLE_COLD then c.littleColdItermMa else c.swItermMa
  }

  /** Above the software full voltage. */
  predicate AboveSw(c: Config, x: Sample)
    requires ValidConfig(c) && Evaluated(c, x)
  {
    x.vbatMv > c.vbatMaxMv[x.region] - c.fvOffsetMv - x.decCv
  }

  /** Above the software full voltage with no charging current beyond the termination current. */
  predicate SwFull(c: Config, x: Sample)
    requires ValidConfig(c) && Evaluated(c, x)
  {
    AboveSw(c, x) && (x.ibatMa >= 0 || -x.ibatMa <= TermMa(c, x))
  }

  /** At or above the hardware full voltage. */
  predicate HwFull(c: Config, x: Sample)
    requires ValidConfig(c) && Evaluated(c, x)
  {
    x.vbatMv >= c.vbatMaxMv[x.region] + 18 - x.decCv
  }

  /** How many qualifying samples in a row the software counter must exceed. */
  function SwLimit(c: Config, x: Sample): int
  {
    if x.ibatMa < 0 then FULL_COUNTS_SW * c.fullCountSwNum else FULL_COUNTS_SW * 2
  }

  function SwStep(c: Config, k: Counters, x: Sample): Counters
    requires ValidConfig(c) && Evaluated(c, x)
  {
    if !SwFull(c, x) then k.(sw := 0, retSw := false)
    else if k.sw + 1 > SwLimit(c, x) then k.(sw := 0, retSw := true)
    else k.(sw := k.sw + 1)
  }

  function HwStep(c: Config, k: Counters, x: Sample): Counters
    requires ValidConfig(c) && Evaluated(c, x)
  {
    if !HwFull(c, x) then k.(hw := 0, retHw := false)
    else if k.hw + 1 >= FULL_COUNTS_HW then k.(hw := 0, retHw := true)
    else k.(hw := k.hw + 1)
  }

  /** One call: the counters it leaves and whether it reports full. */
  function CheckStep(c: Config, k: Counters, x: Sample): (Counters, bool)
    requires ValidConfig(c)
  {
    if !Considered(c, x) then (k, false)
    else if !Evaluated(c, x) then (CLEAR, false)
    else
      var k1 := HwStep(c, SwStep(c, k, x), x);
      if k1.retSw || k1.retHw then (k1.(retSw := false, retHw := false), true) else (k1, false)
  }

  // ------------------------------------------------------------ the object

  class FullChecker {
    const c: Config
    var retSw: bool
    var retHw: bool
    var sw: int
    var hw: int

    ghost function Value(): Counters
      reads this
    {
      Counters(retSw, retHw, sw, hw)
    }

    constructor (c: Config)
      requires ValidConfig(c)
      ensures this.c == c && Value() == CLEAR
    {
      this.c := c;
      retSw, retHw, sw, hw := false, false, 0, 0;
    }

    method Clear()
      modifies this
      ensures Value() == CLEAR
    {
      sw := 0;
      hw := 0;
      retSw := false;
      retHw := false;
    }

    method Check(x: Sample) returns (full: bool)
      requires ValidConfig(c)
      modifies this
      ensures (Value(), full) == CheckStep(c, old(Value()), x)
    {
      if !c.enabled || !x.ffcDefault {
        return false;
      }
      if !x.online || x.region < BATT_TEMP_COLD || x.region > BATT_TEMP_WARM {
        Clear();
        return false;
      }
      var fullHw := c.vbatMaxMv[x.region];
      var fullSw := c.vbatMaxMv[x.region] - c.fvOffsetMv;
      var term := c.swItermMa;
      if c.littleColdItermMa > 0 && x.region == BATT_TEMP_LITTLE_COLD {
        term := c.littleColdItermMa;
      }

      if x.vbatMv > fullSw - x.decCv {
        if x.ibatMa < 0 && AbsoluteValue(x.ibatMa) <= term {
          sw := sw + 1;
          if sw > FULL_COUNTS_SW * c.fullCountSwNum {
            sw := 0;
            retSw := true;
          }
        } else if x.ibatMa >= 0 {
          sw := sw + 1;
          if sw > FULL_COUNTS_SW * 2 {
            sw := 0;
            retSw := true;
          }
        } else {
          sw := 0;
          retSw := false;
        }
      } else {
        sw := 0;
        retSw := false;
      }

      if x.vbatMv >= fullHw + 18 - x.decCv {
        hw := hw + 1;
        if hw >= FULL_COUNTS_HW {
          hw := 0;
          retHw := true;
        }
      } else {
        hw := 0;
        retHw := false;
      }

      if retSw || retHw {
        retSw, retHw := false, false;
        return true;
      }
      return false;
    }
  }

  // ------------------------------------------------------- what a report means

  /** The counters after a whole history of calls, and whether its last call reported. */
  function After(c: Config, h: seq<Sample>): Counters
    requires ValidConfig(c)
  {
    if h == [] then CLEAR else CheckStep(c, After(c, h[..|h| - 1]), h[|h| - 1]).0
  }

  predicate Reports(c: Config, h: seq<Sample>)
    requires ValidConfig(c) && h != []
  {
    CheckStep(c, After(c, h[..|h| - 1]), h[|h| - 1]).1
  }

  /** How many evaluated samples in a row, ending at the end of the history, qualify
      for the software test. Calls that reach no counter are skipped; a clearing
      call ends the row. */
  function SwRow(c: Config, h: seq<Sample>): nat
    requires ValidConfig(c)
  {
    if h == [] then 0
    else
      var n := |h| - 1;
      var x := h[n];
      if !Considered(c, x) then SwRow(c, h[..n])
      else if Evaluated(c, x) && SwFull(c, x) then SwRow(c, h[..n]) + 1
      else 0
  }

  /** The same for the hardware test. */
  function HwRow(c: Config, h: seq<Sample>): nat
    requires ValidConfig(c)
  {
    if h == [] then 0
    else
      var n := |h| - 1;
      var x := h[n];
      if !Considered(c, x) then HwRow(c, h[..n])
      else if Evaluated(c, x) && HwFull(c, x) then HwRow(c, h[..n]) + 1
      else 0
  }

  /** Both latch flags are down after every call, and no counter exceeds its row. */
  lemma {:induction false} LatchesDown(c: Config, h: seq<Sample>)
    requires ValidConfig(c)
    ensures var k := After(c, h);
            && !k.retSw && !k.retHw
            && 0 <= k.sw <= SwRow(c, h)
            && 0 <= k.hw <= HwRow(c, h) && k.hw < FULL_COUNTS_HW
  {
    if h != [] {
      LatchesDown(c, h[..|h| - 1]);
    }
  }

  function Least(a: int, b: int): int
  {
    if a < b then a else b
  }

  function Most(a: int, b: int): int
  {
    if a < b then b else a
  }

  /** Main theorem: a full report comes only at the end of at least min(5 * num, 10) + 1
      evaluated samples in a row that pass the software test, or at least 3 in a row
      that pass the hardware test. */
  lemma ReportNeedsRow(c: Config, h: seq<Sample>)
    requires ValidConfig(c) && h != [] && Reports(c, h)
    ensures Evaluated(c, h[|h| - 1])
    ensures || (SwRow(c, h) >= 1 && SwRow(c, h) >= Least(FULL_COUNTS_SW * c.fullCountSwNum, 2 * FULL_COUNTS_SW) + 1)
            || HwRow(c, h) >= FULL_COUNTS_HW
  {
    LatchesDown(c, h[..|h| - 1]);
  }

  /** The number of evaluated samples. */
  function EvaluatedIn(c: Config, h: seq<Sample>): nat
  {
    if h == [] then 0 else EvaluatedIn(c, h[..|h| - 1]) + if Evaluated(c, h[|h| - 1]) then 1 else 0
  }

  /** A call without a report counts its sample in full. */
  lemma QuietCheckCounts(c: Config, k: Counters, x: Sample)
    requires ValidConfig(c) && !CheckStep(c, k, x).1
    ensures var k' := CheckStep(c, k, x).0;
            && k'.sw == (if !Considered(c, x) then k.sw else if Evaluated(c, x) && SwFull(c, x) then k.sw + 1 else 0)
            && k'.hw == (if !Considered(c, x) then k.hw else if Evaluated(c, x) && HwFull(c, x) then k.hw + 1 else 0)
  {
  }

  /** A row without a report is counted in full. */
  lemma {:induction false} QuietRowCounts(c: Config, h: seq<Sample>, quiet: nat)
    requires ValidConfig(c) && quiet <= |h|
    requires forall n :: |h| - quiet < n <= |h| ==> !Reports(c, h[..n])
    ensures Least(SwRow(c, h), EvaluatedIn(c, h[|h| - quiet..])) <= After(c, h).sw
    ensures Least(HwRow(c, h), EvaluatedIn(c, h[|h| - quiet..])) <= After(c, h).hw
  {
    LatchesDown(c, h);
    if quiet == 0 {
      assert h[|h|..] == [];
    } else {
      var n := |h| - 1;
      var g := h[..n];
      QuietPrefix(c, h, quiet);
      QuietRowCounts(c, g, quiet - 1);
      LatchesDown(c, g);
      QuietCheckCounts(c, After(c, g), h[n]);
    }
  }

  lemma QuietPrefix(c: Config, h: seq<Sample>, quiet: nat)
    requires ValidConfig(c) && 0 < quiet <= |h|
    requires forall n :: |h| - quiet < n <= |h| ==> !Reports(c, h[..n])
    ensures var g := h[..|h| - 1];
            && !Reports(c, h)
            && (forall m :: |g| - (quiet - 1) < m <= |g| ==> !Reports(c, g[..m]))
            && h[|h| - quiet..][..quiet - 1] == g[|g| - (quiet - 1)..]
  {
    var g := h[..|h| - 1];
    assert h[..|h|] == h;
    forall m | |g| - (quiet - 1) < m <= |g| ensures !Reports(c, g[..m]) {
      assert g[..m] == h[..m];
    }
  }

  /** Main theorem, the other way: three hardware-full evaluated samples in a row
      report among them, and so do max(5 * num, 10) + 1 software-full ones. */
  lemma RowForcesReport(c: Config, h: seq<Sample>, last: nat)
    requires ValidConfig(c) && last <= |h|
    requires var m := EvaluatedIn(c, h[|h| - last..]);
             || (m >= FULL_COUNTS_HW && HwRow(c, h) >= m)
             || (m >= Most(FULL_COUNTS_SW * c.fullCountSwNum, 2 * FULL_COUNTS_SW) + 1 && SwRow(c, h) >= m)
    ensures exists n :: |h| - last < n <= |h| && Reports(c, h[..n])
  {
    if forall n :: |h| - last < n <= |h| ==> !Reports(c, h[..n]) {
      QuietRowCounts(c, h, last);
      LatchesDown(c, h);
      SwBelowLimit(c, h);
    }
  }

  /** A software counter that did not fire is within the larger limit. */
  lemma {:induction false} SwBelowLimit(c: Config, h: seq<Sample>)
    requires ValidConfig(c)
    ensures After(c, h).sw <= Most(FULL_COUNTS_SW * c.fullCountSwNum, 2 * FULL_COUNTS_SW)
  {
    if h != [] {
      SwBelowLimit(c, h[..|h| - 1]);
    }
  }

  // --------------------------------------------------- exactly when it reports

  /** The sample fires the software test: it qualifies and is one too many since the last
      break of the row. */
  predicate SwFires(c: Config, h: seq<Sample>)
    requires ValidConfig(c) && h != []
    decreases |h|, 0
  {
    var n := |h| - 1;
    Evaluated(c, h[n]) && SwFull(c, h[n]) && SwSince(c, h[..n]) + 1 > SwLimit(c, h[n])
  }

  /** The sample ends the software row: it clears the counters, fails the test or fires. */
  predicate SwBreaks(c: Config, h: seq<Sample>)
    requires ValidConfig(c) && h != []
    decreases |h|, 1
  {
    var x := h[|h| - 1];
    Considered(c, x) && (!Evaluated(c, x) || !SwFull(c, x) || SwFires(c, h))
  }

  /** The evaluated samples since the last one that broke the software row. */
  function SwSince(c: Config, h: seq<Sample>): nat
    requires ValidConfig(c)
    decreases |h|, 2
  {
    if h == [] || SwBreaks(c, h) then 0
    else SwSince(c, h[..|h| - 1]) + if Evaluated(c, h[|h| - 1]) then 1 else 0
  }

  predicate HwFires(c: Config, h: seq<Sample>)
    requires ValidConfig(c) && h != []
    decreases |h|, 0
  {
    var n := |h| - 1;
    Evaluated(c, h[n]) && HwFull(c, h[n]) && HwSince(c, h[..n]) + 1 >= FULL_COUNTS_HW
  }

  predicate HwBreaks(c: Config, h: seq<Sample>)
    requires ValidConfig(c) && h != []
    decreases |h|, 1
  {
    var x := h[|h| - 1];
    Considered(c, x) && (!Evaluated(c, x) || !HwFull(c, x) || HwFires(c, h))
  }

  function HwSince(c: Config, h: seq<Sample>): nat
    requires ValidConfig(c)
    decreases |h|, 2
  {
    if h == [] || HwBreaks(c, h) then 0
    else HwSince(c, h[..|h| - 1]) + if Evaluated(c, h[|h| - 1]) then 1 else 0
  }

  /** What `SwSince` counts, without recursion: from the last break `k` of the row to the
      end of the history, every evaluated sample, all of which pass the test. */
  lemma {:induction false} SwSinceIsRow(c: Config, h: seq<Sample>) returns (k: nat)
    requires ValidConfig(c)
    ensures k <= |h| && (k > 0 ==> SwBreaks(c, h[..k]))
    ensures forall n :: k < n <= |h| ==> !SwBreaks(c, h[..n])
    ensures SwSince(c, h) == EvaluatedIn(c, h[k..])
    ensures forall i :: k <= i < |h| && Evaluated(c, h[i]) ==> SwFull(c, h[i])
  {
    assert h[..|h|] == h && h[|h|..] == [];
    if h == [] || SwBreaks(c, h) {
      k := |h|;
    } else {
      var m := |h| - 1;
      k := SwSinceIsRow(c, h[..m]);
      assert h[..m][..k] == h[..k];
      forall n | k < n <= |h| ensures !SwBreaks(c, h[..n]) {
        assert n <= m ==> h[..m][..n] == h[..n];
      }
      assert h[k..][..m - k] == h[..m][k..];
    }
  }

  /** The hardware row likewise. */
  lemma {:induction false} HwSinceIsRow(c: Config, h: seq<Sample>) returns (k: nat)
    requires ValidConfig(c)
    ensures k <= |h| && (k > 0 ==> HwBreaks(c, h[..k]))
    ensures forall n :: k < n <= |h| ==> !HwBreaks(c, h[..n])
    ensures HwSince(c, h) == EvaluatedIn(c, h[k..])
    ensures forall i :: k <= i < |h| && Evaluated(c, h[i]) ==> HwFull(c, h[i])
  {
    assert h[..|h|] == h && h[|h|..] == [];
    if h == [] || HwBreaks(c, h) {
      k := |h|;
    } else {
      var m := |h| - 1;
      k := HwSinceIsRow(c, h[..m]);
      assert h[..m][..k] == h[..k];
      forall n | k < n <= |h| ensures !HwBreaks(c, h[..n]) {
        assert n <= m ==> h[..m][..n] == h[..n];
      }
      assert h[k..][..m - k] == h[..m][k..];
    }
  }

  /** The counters are exactly those rows. */
  lemma {:induction false} CountersAreExact(c: Config, h: seq<Sample>)
    requires ValidConfig(c)
    ensures After(c, h) == Counters(false, false, SwSince(c, h), HwSince(c, h))
  {
    if h != [] {
      var g, x := h[..|h| - 1], h[|h| - 1];
      CountersAreExact(c, g);
      assert SwFires(c, h) <==> Evaluated(c, x) && SwFull(c, x) && SwSince(c, g) + 1 > SwLimit(c, x);
      assert HwFires(c, h) <==> Evaluated(c, x) && HwFull(c, x) && HwSince(c, g) + 1 >= FULL_COUNTS_HW;
      assert SwBreaks(c, h) <==> Considered(c, x) && (!Evaluated(c, x) || !SwFull(c, x) || SwFires(c, h));
      assert HwBreaks(c, h) <==> Considered(c, x) && (!Evaluated(c, x) || !HwFull(c, x) || HwFires(c, h));
    }
  }

  /** Main theorem: a call reports full if and only if its sample fires a test: it passes,
      and with it the evaluated samples since the row was last broken exceed the limit
      that its own current sets, or number three for the hardware test. */
  lemma ReportIff(c: Config, h: seq<Sample>)
    requires ValidConfig(c) && h != []
    ensures Reports(c, h) <==> SwFires(c, h) || HwFires(c, h)
  {
    CountersAreExact(c, h[..|h| - 1]);
  }

  // ------------------------------------------------------------- in numbers

  /** A sample that reaches the tests: enabled, outside fast charging, a charger online,
      and a region from cold (1) to warm (7). */
  predicate Tested(c: Config, x: Sample)
  {
    c.enabled && x.ffcDefault && x.online && 1 <= x.region <= 7
  }

  /** Main theorem, in numbers: a report's last sample is above the float voltage of its
      region less the offset, and charges with no more than the termination current, or is
      18 mV or more above the float voltage; each less the voltage decrement. */
  lemma ReportNumbers(c: Config, h: seq<Sample>)
    requires ValidConfig(c) && h != [] && Reports(c, h)
    ensures var x := h[|h| - 1];
            && Tested(c, x)
            && (|| (&& x.vbatMv > c.vbatMaxMv[x.region] - c.fvOffsetMv - x.decCv
                    && (x.ibatMa >= 0
                        || -x.ibatMa <= if x.region == 2 && c.littleColdItermMa > 0
                                        then c.littleColdItermMa else c.swItermMa))
                || x.vbatMv >= c.vbatMaxMv[x.region] + 18 - x.decCv)
  {
    ReportIff(c, h);
  }

  /** Samples above the software full voltage at no charging current. */
  predicate Resting(c: Config, x: Sample)
    requires ValidConfig(c)
  {
    Tested(c, x) && x.ibatMa >= 0 && x.vbatMv > c.vbatMaxMv[x.region] - c.fvOffsetMv - x.decCv
  }

  /** Samples above the software full voltage that charge with at most the termination current. */
  predicate Trickling(c: Config, x: Sample)
    requires ValidConfig(c)
  {
    && Tested(c, x) && x.vbatMv > c.vbatMaxMv[x.region] - c.fvOffsetMv - x.decCv
    && 0 < -x.ibatMa <= if x.region == 2 && c.littleColdItermMa > 0 then c.littleColdItermMa else c.swItermMa
  }

  /** Samples at the hardware full voltage. */
  predicate Topped(c: Config, x: Sample)
    requires ValidConfig(c)
  {
    Tested(c, x) && x.vbatMv >= c.vbatMaxMv[x.region] + 18 - x.decCv
  }

  function TestedIn(c: Config, h: seq<Sample>): nat
  {
    if h == [] then 0 else TestedIn(c, h[..|h| - 1]) + if Tested(c, h[|h| - 1]) then 1 else 0
  }

  lemma {:induction false} TestedIsEvaluated(c: Config, h: seq<Sample>)
    ensures TestedIn(c, h) == EvaluatedIn(c, h)
  {
    if h != [] {
      TestedIsEvaluated(c, h[..|h| - 1]);
    }
  }

  lemma SwReportNumbers(c: Config, h: seq<Sample>) returns (k: nat)
    requires ValidConfig(c) && h != [] && SwFires(c, h)
    ensures k < |h|
    ensures TestedIn(c, h[k..]) > (if h[|h| - 1].ibatMa < 0 then 5 * c.fullCountSwNum else 10)
    ensures forall i :: k <= i < |h| && Tested(c, h[i]) ==> Resting(c, h[i]) || Trickling(c, h[i])
  {
    var n := |h| - 1;
    k := SwSinceIsRow(c, h[..n]);
    assert h[k..][..n - k] == h[..n][k..];
    TestedIsEvaluated(c, h[k..]);
  }

  lemma HwReportNumbers(c: Config, h: seq<Sample>) returns (k: nat)
    requires ValidConfig(c) && h != [] && HwFires(c, h)
    ensures k < |h|
    ensures TestedIn(c, h[k..]) >= 3
    ensures forall i :: k <= i < |h| && Tested(c, h[i]) ==> Topped(c, h[i])
  {
    var n := |h| - 1;
    k := HwSinceIsRow(c, h[..n]);
    assert h[k..][..n - k] == h[..n][k..];
    TestedIsEvaluated(c, h[k..]);
  }

  /** Main theorem, in numbers: a report comes after eleven tested samples in a row above
      the software voltage and within the termination current, or 5 * num + 1 if the last
      one still charges; or after three in a row at the hardware voltage. The row starts at
      `k`, and no tested sample in it fails the test. */
  lemma ReportNeedsNumbers(c: Config, h: seq<Sample>) returns (k: nat)
    requires ValidConfig(c) && h != [] && Reports(c, h)
    ensures k < |h|
    ensures || (&& TestedIn(c, h[k..]) > (if h[|h| - 1].ibatMa < 0 then 5 * c.fullCountSwNum else 10)
                && forall i :: k <= i < |h| && Tested(c, h[i]) ==> Resting(c, h[i]) || Trickling(c, h[i]))
            || (TestedIn(c, h[k..]) >= 3 && forall i :: k <= i < |h| && Tested(c, h[i]) ==> Topped(c, h[i]))
  {
    ReportIff(c, h);
    if SwFires(c, h) {
      k := SwReportNumbers(c, h);
    } else {
      k := HwReportNumbers(c, h);
    }
  }

  /** Samples without a report are all counted. */
  lemma {:induction false} QuietTailCounts(c: Config, g: seq<Sample>, tail: seq<Sample>, n: nat)
    requires ValidConfig(c) && n <= |tail|
    requires forall k :: 0 < k <= n ==> !Reports(c, g + tail[..k])
    ensures (forall k :: 0 <= k < n ==> Evaluated(c, tail[k]) && SwFull(c, tail[k])) ==> After(c, g + tail[..n]).sw >= n
    ensures (forall k :: 0 <= k < n ==> Evaluated(c, tail[k]) && HwFull(c, tail[k])) ==> After(c, g + tail[..n]).hw >= n
  {
    LatchesDown(c, g + tail[..n]);
    if n > 0 {
      QuietTailCounts(c, g, tail, n - 1);
      LatchesDown(c, g + tail[..n - 1]);
      assert !Reports(c, g + tail[..n]);
      assert (g + tail[..n])[..|g| + n - 1] == g + tail[..n - 1];
      QuietCheckCounts(c, After(c, g + tail[..n - 1]), tail[n - 1]);
    }
  }

  /** The last of enough such samples reports if none before it did. */
  lemma LastOfRowReports(c: Config, g: seq<Sample>, tail: seq<Sample>)
    requires ValidConfig(c) && tail != []
    requires forall k :: 0 < k < |tail| ==> !Reports(c, g + tail[..k])
    requires var x := tail[|tail| - 1];
             || (|tail| > SwLimit(c, x)
                 && forall k :: 0 <= k < |tail| ==> Evaluated(c, tail[k]) && SwFull(c, tail[k]))
             || ((forall k :: 0 <= k < |tail| ==> Evaluated(c, tail[k]) && HwFull(c, tail[k])) && |tail| >= 3)
    ensures Reports(c, g + tail)
  {
    var n := |tail| - 1;
    QuietTailCounts(c, g, tail, n);
    assert (g + tail)[..|g| + n] == g + tail[..n];
  }

  lemma RowReports(c: Config, g: seq<Sample>, tail: seq<Sample>)
    requires ValidConfig(c) && tail != []
    requires var x := tail[|tail| - 1];
             || (|tail| > SwLimit(c, x)
                 && forall k :: 0 <= k < |tail| ==> Evaluated(c, tail[k]) && SwFull(c, tail[k]))
             || ((forall k :: 0 <= k < |tail| ==> Evaluated(c, tail[k]) && HwFull(c, tail[k])) && |tail| >= 3)
    ensures exists k :: 0 < k <= |tail| && Reports(c, g + tail[..k])
  {
    if forall k :: 0 < k < |tail| ==> !Reports(c, g + tail[..k]) {
      LastOfRowReports(c, g, tail);
      assert tail[..|tail|] == tail;
      assert Reports(c, g + tail[..|tail|]);
    }
  }

  /** Main theorem, the other way and in numbers: after any history, eleven samples in a
      row above the software voltage at no charging current report among them; so do
      5 * num + 1 that charge with at most the termination current, and three at the
      hardware voltage. */
  lemma FullRowReports(c: Config, g: seq<Sample>, tail: seq<Sample>)
    requires ValidConfig(c)
    requires || (|tail| == 11 && forall k :: 0 <= k < |tail| ==> Resting(c, tail[k]))
             || (|tail| == 5 * c.fullCountSwNum + 1 && forall k :: 0 <= k < |tail| ==> Trickling(c, tail[k]))
             || (|tail| == 3 && forall k :: 0 <= k < |tail| ==> Topped(c, tail[k]))
    requires tail != []
    ensures exists k :: 0 < k <= |tail| && Reports(c, g + tail[..k])
  {
    RowReports(c, g, tail);
  }
}
