/** How long the screen was on and off while charging, and for how much capacity.
    Stretches of a constant screen state are credited when they close; only stretches
    over two minutes count towards the average charging speed. */
module LedAccounting {

  const TRACK_CYCLE_RECORDIING_TIME_2MIN := 120
  const TRACK_LED_MONITOR_SOC_POINT := 98

  datatype Sample = Sample(time: int, rm: int, charging: bool, ledOn: bool, soc: int, fastFull: bool)

  /** `prevCharging` is the charging state of the previous sample; `on`, `onRm`, `off`
      and `offRm` are the times and capacities used for averages, `contOn` and `contOff`
      the continuous times. */
  datatype State = State(
    prevCharging: bool, ledOn: bool, changeT: int, changeRm: int,
    on: int, onRm: int, off: int, offRm: int, contOn: int, contOff: int)

  /** What plugging in leaves, after unplugging cleared every total. */
  function PlugIn(x: Sample): State
  {
    State(x.charging, x.ledOn, x.time, x.rm, 0, 0, 0, 0, 0, 0)
  }

  /** One sample, together with the charging state it leaves for the next one. */
  function Step(s: State, x: Sample): State
  {
    if !s.prevCharging then s.(prevCharging := x.charging, ledOn := x.ledOn, changeT := x.time, changeRm := x.rm)
    else
      var close := !x.charging || x.fastFull || x.soc >= TRACK_LED_MONITOR_SOC_POINT;
      var d := x.time - s.changeT;
      var long := d > TRACK_CYCLE_RECORDIING_TIME_2MIN;
      var counted := if long then d else 0;
      var countedRm := if long then x.rm - s.changeRm else 0;
      var s1 :=
        if s.ledOn && (!x.ledOn || close) then
          s.(on := s.on + counted, onRm := s.onRm + countedRm, contOn := s.contOn + d,
             changeT := x.time, changeRm := x.rm)
        else if !s.ledOn && (x.ledOn || close) then
          s.(off := s.off + counted, offRm := s.offRm + countedRm, contOff := s.contOff + d,
             changeT := x.time, changeRm := x.rm)
        else s;
      s1.(prevCharging := x.charging, ledOn := x.ledOn)
  }

  // ------------------------------------------------------------ the object

  class LedTracker {
    var prevCharging: bool
    var ledOn: bool
    var changeT: int
    var changeRm: int
    var on: int
    var onRm: int
    var off: int
    var offRm: int
    var contOn: int
    var contOff: int

    ghost function Value(): State
      reads this
    {
      State(prevCharging, ledOn, changeT, changeRm, on, onRm, off, offRm, contOn, contOff)
    }

    constructor (x: Sample)
      ensures Value() == PlugIn(x)
    {
      ledOn := x.ledOn;
      changeT, changeRm := x.time, x.rm;
      on, onRm, off, offRm, contOn, contOff := 0, 0, 0, 0, 0, 0;
      prevCharging := x.charging;
    }

    method Record(x: Sample)
      modifies this
      ensures Value() == Step(old(Value()), x)
    {
      var chgStart := !prevCharging && x.charging;
      var chgEnd := prevCharging && !x.charging;
      if chgStart || !prevCharging {
        ledOn := x.ledOn;
        changeT, changeRm := x.time, x.rm;
        prevCharging := x.charging;
        return;
      }
      var needUpdate := false;
      if chgEnd || x.fastFull || x.soc >= TRACK_LED_MONITOR_SOC_POINT {
        needUpdate := true;
      }
      if ledOn && (!x.ledOn || needUpdate) {
        if x.time - changeT > TRACK_CYCLE_RECORDIING_TIME_2MIN {
          onRm := onRm + (x.rm - changeRm);
          on := on + (x.time - changeT);
        }
        contOn := contOn + (x.time - changeT);
        changeT, changeRm := x.time, x.rm;
      } else if !ledOn && (x.ledOn || needUpdate) {
        if x.time - changeT > TRACK_CYCLE_RECORDIING_TIME_2MIN {
          offRm := offRm + (x.rm - changeRm);
          off := off + (x.time - changeT);
        }
        contOff := contOff + (x.time - changeT);
        changeT, changeRm := x.time, x.rm;
      }
      ledOn := x.ledOn;
      prevCharging := x.charging;
    }
  }

  // ------------------------------------------------------------ conservation

  /** A plug-in with the first sample, then one step for every sample. */
  function Run(h: seq<Sample>): State
    requires h != []
  {
    if |h| == 1 then Step(PlugIn(h[0]), h[0]) else Step(Run(h[..|h| - 1]), h[|h| - 1])
  }

  /** What really happened: the sampling intervals that began while charging with the
      screen in the given state. */
  function Spent(h: seq<Sample>, lit: bool): int
  {
    if |h| < 2 then 0
    else
      var n := |h| - 1;
      Spent(h[..n], lit) + if h[n - 1].charging && h[n - 1].ledOn == lit then h[n].time - h[n - 1].time else 0
  }

  /** The stretch that is still open at the last sample. */
  function OpenStretch(h: seq<Sample>): int
    requires h != []
  {
    h[|h| - 1].time - Run(h).changeT
  }

  /** Main theorem: every interval is credited to the screen state it began in, either
      to that state's total or to the open stretch; and no stretch stays open while
      not charging. So on, off and open together conserve the charging intervals. */
  lemma {:induction false} LedTimeIsConserved(h: seq<Sample>)
    requires h != []
    ensures var s := Run(h);
            var last := h[|h| - 1];
            && s.prevCharging == last.charging && s.ledOn == last.ledOn
            && (!last.charging ==> OpenStretch(h) == 0)
            && s.contOn + (if s.ledOn then OpenStretch(h) else 0) == Spent(h, true)
            && s.contOff + (if s.ledOn then 0 else OpenStretch(h)) == Spent(h, false)
            && s.contOn + s.contOff + OpenStretch(h) == Spent(h, true) + Spent(h, false)
    decreases h
  {
    if |h| > 1 {
      LedTimeIsConserved(h[..|h| - 1]);
    }
  }

  ghost predicate ClockForward(h: seq<Sample>)
  {
    forall i :: 0 < i < |h| ==> h[i - 1].time <= h[i].time
  }

  /** With a clock that does not run backwards, the averaged times never exceed the
      continuous times, and no total is negative. */
  lemma {:induction false} AveragedWithinContinuous(h: seq<Sample>)
    requires h != [] && ClockForward(h)
    ensures var s := Run(h);
            && s.changeT <= h[|h| - 1].time
            && 0 <= s.on <= s.contOn
            && 0 <= s.off <= s.contOff
    decreases h
  {
    if |h| > 1 {
      AveragedWithinContinuous(h[..|h| - 1]);
    }
  }

  /** The battery gains `rate` per second throughout the history. */
  ghost predicate SteadyRate(h: seq<Sample>, rate: int)
  {
    forall i :: 0 < i < |h| ==> h[i].rm - h[i - 1].rm == rate * (h[i].time - h[i - 1].time)
  }

  /** Credited capacity over credited time is the rate, for the open stretch too. */
  ghost predicate AtRate(s: State, x: Sample, rate: int)
  {
    s.onRm == rate * s.on && s.offRm == rate * s.off && x.rm - s.changeRm == rate * (x.time - s.changeT)
  }

  /** Time and capacity are credited for the same stretches: at a steady rate the
      averages come out at that rate, screen on and screen off, whatever stretches
      were too short to count. */
  lemma {:induction false} AveragesAreTrue(h: seq<Sample>, rate: int)
    requires h != [] && SteadyRate(h, rate)
    ensures AtRate(Run(h), h[|h| - 1], rate)
    decreases h
  {
    if |h| > 1 {
      var n := |h| - 1;
      AveragesAreTrue(h[..n], rate);
      RateStep(Run(h[..n]), h[n - 1], h[n], rate);
    }
  }

  lemma RateStep(s: State, last: Sample, x: Sample, rate: int)
    requires AtRate(s, last, rate) && x.rm - last.rm == rate * (x.time - last.time)
    ensures AtRate(Step(s, x), x, rate)
  {
    var d := x.time - s.changeT;
    assert x.rm - s.changeRm == rate * d by {
      RateAdds(rate, last.time - s.changeT, x.time - last.time);
    }
    RateAdds(rate, s.on, d);
    RateAdds(rate, s.off, d);
    StepCredits(s, x);
  }

  /** A sample credits its whole open stretch, time with capacity, or leaves it open. */
  lemma StepCredits(s: State, x: Sample)
    ensures var s' := Step(s, x);
            var d, rm := x.time - s.changeT, x.rm - s.changeRm;
            && ((s'.changeT == s.changeT && s'.changeRm == s.changeRm) || (s'.changeT == x.time && s'.changeRm == x.rm))
            && ((s'.on == s.on && s'.onRm == s.onRm) || (s'.on == s.on + d && s'.onRm == s.onRm + rm))
            && ((s'.off == s.off && s'.offRm == s.offRm) || (s'.off == s.off + d && s'.offRm == s.offRm + rm))
  {
  }

  lemma RateAdds(rate: int, a: int, b: int)
    ensures rate * (a + b) == rate * a + rate * b
  {
  }

  // ------------------------------------------------ which stretches are counted

  /** A stretch ends, and the next begins, at the first sample, at a change of the screen,
      where charging starts or is off, at a fast-charge full, and from 98 percent on. */
  predicate Boundary(h: seq<Sample>, k: nat)
    requires k < |h|
  {
    || k == 0
    || h[k].ledOn != h[k - 1].ledOn
    || !h[k].charging || !h[k - 1].charging
    || h[k].fastFull || h[k].soc >= 98
  }

  /** Where the stretch open at the last sample began. */
  function OpenedAt(h: seq<Sample>): (k: nat)
    requires h != []
    ensures k < |h| && Boundary(h, k) && forall j :: k < j < |h| ==> !Boundary(h, j)
  {
    var n := |h| - 1;
    if Boundary(h, n) then n
    else
      assert forall j :: 0 <= j < n ==> Boundary(h[..n], j) == Boundary(h, j);
      OpenedAt(h[..n])
  }

  /** The stretches of more than 120 seconds that closed while charging with the screen in
      the given state: their time and capacity together. */
  function LongStretches(h: seq<Sample>, lit: bool): (int, int)
  {
    if |h| < 2 then (0, 0)
    else
      var n := |h| - 1;
      var before := LongStretches(h[..n], lit);
      var from := h[OpenedAt(h[..n])];
      if Boundary(h, n) && h[n - 1].charging && h[n - 1].ledOn == lit && h[n].time - from.time > 120
      then (before.0 + h[n].time - from.time, before.1 + h[n].rm - from.rm)
      else before
  }

  lemma StepOfStretch(h: seq<Sample>, s: State)
    requires |h| > 1
    requires var last := h[|h| - 2]; s.prevCharging == last.charging && s.ledOn == last.ledOn
    requires var from := h[OpenedAt(h[..|h| - 1])]; s.changeT == from.time && s.changeRm == from.rm
    ensures var n := |h| - 1;
            var s', now := Step(s, h[n]), h[OpenedAt(h)];
            var from := h[OpenedAt(h[..n])];
            var counts := Boundary(h, n) && h[n - 1].charging && h[n].time - from.time > 120;
            var t, rm := h[n].time - from.time, h[n].rm - from.rm;
            && s'.changeT == now.time && s'.changeRm == now.rm
            && s'.on == s.on + (if counts && h[n - 1].ledOn then t else 0)
            && s'.onRm == s.onRm + (if counts && h[n - 1].ledOn then rm else 0)
            && s'.off == s.off + (if counts && !h[n - 1].ledOn then t else 0)
            && s'.offRm == s.offRm + (if counts && !h[n - 1].ledOn then rm else 0)
  {
  }

  /** Main theorem: the averaged times and capacities are exactly the closed stretches of
      more than two minutes, each under the screen state it had. */
  lemma {:induction false} OnlyLongStretchesCount(h: seq<Sample>)
    requires h != []
    ensures var s, from := Run(h), h[OpenedAt(h)];
            && s.changeT == from.time && s.changeRm == from.rm
            && (s.on, s.onRm) == LongStretches(h, true)
            && (s.off, s.offRm) == LongStretches(h, false)
    decreases h
  {
    if |h| > 1 {
      var n := |h| - 1;
      OnlyLongStretchesCount(h[..n]);
      LedTimeIsConserved(h[..n]);
      StepOfStretch(h, Run(h[..n]));
    }
  }
}
