/** The fast full-charge (FFC) state machine of wireless charging: DEFAULT, FAST and
    IDLE, stepping through per-step, per-temperature tables with debounce counters. */
module Ffc {
  import opened Kernel
  import opened Hysteresis

  const FFC_CHG_STEP_MAX := 4

  const FFC_TEMP_PRE_NORMAL := 1
  const FFC_TEMP_NORMAL := 2

  datatype Status = Default | Fast | Idle

  datatype Config = Config(
    stepMax: int,
    fvMv: seq<int>,
    fvCutoffMv: seq<int>,
    iclMa: seq<seq<int>>,
    fccMa: seq<seq<int>>,
    fccCutoffMa: seq<seq<int>>)

  predicate TableShape(t: seq<seq<int>>)
  {
    |t| == FFC_CHG_STEP_MAX && forall i :: 0 <= i < |t| ==> |t[i]| == 2
  }

  predicate ValidConfig(c: Config)
  {
    && 1 <= c.stepMax <= FFC_CHG_STEP_MAX
    && |c.fvMv| == FFC_CHG_STEP_MAX
    && |c.fvCutoffMv| == FFC_CHG_STEP_MAX
    && TableShape(c.iclMa) && TableShape(c.fccMa) && TableShape(c.fccCutoffMa)
  }

  /** What one call reads: gauge values, charger presence, votable availability, the
      voltage decrement and the regular float voltage of the battery region. */
  datatype Input = Input(
    vbatMv: int, ibatMa: int, temp: int, usbOnline: bool, wlsOnline: bool,
    iclFound: bool, fccFound: bool, fvFound: bool, disFound: bool, decCv: int, vbatMaxMv: int)

  /** A vote of USER_VOTER on one of the wireless votables. */
  datatype UserVote = Icl(ma: int) | Fv(mv: int) | Fcc(ma: int) | OutDisable(on: bool)

  /** `pre` is the region remembered by the check between calls. */
  datatype State = State(
    status: Status, charging: bool, step: int, fccCount: int, fvCount: int, pre: nat, thermal: Tracker)

  /** What a call leaves behind, or that it read a table outside its bounds. */
  datatype Outcome = Ok(state: State, rc: int, votes: seq<UserVote>) | OutOfBounds

  predicate Chargeable(region: nat)
  {
    region == FFC_TEMP_PRE_NORMAL || region == FFC_TEMP_NORMAL
  }

  predicate InTables(s: State, region: nat)
  {
    0 <= s.step < FFC_CHG_STEP_MAX && 1 <= region <= 2
  }

  /** The common error exit. */
  function Failed(s: State, rc: int, votes: seq<UserVote>): Outcome
  {
    Ok(s.(status := Default, charging := false, fccCount := 0, fvCount := 0), rc, votes)
  }

  // -------------------------------------------------------- switching to FFC

  function SwitchStep(c: Config, s: State, i: Input): (r: Outcome)
    requires ValidConfig(c) && |s.thermal.thr| == |s.thermal.dyn|
    ensures r.Ok? ==> |r.state.thermal.thr| == |r.state.thermal.dyn|
  {
    var thermal := FfcStep(s.thermal, i.temp);
    var region := RegionOf(s.thermal.dyn, i.temp);
    var s1 := s.(thermal := thermal, step := 0);
    if !Chargeable(region) || i.usbOnline || !i.wlsOnline then Failed(s1, MINUS_EINVAL, [])
    else if !i.iclFound || !i.fccFound || !i.fvFound || !i.disFound then Failed(s1, MINUS_ENODEV, [])
    else
      Ok(s1.(status := Fast, charging := true, fccCount := 0, fvCount := 0), 0,
         [Icl(c.iclMa[0][region - 1]), Fv(c.fvMv[0]), Fcc(c.fccMa[0][region - 1])])
  }

  /** The status initialisation, as far as it touches fast charging. */
  function StatusInit(s: State): State
  {
    s.(charging := false, step := 0, thermal := Initial(s.thermal.thr))
  }

  // ------------------------------------------------------------- the check

  /** Debouncing of one FAST sample: which counters and how many steps it earns. */
  function Debounced(s: State, high: bool, low: bool): State
  {
    var fv := if high then s.fvCount + 1 else s.fvCount;
    var s1 := if fv > 5 then s.(step := s.step + 1, fvCount := 0) else s.(fvCount := fv);
    var fcc := if low then s.fccCount + 1 else 0;
    if fcc > 3 then s1.(step := s1.step + 1, fvCount := 0, fccCount := fcc) else s1.(fccCount := fcc)
  }

  /** A sample at or above the cutoff voltage of the current step. */
  predicate High(c: Config, s: State, i: Input)
    requires ValidConfig(c) && 0 <= s.step < FFC_CHG_STEP_MAX
  {
    i.vbatMv >= c.fvCutoffMv[s.step] - i.decCv
  }

  /** A sample whose current is below the cutoff current of the current step and region. */
  predicate Low(c: Config, s: State, i: Input, region: nat)
    requires ValidConfig(c) && InTables(s, region)
  {
    AbsoluteValue(i.ibatMa) < c.fccCutoffMa[s.step][region - 1]
  }

  /** The FAST check once the region is known to be remembered. */
  function FastSample(c: Config, s: State, i: Input, region: nat, votes: seq<UserVote>): (r: Outcome)
    requires ValidConfig(c)
    ensures r.Ok? ==> r.state.thermal == s.thermal
  {
    if i.usbOnline || !i.wlsOnline then Failed(s, MINUS_EINVAL, votes)
    else if !InTables(s, region) then OutOfBounds
    else
      var s1 := Debounced(s, High(c, s, i), Low(c, s, i, region));
      if s1.step >= c.stepMax then
        if !i.disFound then Failed(s1, MINUS_ENODEV, votes)
        else Ok(s1.(status := Idle, fccCount := 0, fvCount := 0), 0,
                votes + [OutDisable(true)] + (if i.fvFound then [Fv(i.vbatMaxMv - i.decCv)] else []))
      else if !i.iclFound || !i.fccFound || !i.fvFound then Failed(s1, MINUS_ENODEV, votes)
      else if !InTables(s1, region) then OutOfBounds
      else
        var icl, fcc := c.iclMa[s1.step][region - 1], c.fccMa[s1.step][region - 1];
        Ok(s1, 0, votes + [Icl(icl), Fv(c.fvMv[s1.step] - i.decCv), Fcc(fcc)])
  }

  function FastCheck(c: Config, s: State, i: Input, region: nat): (r: Outcome)
    requires ValidConfig(c)
    ensures r.Ok? ==> r.state.thermal == s.thermal
  {
    if s.pre == region then FastSample(c, s, i, region, [])
    else
      var s1 := s.(pre := region);
      if !Chargeable(region) then Failed(s1, 0, [])
      else if i.usbOnline || !i.wlsOnline then Failed(s1, MINUS_EINVAL, [])
      else if !i.iclFound || !i.fccFound then Failed(s1, MINUS_ENODEV, [])
      else if !InTables(s1, region) then OutOfBounds
      else FastSample(c, s1, i, region, [Icl(c.iclMa[s.step][region - 1]), Fcc(c.fccMa[s.step][region - 1])])
  }

  function IdleCheck(s: State, i: Input): Outcome
  {
    var count := s.fccCount + 1;
    if count <= 6 then Ok(s.(fccCount := count), 0, [])
    else if i.usbOnline then Failed(s, MINUS_EINVAL, [])
    else if i.wlsOnline && !i.disFound then Failed(s, MINUS_ENODEV, [])
    else Ok(s.(status := Default, charging := false, fccCount := 0, fvCount := 0), 1,
            if i.wlsOnline then [OutDisable(false)] else [])
  }

  function CheckStep(c: Config, s: State, i: Input): (r: Outcome)
    requires ValidConfig(c) && |s.thermal.thr| == |s.thermal.dyn|
    ensures r.Ok? ==> |r.state.thermal.thr| == |r.state.thermal.dyn|
  {
    if s.status == Default then
      Ok(s.(fccCount := 0, fvCount := 0, charging := false, step := 0), MINUS_EINVAL, [])
    else
      var s1 := s.(thermal := FfcStep(s.thermal, i.temp));
      if s.status == Fast then FastCheck(c, s1, i, RegionOf(s.thermal.dyn, i.temp)) else IdleCheck(s1, i)
  }

  // ------------------------------------------------------------ the object

  class FfcMachine {
    const c: Config
    var status: Status
    var charging: bool
    var step: int
    var fccCount: int
    var fvCount: int
    var pre: nat
    const thermal: ThermalTracker

    ghost predicate Valid()
      reads this, thermal
    {
      ValidConfig(c) && thermal.Valid()
    }

    ghost function Value(): State
      reads this, thermal, thermal.thr, thermal.dyn
    {
      State(status, charging, step, fccCount, fvCount, pre, thermal.Abs())
    }

    constructor (c: Config, thermal: ThermalTracker)
      requires ValidConfig(c) && thermal.Valid()
      ensures Valid() && this.c == c && this.thermal == thermal
      ensures Value() == State(Default, false, 0, 0, 0, FFC_TEMP_NORMAL, thermal.Abs())
    {
      this.c := c;
      this.thermal := thermal;
      status, charging, step, fccCount, fvCount, pre := Default, false, 0, 0, 0, FFC_TEMP_NORMAL;
    }

    method Fail()
      modifies this
      ensures Value() == old(Value()).(status := Default, charging := false, fccCount := 0, fvCount := 0)
    {
      charging := false;
      fccCount := 0;
      fvCount := 0;
      status := Default;
    }

    /** The part of the status initialisation that touches fast charging. */
    method InitStatus()
      requires Valid()
      modifies this, thermal, thermal.dyn
      ensures Valid() && Value() == StatusInit(old(Value()))
    {
      charging := false;
      step := 0;
      thermal.Reset();
    }

    method Switch(i: Input) returns (rc: int, votes: seq<UserVote>)
      requires Valid()
      modifies this, thermal, thermal.dyn
      ensures Valid() && Ok(Value(), rc, votes) == SwitchStep(c, old(Value()), i)
    {
      var region := thermal.GetFfcTempRegion(i.temp);
      step := 0;
      votes := [];
      if region == FFC_TEMP_PRE_NORMAL || region == FFC_TEMP_NORMAL {
        if i.usbOnline {
          rc := MINUS_EINVAL;
        } else if i.wlsOnline {
          if !i.iclFound || !i.fccFound || !i.fvFound || !i.disFound {
            rc := MINUS_ENODEV;
          } else {
            votes := [Icl(c.iclMa[step][region - 1]), Fv(c.fvMv[step]), Fcc(c.fccMa[step][region - 1])];
            fccCount := 0;
            fvCount := 0;
            charging := true;
            status := Fast;
            return 0, votes;
          }
        } else {
          rc := MINUS_EINVAL;
        }
      } else {
        rc := MINUS_EINVAL;
      }
      Fail();
    }

    /** The counters of a FAST sample, updated in place. */
    method Debounce(high: bool, low: bool)
      modifies this
      ensures Value() == Debounced(old(Value()), high, low)
    {
      if high {
        fvCount := fvCount + 1;
      }
      if fvCount > 5 {
        step := step + 1;
        fvCount := 0;
      }
      if low {
        fccCount := fccCount + 1;
      } else {
        fccCount := 0;
      }
      if fccCount > 3 {
        step := step + 1;
        fvCount := 0;
      }
    }

    method CheckFastSample(i: Input, region: nat, earlier: seq<UserVote>) returns (rc: int, votes: seq<UserVote>)
      requires Valid() && FastSample(c, Value(), i, region, earlier).Ok?
      modifies this
      ensures Valid() && Ok(Value(), rc, votes) == FastSample(c, old(Value()), i, region, earlier)
    {
      votes := earlier;
      if i.usbOnline || !i.wlsOnline {
        Fail();
        return MINUS_EINVAL, votes;
      }
      var fvMaxMv := c.fvCutoffMv[step] - i.decCv;
      var cutoffMa := c.fccCutoffMa[step][region - 1];
      Debounce(i.vbatMv >= fvMaxMv, AbsoluteValue(i.ibatMa) < cutoffMa);
      if step >= c.stepMax {
        if !i.disFound {
          Fail();
          return MINUS_ENODEV, votes;
        }
        votes := votes + [OutDisable(true)];
        fccCount := 0;
        fvCount := 0;
        status := Idle;
        votes := votes + if i.fvFound then [Fv(i.vbatMaxMv - i.decCv)] else [];
      } else {
        if !i.iclFound || !i.fccFound || !i.fvFound {
          Fail();
          return MINUS_ENODEV, votes;
        }
        votes := votes + [Icl(c.iclMa[step][region - 1]), Fv(c.fvMv[step] - i.decCv), Fcc(c.fccMa[step][region - 1])];
      }
      rc := 0;
    }

    method CheckFast(i: Input, region: nat) returns (rc: int, votes: seq<UserVote>)
      requires Valid() && FastCheck(c, Value(), i, region).Ok?
      modifies this
      ensures Valid() && Ok(Value(), rc, votes) == FastCheck(c, old(Value()), i, region)
    {
      votes := [];
      if pre != region {
        pre := region;
        if region == FFC_TEMP_PRE_NORMAL || region == FFC_TEMP_NORMAL {
          if i.usbOnline || !i.wlsOnline {
            Fail();
            return MINUS_EINVAL, votes;
          }
          if !i.iclFound || !i.fccFound {
            Fail();
            return MINUS_ENODEV, votes;
          }
          votes := [Icl(c.iclMa[step][region - 1]), Fcc(c.fccMa[step][region - 1])];
        } else {
          Fail();
          return 0, votes;
        }
      }
      rc, votes := CheckFastSample(i, region, votes);
    }

    method CheckIdle(i: Input) returns (rc: int, votes: seq<UserVote>)
      requires Valid()
      modifies this
      ensures Valid() && Ok(Value(), rc, votes) == IdleCheck(old(Value()), i)
    {
      votes := [];
      fccCount := fccCount + 1;
      if fccCount > 6 {
        charging := false;
        fccCount := 0;
        fvCount := 0;
        if i.usbOnline {
          Fail();
          return MINUS_EINVAL, votes;
        } else if i.wlsOnline {
          if !i.disFound {
            Fail();
            return MINUS_ENODEV, votes;
          }
          votes := [OutDisable(false)];
        }
        status := Default;
        return 1, votes;
      }
      rc := 0;
    }

    method Check(i: Input) returns (rc: int, votes: seq<UserVote>)
      requires Valid() && CheckStep(c, Value(), i).Ok?
      modifies this, thermal, thermal.dyn
      ensures Valid() && Ok(Value(), rc, votes) == CheckStep(c, old(Value()), i)
    {
      if status == Default {
        fccCount := 0;
        fvCount := 0;
        charging := false;
        step := 0;
        return MINUS_EINVAL, [];
      }
      var region := thermal.GetFfcTempRegion(i.temp);
      if status == Fast {
        rc, votes := CheckFast(i, region);
      } else {
        rc, votes := CheckIdle(i);
      }
    }
  }

  // ------------------------------------------------------- what every run keeps

  /** The counters stay in their ranges, and a raised flag means an active status. */
  ghost predicate Ranged(c: Config, s: State)
  {
    && |s.thermal.thr| == |s.thermal.dyn|
    && (s.charging ==> s.status != Default)
    && (s.status == Fast ==> 0 <= s.step < c.stepMax && 0 <= s.fvCount <= 5 && 0 <= s.fccCount)
    && (s.status == Idle ==> 0 <= s.fccCount <= 6 && s.fvCount == 0)
  }

  /** The charging flag mirrors the status. */
  predicate FlagAgrees(s: State)
  {
    s.charging <==> s.status != Default
  }

  /** A switch, a check, or the status initialisation that a receiver reset ends with. */
  datatype Event = Switch(i: Input) | Check(i: Input) | Init

  function Apply(c: Config, s: State, e: Event): Outcome
    requires ValidConfig(c) && |s.thermal.thr| == |s.thermal.dyn|
  {
    match e
    case Switch(i) => SwitchStep(c, s, i)
    case Check(i) => CheckStep(c, s, i)
    case Init => Ok(StatusInit(s), 0, [])
  }

  lemma FastSampleKeepsRanges(c: Config, s: State, i: Input, region: nat, votes: seq<UserVote>)
    requires ValidConfig(c) && Ranged(c, s) && s.status == Fast
    ensures var r := FastSample(c, s, i, region, votes);
            r.Ok? ==> Ranged(c, r.state) && (FlagAgrees(s) ==> FlagAgrees(r.state))
  {
  }

  lemma CheckKeepsRanges(c: Config, s: State, i: Input)
    requires ValidConfig(c) && Ranged(c, s)
    ensures var r := CheckStep(c, s, i);
            r.Ok? ==> Ranged(c, r.state) && (FlagAgrees(s) ==> FlagAgrees(r.state))
  {
    if s.status == Fast {
      var s1 := s.(thermal := FfcStep(s.thermal, i.temp));
      var region := RegionOf(s.thermal.dyn, i.temp);
      FastSampleKeepsRanges(c, s1, i, region, []);
      if InTables(s1, region) {
        var votes := [Icl(c.iclMa[s.step][region - 1]), Fcc(c.fccMa[s.step][region - 1])];
        FastSampleKeepsRanges(c, s1.(pre := region), i, region, votes);
      }
    }
  }

  /** Every event keeps the ranges, and keeps flag and status in agreement exactly when
      it is no initialisation outside DEFAULT. */
  lemma ApplyKeepsRanges(c: Config, s: State, e: Event)
    requires ValidConfig(c) && Ranged(c, s) && Apply(c, s, e).Ok?
    ensures Ranged(c, Apply(c, s, e).state)
    ensures FlagAgrees(s) ==> (FlagAgrees(Apply(c, s, e).state) <==> (e.Init? ==> s.status == Default))
  {
    if e.Check? {
      CheckKeepsRanges(c, s, e.i);
    }
  }

  /** Runs stop at the first out-of-bounds read. */
  function Run(c: Config, s: State, es: seq<Event>): (r: Outcome)
    requires ValidConfig(c) && |s.thermal.thr| == |s.thermal.dyn|
    ensures r.Ok? ==> |r.state.thermal.thr| == |r.state.thermal.dyn|
    decreases es
  {
    if es == [] then Ok(s, 0, [])
    else
      var r := Apply(c, s, es[0]);
      if r.OutOfBounds? then r else Run(c, r.state, es[1..])
  }

  /** Main invariant: over every run of switches, checks and initialisations a raised
      flag means an active status, in FAST the step is below its limit and the voltage
      counter at most 5, and in IDLE the counter is at most 6. */
  lemma {:induction false} RunKeepsRanges(c: Config, s: State, es: seq<Event>)
    requires ValidConfig(c) && Ranged(c, s)
    ensures Run(c, s, es).Ok? ==> Ranged(c, Run(c, s, es).state)
    decreases es
  {
    if es != [] && Apply(c, s, es[0]).Ok? {
      ApplyKeepsRanges(c, s, es[0]);
      RunKeepsRanges(c, Apply(c, s, es[0]).state, es[1..]);
    }
  }

  /** Flag and status agree before and after every event of the run. */
  ghost predicate AlwaysAgrees(c: Config, s: State, es: seq<Event>)
    requires ValidConfig(c) && |s.thermal.thr| == |s.thermal.dyn|
    decreases es
  {
    && FlagAgrees(s)
    && (es != [] && Apply(c, s, es[0]).Ok? ==> AlwaysAgrees(c, Apply(c, s, es[0]).state, es[1..]))
  }

  /** Every initialisation of the run happens in DEFAULT. */
  ghost predicate InitsInDefault(c: Config, s: State, es: seq<Event>)
    requires ValidConfig(c) && |s.thermal.thr| == |s.thermal.dyn|
    decreases es
  {
    es != [] ==>
      && (es[0].Init? ==> s.status == Default)
      && (Apply(c, s, es[0]).Ok? ==> InitsInDefault(c, Apply(c, s, es[0]).state, es[1..]))
  }

  /** Main theorem: over every run the charging flag mirrors the status throughout if and
      only if every status initialisation happens in DEFAULT: the initialisation clears
      the flag and the step but not the status. */
  lemma {:induction false} AlwaysAgreesIff(c: Config, s: State, es: seq<Event>)
    requires ValidConfig(c) && Ranged(c, s) && FlagAgrees(s)
    ensures AlwaysAgrees(c, s, es) <==> InitsInDefault(c, s, es)
    decreases es
  {
    if es != [] && Apply(c, s, es[0]).Ok? {
      ApplyKeepsRanges(c, s, es[0]);
      var s1 := Apply(c, s, es[0]).state;
      if FlagAgrees(s1) {
        AlwaysAgreesIff(c, s1, es[1..]);
      }
    }
  }

  // ------------------------------------------------------------ table bounds

  /** A check leaves its tables exactly when FAST is entered with the very region
      remembered from before being one that FFC does not charge in. */
  lemma OutOfBoundsIff(c: Config, s: State, i: Input)
    requires ValidConfig(c) && Ranged(c, s)
    ensures CheckStep(c, s, i).OutOfBounds? <==>
            var region := RegionOf(s.thermal.dyn, i.temp);
            s.status == Fast && s.pre == region && !Chargeable(region) && i.wlsOnline && !i.usbOnline
  {
  }

  /** Every switch of the run that enters FAST finds a chargeable region remembered. */
  ghost predicate EntersRemembering(c: Config, s: State, es: seq<Event>)
    requires ValidConfig(c) && |s.thermal.thr| == |s.thermal.dyn|
    decreases es
  {
    es != [] ==>
      var r := Apply(c, s, es[0]);
      && (es[0].Switch? && r.Ok? && r.state.status == Fast ==> Chargeable(s.pre))
      && (r.Ok? ==> EntersRemembering(c, r.state, es[1..]))
  }

  /** A check that stays in FAST remembers a chargeable region if it found one. */
  lemma CheckRemembers(c: Config, s: State, i: Input)
    requires ValidConfig(c) && Ranged(c, s) && CheckStep(c, s, i).Ok?
    requires s.status == Fast ==> Chargeable(s.pre)
    ensures CheckStep(c, s, i).state.status == Fast ==> Chargeable(CheckStep(c, s, i).state.pre)
  {
  }

  lemma ApplyInBounds(c: Config, s: State, e: Event)
    requires ValidConfig(c) && Ranged(c, s)
    requires s.status == Fast ==> Chargeable(s.pre)
    ensures var r := Apply(c, s, e);
            && r.Ok?
            && (r.state.status == Fast && (e.Switch? ==> Chargeable(s.pre)) ==> Chargeable(r.state.pre))
  {
    if e.Check? {
      OutOfBoundsIff(c, s, e.i);
      CheckRemembers(c, s, e.i);
    }
  }

  /** Main theorem: if FAST is only entered with PRE_NORMAL or NORMAL remembered, no
      run ever reads a table out of bounds. */
  lemma {:induction false} TablesStayInBounds(c: Config, s: State, es: seq<Event>)
    requires ValidConfig(c) && Ranged(c, s) && EntersRemembering(c, s, es)
    requires s.status == Fast ==> Chargeable(s.pre)
    ensures Run(c, s, es).Ok?
    decreases es
  {
    if es != [] {
      ApplyInBounds(c, s, es[0]);
      ApplyKeepsRanges(c, s, es[0]);
      TablesStayInBounds(c, Apply(c, s, es[0]).state, es[1..]);
    }
  }

  /** The premise is needed: leaving FAST because the region turned unchargeable
      remembers that region; switching again and meeting it again reads out of bounds. */
  lemma RememberedRegionFaults(c: Config, s: State, leave: Input, again: Input, meet: Input)
    requires ValidConfig(c) && Ranged(c, s) && s.status == Fast && Chargeable(s.pre)
    requires !Chargeable(RegionOf(s.thermal.dyn, leave.temp))
    requires again.wlsOnline && !again.usbOnline
    requires again.iclFound && again.fccFound && again.fvFound && again.disFound
    requires meet.wlsOnline && !meet.usbOnline
    requires var t1 := FfcStep(s.thermal, leave.temp);
             var t2 := FfcStep(t1, again.temp);
             && Chargeable(RegionOf(t1.dyn, again.temp))
             && RegionOf(t2.dyn, meet.temp) == RegionOf(s.thermal.dyn, leave.temp)
    ensures Run(c, s, [Check(leave), Switch(again), Check(meet)]).OutOfBounds?
  {
    var es := [Check(leave), Switch(again), Check(meet)];
    var s1 := Apply(c, s, es[0]).state;
    assert s1.status == Default && s1.pre == RegionOf(s.thermal.dyn, leave.temp);
    var s2 := Apply(c, s1, es[1]).state;
    assert s2.status == Fast && s2.pre == s1.pre;
    assert Apply(c, s2, es[2]).OutOfBounds?;
    assert Run(c, s2, [es[2]]).OutOfBounds?;
    assert es[1..][1..] == [es[2]];
    assert Run(c, s1, es[1..]).OutOfBounds?;
  }

  /** The machine before its first switch. */
  function Start(thr: seq<int>): State
  {
    State(Default, false, 0, 0, 0, FFC_TEMP_NORMAL, Initial(thr))
  }

  /** A wireless sample with every votable found. */
  predicate Ready(i: Input)
  {
    i.wlsOnline && !i.usbOnline && i.iclFound && i.fccFound && i.fvFound && i.disFound
  }

  /** The fault is reachable from the start with every usable table: switch in the
      normal region, get hot, switch in the normal region again, get hot again. */
  lemma FaultFromStart(c: Config, thr: seq<int>, normal: Input, hot: Input)
    requires ValidConfig(c) && |thr| == 3 && Ready(normal) && Ready(hot)
    requires thr[0] <= normal.temp && thr[1] <= normal.temp < thr[2]
    requires thr[2] + BATT_TEMP_HYST <= hot.temp
    ensures Run(c, Start(thr), [Switch(normal)] + [Check(hot), Switch(normal), Check(hot)]).OutOfBounds?
  {
    var raised := thr[2 := thr[2] + BATT_TEMP_HYST];
    var es := [Check(hot), Switch(normal), Check(hot)];
    RegionIs(thr, normal.temp, 2);
    RegionIs(raised, hot.temp, 3);
    assert Rewritten(thr, thr, 2, BATT_TEMP_HYST) == raised;
    assert Rewritten(thr, raised, 2, -BATT_TEMP_HYST) == thr;
    var s1 := Apply(c, Start(thr), Switch(normal)).state;
    assert s1 == State(Fast, true, 0, 0, 0, FFC_TEMP_NORMAL, Tracker(thr, raised, 2));
    assert FfcStep(Tracker(thr, raised, 2), hot.temp) == Tracker(thr, thr, 3);
    assert FfcStep(Tracker(thr, thr, 3), normal.temp) == Tracker(thr, raised, 2);
    RememberedRegionFaults(c, s1, hot, normal, hot);
    assert ([Switch(normal)] + es)[1..] == es;
  }

  /** The failing initialisation is reachable from the start: switch in the normal region,
      then reset the receiver, and FAST is left active with its flag down. */
  lemma InitDropsFlagInFast(c: Config, thr: seq<int>, normal: Input)
    requires ValidConfig(c) && |thr| == 3 && Ready(normal)
    requires thr[0] <= normal.temp && thr[1] <= normal.temp < thr[2]
    ensures var r := Run(c, Start(thr), [Switch(normal)] + [Init]);
            r.Ok? && r.state.status == Fast && !r.state.charging
  {
    RegionIs(thr, normal.temp, 2);
    var s1 := Apply(c, Start(thr), Switch(normal)).state;
    assert s1.status == Fast;
    assert Run(c, s1, [Init]) == Ok(StatusInit(s1), 0, []) by {
      assert [Init][1..] == [];
    }
    assert ([Switch(normal)] + [Init])[1..] == [Init];
  }

  // --------------------------------------------------------- phases terminate

  function Checks(c: Config, s: State, inputs: seq<Input>): (r: Outcome)
    requires ValidConfig(c) && |s.thermal.thr| == |s.thermal.dyn|
    ensures r.Ok? ==> |r.state.thermal.thr| == |r.state.thermal.dyn|
    decreases inputs
  {
    if inputs == [] then Ok(s, 0, [])
    else
      var r := CheckStep(c, s, inputs[0]);
      if r.OutOfBounds? then r else Checks(c, r.state, inputs[1..])
  }

  /** The run of checks never faults and is still in FAST at its end. */
  ghost predicate StillFast(c: Config, s: State, inputs: seq<Input>)
    requires ValidConfig(c) && |s.thermal.thr| == |s.thermal.dyn|
  {
    Checks(c, s, inputs).Ok? && Checks(c, s, inputs).state.status == Fast
  }

  lemma {:induction false} LeftFastStaysLeft(c: Config, s: State, inputs: seq<Input>)
    requires ValidConfig(c) && Ranged(c, s) && s.status != Fast
    ensures Checks(c, s, inputs).Ok? ==> Checks(c, s, inputs).state.status != Fast
    decreases inputs
  {
    if inputs != [] {
      CheckKeepsRanges(c, s, inputs[0]);
      LeftFastStaysLeft(c, CheckStep(c, s, inputs[0]).state, inputs[1..]);
    }
  }

  /** The number of samples at or above the cutoff voltage of their step. */
  ghost function HighSamples(c: Config, s: State, inputs: seq<Input>): nat
    requires ValidConfig(c) && Ranged(c, s) && s.status == Fast && StillFast(c, s, inputs)
    decreases inputs
  {
    if inputs == [] then 0
    else
      var s1 := CheckStep(c, s, inputs[0]).state;
      (CheckKeepsRanges(c, s, inputs[0]);
       if s1.status != Fast then LeftFastStaysLeft(c, s1, inputs[1..]); 0 else
         (if High(c, s, inputs[0]) then 1 else 0) + HighSamples(c, s1, inputs[1..]))
  }

  function Progress(s: State): int
  {
    6 * s.step + s.fvCount
  }

  lemma SampleStays(c: Config, s: State, i: Input, region: nat, votes: seq<UserVote>)
    requires ValidConfig(c) && Ranged(c, s) && s.status == Fast
    requires var r := FastSample(c, s, i, region, votes); r.Ok? && r.state.status == Fast
    ensures InTables(s, region)
    ensures FastSample(c, s, i, region, votes).state == Debounced(s, High(c, s, i), Low(c, s, i, region))
  {
  }

  /** A check that stays in FAST moves the counters as its voltage and current say. */
  lemma CheckDebounces(c: Config, s: State, i: Input)
    requires ValidConfig(c) && Ranged(c, s) && s.status == Fast
    requires CheckStep(c, s, i).Ok? && CheckStep(c, s, i).state.status == Fast
    ensures InTables(s, RegionOf(s.thermal.dyn, i.temp))
    ensures var s1 := CheckStep(c, s, i).state;
            var d := Debounced(s, High(c, s, i), Low(c, s, i, RegionOf(s.thermal.dyn, i.temp)));
            s1.step == d.step && s1.fvCount == d.fvCount && s1.fccCount == d.fccCount
  {
    var region := RegionOf(s.thermal.dyn, i.temp);
    var s1 := s.(thermal := FfcStep(s.thermal, i.temp));
    if s.pre == region {
      SampleStays(c, s1, i, region, []);
    } else if InTables(s1, region) {
      var votes := [Icl(c.iclMa[s.step][region - 1]), Fcc(c.fccMa[s.step][region - 1])];
      SampleStays(c, s1.(pre := region), i, region, votes);
    }
  }

  lemma CheckProgresses(c: Config, s: State, i: Input)
    requires ValidConfig(c) && Ranged(c, s) && s.status == Fast
    requires CheckStep(c, s, i).Ok? && CheckStep(c, s, i).state.status == Fast
    ensures Progress(CheckStep(c, s, i).state) >= Progress(s) + if High(c, s, i) then 1 else 0
  {
    CheckDebounces(c, s, i);
  }

  /** Main theorem: a FAST phase survives fewer than 6 * step_max samples at or above
      the cutoff voltage, wherever in the phase they fall. */
  lemma {:induction false} HighVoltageEndsFast(c: Config, s: State, inputs: seq<Input>)
    requires ValidConfig(c) && Ranged(c, s) && s.status == Fast && StillFast(c, s, inputs)
    ensures Progress(s) + HighSamples(c, s, inputs) < 6 * c.stepMax
    decreases inputs
  {
    if inputs != [] {
      var s1 := CheckStep(c, s, inputs[0]).state;
      CheckKeepsRanges(c, s, inputs[0]);
      if s1.status != Fast {
        LeftFastStaysLeft(c, s1, inputs[1..]);
      } else {
        CheckProgresses(c, s, inputs[0]);
        HighVoltageEndsFast(c, s1, inputs[1..]);
      }
    }
  }

  /** Every sample of the run is below the cutoff current of its step and region. */
  ghost predicate AllLow(c: Config, s: State, inputs: seq<Input>)
    requires ValidConfig(c) && |s.thermal.thr| == |s.thermal.dyn|
    decreases inputs
  {
    inputs != [] ==>
      var region := RegionOf(s.thermal.dyn, inputs[0].temp);
      && InTables(s, region) && Low(c, s, inputs[0], region)
      && CheckStep(c, s, inputs[0]).Ok? && AllLow(c, CheckStep(c, s, inputs[0]).state, inputs[1..])
  }

  /** Main theorem: a FAST phase survives at most step_max + 2 consecutive low-current
      samples, because a low-current step does not reset the counter that earned it. */
  lemma {:induction false} LowCurrentEndsFast(c: Config, s: State, inputs: seq<Input>)
    requires ValidConfig(c) && Ranged(c, s) && s.status == Fast && StillFast(c, s, inputs) && AllLow(c, s, inputs)
    ensures s.step + |inputs| <= c.stepMax - 1 + (if s.fccCount >= 3 then 0 else 3 - s.fccCount)
    ensures |inputs| < 4 * c.stepMax
    decreases inputs
  {
    if inputs != [] {
      var s1 := CheckStep(c, s, inputs[0]).state;
      CheckKeepsRanges(c, s, inputs[0]);
      if s1.status != Fast {
        LeftFastStaysLeft(c, s1, inputs[1..]);
      } else {
        CheckDebounces(c, s, inputs[0]);
        LowCurrentEndsFast(c, s1, inputs[1..]);
      }
    }
  }

  /** Every sample of the run is high or not, and low or not, as said. */
  ghost predicate Uniform(c: Config, s: State, inputs: seq<Input>, high: bool, low: bool)
    requires ValidConfig(c) && |s.thermal.thr| == |s.thermal.dyn|
    decreases inputs
  {
    inputs != [] ==>
      var region := RegionOf(s.thermal.dyn, inputs[0].temp);
      && InTables(s, region) && High(c, s, inputs[0]) == high && Low(c, s, inputs[0], region) == low
      && CheckStep(c, s, inputs[0]).Ok? && Uniform(c, CheckStep(c, s, inputs[0]).state, inputs[1..], high, low)
  }

  /** The pace is exact: with high voltage and no low current each sample earns one
      sixth of a step; with low current only, the fourth and every later sample in a
      row earns a whole step. */
  lemma {:induction false} ExactPace(c: Config, s: State, inputs: seq<Input>, high: bool)
    requires ValidConfig(c) && Ranged(c, s) && s.status == Fast && StillFast(c, s, inputs)
    requires Uniform(c, s, inputs, high, !high)
    ensures var s' := Checks(c, s, inputs).state;
            if high then Progress(s') == Progress(s) + |inputs|
            else s'.step == s.step + (if s.fccCount + |inputs| <= 3 then 0
                                      else if s.fccCount >= 3 then |inputs|
                                      else s.fccCount + |inputs| - 3)
    decreases inputs
  {
    if inputs != [] {
      var s1 := CheckStep(c, s, inputs[0]).state;
      CheckKeepsRanges(c, s, inputs[0]);
      if s1.status != Fast {
        LeftFastStaysLeft(c, s1, inputs[1..]);
      } else {
        CheckDebounces(c, s, inputs[0]);
        ExactPace(c, s1, inputs[1..], high);
      }
    }
  }

  /** Main theorem: IDLE, entered with its counter at zero, lasts six checks and is
      left by the seventh, whatever the chargers and votables do. */
  lemma {:induction false} IdleEndsAtSeventh(c: Config, s: State, inputs: seq<Input>)
    requires ValidConfig(c) && Ranged(c, s) && s.status == Idle
    ensures Checks(c, s, inputs).Ok?
    ensures s.fccCount + |inputs| <= 6 ==>
              var s' := Checks(c, s, inputs).state;
              s'.status == Idle && s'.charging == s.charging && s'.fccCount == s.fccCount + |inputs|
    ensures s.fccCount + |inputs| >= 7 ==>
              var s' := Checks(c, s, inputs).state; s'.status == Default && !s'.charging
    decreases inputs
  {
    if inputs != [] {
      var s1 := CheckStep(c, s, inputs[0]).state;
      CheckKeepsRanges(c, s, inputs[0]);
      if s1.status == Idle {
        IdleEndsAtSeventh(c, s1, inputs[1..]);
      } else {
        DefaultStays(c, s1, inputs[1..]);
      }
    }
  }

  lemma {:induction false} DefaultStays(c: Config, s: State, inputs: seq<Input>)
    requires ValidConfig(c) && Ranged(c, s) && s.status == Default
    ensures Checks(c, s, inputs).Ok?
    ensures Checks(c, s, inputs).state.status == Default && !Checks(c, s, inputs).state.charging
    decreases inputs
  {
    if inputs != [] {
      DefaultStays(c, CheckStep(c, s, inputs[0]).state, inputs[1..]);
    }
  }
}
