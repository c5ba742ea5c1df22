/** What fast charging votes over whole runs, and at which voltages and currents it
    goes on, steps and ends. */
module FfcOutcomes {
  import opened Kernel
  import opened Ffc
  import Hysteresis

  // ----------------------------------------------------------- votes of a run

  /** All votes of a run, in order, up to the first out-of-bounds read. */
  function VotesOf(c: Config, s: State, es: seq<Event>): seq<UserVote>
    requires ValidConfig(c) && |s.thermal.thr| == |s.thermal.dyn|
    decreases es
  {
    if es == [] then []
    else
      var r := Apply(c, s, es[0]);
      if r.OutOfBounds? then [] else r.votes + VotesOf(c, r.state, es[1..])
  }

  /** The last vote on each votable. */
  function LastOut(v: seq<UserVote>): Option<bool>
  {
    if v == [] then None else if v[|v| - 1].OutDisable? then Some(v[|v| - 1].on) else LastOut(v[..|v| - 1])
  }

  function LastIcl(v: seq<UserVote>): Option<int>
  {
    if v == [] then None else if v[|v| - 1].Icl? then Some(v[|v| - 1].ma) else LastIcl(v[..|v| - 1])
  }

  function LastFcc(v: seq<UserVote>): Option<int>
  {
    if v == [] then None else if v[|v| - 1].Fcc? then Some(v[|v| - 1].ma) else LastFcc(v[..|v| - 1])
  }

  function LastFv(v: seq<UserVote>): Option<int>
  {
    if v == [] then None else if v[|v| - 1].Fv? then Some(v[|v| - 1].mv) else LastFv(v[..|v| - 1])
  }

  function Or<T>(a: Option<T>, b: Option<T>): Option<T>
  {
    if a.Some? then a else b
  }

  lemma LastSnoc(v: seq<UserVote>, x: UserVote)
    ensures LastOut(v + [x]) == if x.OutDisable? then Some(x.on) else LastOut(v)
    ensures LastIcl(v + [x]) == if x.Icl? then Some(x.ma) else LastIcl(v)
    ensures LastFcc(v + [x]) == if x.Fcc? then Some(x.ma) else LastFcc(v)
    ensures LastFv(v + [x]) == if x.Fv? then Some(x.mv) else LastFv(v)
  {
    assert (v + [x])[..|v|] == v;
  }

  lemma {:induction false} LastConcat(a: seq<UserVote>, b: seq<UserVote>)
    ensures LastOut(a + b) == Or(LastOut(b), LastOut(a))
    ensures LastIcl(a + b) == Or(LastIcl(b), LastIcl(a))
    ensures LastFcc(a + b) == Or(LastFcc(b), LastFcc(a))
    decreases b
  {
    if b == [] {
      assert a + b == a;
    } else {
      var n := |b| - 1;
      LastConcat(a, b[..n]);
      assert a + b == (a + b[..n]) + [b[n]] && b == b[..n] + [b[n]];
      LastSnoc(a + b[..n], b[n]);
      LastSnoc(b[..n], b[n]);
    }
  }

  /** A list of votes without any on the output. */
  predicate NoOut(v: seq<UserVote>)
  {
    forall k :: 0 <= k < |v| ==> !v[k].OutDisable?
  }

  lemma {:induction false} NoOutIsNone(v: seq<UserVote>)
    requires NoOut(v)
    ensures LastOut(v) == None
  {
    if v != [] {
      NoOutIsNone(v[..|v| - 1]);
    }
  }

  // -------------------------------------------------- the votes of one sample

  /** The three votes that set a step's limits. */
  function Limits(icl: int, fv: int, fcc: int): seq<UserVote>
  {
    [Icl(icl), Fv(fv), Fcc(fcc)]
  }

  lemma LimitsAreLast(v: seq<UserVote>, icl: int, fv: int, fcc: int)
    ensures var w := v + Limits(icl, fv, fcc);
            LastIcl(w) == Some(icl) && LastFv(w) == Some(fv) && LastFcc(w) == Some(fcc) && LastOut(w) == LastOut(v)
  {
    assert v + Limits(icl, fv, fcc) == v + [Icl(icl)] + [Fv(fv)] + [Fcc(fcc)];
    LastSnoc(v, Icl(icl));
    LastSnoc(v + [Icl(icl)], Fv(fv));
    LastSnoc(v + [Icl(icl)] + [Fv(fv)], Fcc(fcc));
  }

  lemma DoneVotesAreLast(v: seq<UserVote>, fvFound: bool, mv: int)
    ensures var w := v + [OutDisable(true)] + (if fvFound then [Fv(mv)] else []);
            LastOut(w) == Some(true) && (fvFound ==> LastFv(w) == Some(mv))
  {
    LastSnoc(v, OutDisable(true));
    LastSnoc(v + [OutDisable(true)], Fv(mv));
    assert v + [OutDisable(true)] + [] == v + [OutDisable(true)];
  }

  /** One FAST sample, given the votes `v` its region change already cast. */
  lemma SampleVotes(c: Config, s: State, i: Input, region: nat, v: seq<UserVote>)
    requires ValidConfig(c) && Ranged(c, s) && s.status == Fast && NoOut(v)
    requires FastSample(c, s, i, region, v).Ok?
    ensures var r := FastSample(c, s, i, region, v);
            && (r.state.status == Fast ==>
                  && 1 <= region <= 2 && 0 <= r.state.step < 4 && r.rc == 0 && LastOut(r.votes) == None
                  && LastIcl(r.votes) == Some(c.iclMa[r.state.step][region - 1])
                  && LastFv(r.votes) == Some(c.fvMv[r.state.step] - i.decCv)
                  && LastFcc(r.votes) == Some(c.fccMa[r.state.step][region - 1]))
            && (r.state.status == Idle ==>
                  && r.rc == 0 && LastOut(r.votes) == Some(true)
                  && (i.fvFound ==> LastFv(r.votes) == Some(i.vbatMaxMv - i.decCv)))
            && (r.state.status == Default ==> r.rc < 0 && LastOut(r.votes) == None)
  {
    var r := FastSample(c, s, i, region, v);
    NoOutIsNone(v);
    if r.state.status == Fast {
      var k := r.state.step;
      LimitsAreLast(v, c.iclMa[k][region - 1], c.fvMv[k] - i.decCv, c.fccMa[k][region - 1]);
    } else if r.state.status == Idle {
      DoneVotesAreLast(v, i.fvFound, i.vbatMaxMv - i.decCv);
    }
  }

  lemma FastCheckVotes(c: Config, s: State, i: Input, region: nat)
    requires ValidConfig(c) && Ranged(c, s) && s.status == Fast && FastCheck(c, s, i, region).Ok?
    ensures var r := FastCheck(c, s, i, region);
            && (r.state.status == Fast ==>
                  && 1 <= region <= 2 && 0 <= r.state.step < 4 && r.rc == 0 && LastOut(r.votes) == None
                  && LastIcl(r.votes) == Some(c.iclMa[r.state.step][region - 1])
                  && LastFv(r.votes) == Some(c.fvMv[r.state.step] - i.decCv)
                  && LastFcc(r.votes) == Some(c.fccMa[r.state.step][region - 1]))
            && (r.state.status == Idle ==>
                  && r.rc == 0 && LastOut(r.votes) == Some(true)
                  && (i.fvFound ==> LastFv(r.votes) == Some(i.vbatMaxMv - i.decCv)))
            && (r.state.status == Default ==> r.rc <= 0 && LastOut(r.votes) == None)
  {
    if s.pre == region {
      SampleVotes(c, s, i, region, []);
    } else if InTables(s, region) {
      var v := [Icl(c.iclMa[s.step][region - 1]), Fcc(c.fccMa[s.step][region - 1])];
      SampleVotes(c, s.(pre := region), i, region, v);
    }
  }

  /** Main theorem: what a check votes. One that ends in FAST leaves as its last votes the
      limits of the step and region it ends in, the float voltage lowered by the
      decrement. One that goes from FAST to IDLE votes the output disabled and the float
      voltage back to the battery's. One that returns 1, which only the seventh check of
      IDLE does, votes the output enabled if wireless is online. No other check votes on
      the output. */
  lemma CheckVotes(c: Config, s: State, i: Input)
    requires ValidConfig(c) && Ranged(c, s) && CheckStep(c, s, i).Ok?
    ensures var r := CheckStep(c, s, i);
            var s', v := r.state, r.votes;
            && (s'.status == Fast ==>
                  && 1 <= s'.thermal.region <= 2 && 0 <= s'.step < 4
                  && LastIcl(v) == Some(c.iclMa[s'.step][s'.thermal.region - 1])
                  && LastFv(v) == Some(c.fvMv[s'.step] - i.decCv)
                  && LastFcc(v) == Some(c.fccMa[s'.step][s'.thermal.region - 1]))
            && (s.status == Fast && s'.status == Idle && i.fvFound ==> LastFv(v) == Some(i.vbatMaxMv - i.decCv))
            && (r.rc == 1 <==> s.status == Idle && s.fccCount == 6 && !i.usbOnline && (i.wlsOnline ==> i.disFound))
            && (r.rc == 1 ==> s'.status == Default)
            && LastOut(v) == (if s.status == Fast && s'.status == Idle then Some(true)
                              else if r.rc == 1 && i.wlsOnline then Some(false)
                              else None)
  {
    if s.status == Fast {
      var s1 := s.(thermal := Hysteresis.FfcStep(s.thermal, i.temp));
      FastCheckVotes(c, s1, i, Hysteresis.RegionOf(s.thermal.dyn, i.temp));
    } else if s.status == Idle {
      LastSnoc([], OutDisable(false));
      assert [] + [OutDisable(false)] == [OutDisable(false)];
    }
  }

  /** Main theorem: what a check returns, on every path. */
  lemma CheckReturns(c: Config, s: State, i: Input)
    requires ValidConfig(c) && Ranged(c, s) && CheckStep(c, s, i).Ok?
    ensures var r := CheckStep(c, s, i);
            var region := Hysteresis.RegionOf(s.thermal.dyn, i.temp);
            r.rc == match s.status
                    case Default => -22
                    case Fast =>
                      if s.pre != region && !(1 <= region <= 2) then 0
                      else if i.usbOnline || !i.wlsOnline then -22
                      else if r.state.status == Default then -19
                      else 0
                    case Idle =>
                      if s.fccCount < 6 then 0
                      else if i.usbOnline then -22
                      else if i.wlsOnline && !i.disFound then -19
                      else 1
  {
  }

  /** A switch enters FAST exactly in a chargeable region with wireless online, USB
      offline and every votable found; then its votes are the limits of step 0 in that
      region, and otherwise it casts none. */
  lemma SwitchVotes(c: Config, s: State, i: Input)
    requires ValidConfig(c) && |s.thermal.thr| == |s.thermal.dyn|
    ensures var r := SwitchStep(c, s, i);
            var region := Hysteresis.RegionOf(s.thermal.dyn, i.temp);
            && r.Ok?
            && (r.state.status == Fast <==>
                  && 1 <= region <= 2 && i.wlsOnline && !i.usbOnline
                  && i.iclFound && i.fccFound && i.fvFound && i.disFound)
            && (r.state.status == Fast <==> r.rc == 0)
            && (r.state.status == Fast ==>
                  && r.state.step == 0 && r.state.thermal.region == region
                  && LastIcl(r.votes) == Some(c.iclMa[0][region - 1])
                  && LastFv(r.votes) == Some(c.fvMv[0])
                  && LastFcc(r.votes) == Some(c.fccMa[0][region - 1]))
            && (r.state.status != Fast ==> r.state.status == Default && r.votes == [])
            && LastOut(r.votes) == None
  {
    var region := Hysteresis.RegionOf(s.thermal.dyn, i.temp);
    if 1 <= region <= 2 {
      LimitsAreLast([], c.iclMa[0][region - 1], c.fvMv[0], c.fccMa[0][region - 1]);
      assert [] + Limits(c.iclMa[0][region - 1], c.fvMv[0], c.fccMa[0][region - 1])
          == [Icl(c.iclMa[0][region - 1]), Fv(c.fvMv[0]), Fcc(c.fccMa[0][region - 1])];
    }
  }

  // ---------------------------------------------------------------- over runs

  /** The output vote after a run that started with `out` as the last one. */
  lemma {:induction false} IdleKeepsDisabled(c: Config, s: State, es: seq<Event>, out: Option<bool>)
    requires ValidConfig(c) && Ranged(c, s) && (s.status == Idle ==> out == Some(true))
    ensures Run(c, s, es).Ok? && Run(c, s, es).state.status == Idle ==>
              Or(LastOut(VotesOf(c, s, es)), out) == Some(true)
    decreases es
  {
    if es != [] && Apply(c, s, es[0]).Ok? {
      var r := Apply(c, s, es[0]);
      ApplyKeepsRanges(c, s, es[0]);
      match es[0] {
        case Switch(i) => SwitchVotes(c, s, i);
        case Check(i) => CheckVotes(c, s, i);
        case Init =>
      }
      IdleKeepsDisabled(c, r.state, es[1..], Or(LastOut(r.votes), out));
      LastConcat(r.votes, VotesOf(c, r.state, es[1..]));
    }
  }

  /** Main theorem: whenever a run from the start is in IDLE, its last vote on the output
      is to disable it: a battery whose fast charge is done is not charged on. */
  lemma IdleIsDisabled(c: Config, thr: seq<int>, es: seq<Event>)
    requires ValidConfig(c)
    ensures var r := Run(c, Start(thr), es);
            r.Ok? && r.state.status == Idle ==> LastOut(VotesOf(c, Start(thr), es)) == Some(true)
  {
    IdleKeepsDisabled(c, Start(thr), es, None);
  }

  /** The limits on record are those of the step and region of a FAST phase. */
  predicate LimitsStand(c: Config, s: State, icl: Option<int>, fcc: Option<int>)
    requires ValidConfig(c)
  {
    s.status == Fast ==>
      && 1 <= s.thermal.region <= 2 && 0 <= s.step < 4
      && icl == Some(c.iclMa[s.step][s.thermal.region - 1])
      && fcc == Some(c.fccMa[s.step][s.thermal.region - 1])
  }

  lemma StepKeepsLimits(c: Config, s: State, e: Event, icl: Option<int>, fcc: Option<int>)
    requires ValidConfig(c) && Ranged(c, s) && LimitsStand(c, s, icl, fcc) && !e.Init? && Apply(c, s, e).Ok?
    ensures var r := Apply(c, s, e);
            LimitsStand(c, r.state, Or(LastIcl(r.votes), icl), Or(LastFcc(r.votes), fcc))
  {
    if e.Switch? {
      SwitchVotes(c, s, e.i);
    } else {
      CheckVotes(c, s, e.i);
    }
  }

  lemma {:induction false} LimitsFollow(c: Config, s: State, es: seq<Event>, icl: Option<int>, fcc: Option<int>)
    requires ValidConfig(c) && Ranged(c, s) && LimitsStand(c, s, icl, fcc)
    requires forall k :: 0 <= k < |es| ==> !es[k].Init?
    ensures var v := VotesOf(c, s, es);
            Run(c, s, es).Ok? ==> LimitsStand(c, Run(c, s, es).state, Or(LastIcl(v), icl), Or(LastFcc(v), fcc))
    decreases es
  {
    if es != [] && Apply(c, s, es[0]).Ok? {
      var r := Apply(c, s, es[0]);
      ApplyKeepsRanges(c, s, es[0]);
      StepKeepsLimits(c, s, es[0], icl, fcc);
      LimitsFollow(c, r.state, es[1..], Or(LastIcl(r.votes), icl), Or(LastFcc(r.votes), fcc));
      LastConcat(r.votes, VotesOf(c, r.state, es[1..]));
    }
  }

  /** Main theorem: over every run of switches and checks from the start, the last votes
      on record in FAST are the limits of the current step and region. */
  lemma FastLimitsAreVoted(c: Config, thr: seq<int>, es: seq<Event>)
    requires ValidConfig(c) && forall k :: 0 <= k < |es| ==> !es[k].Init?
    ensures var r, v := Run(c, Start(thr), es), VotesOf(c, Start(thr), es);
            r.Ok? ==> LimitsStand(c, r.state, LastIcl(v), LastFcc(v))
  {
    LimitsFollow(c, Start(thr), es, None, None);
  }

  // -------------------------------------------------------------- in numbers

  /** A voltage at or above every step's cutoff, and one below every cutoff. */
  predicate AboveCutoffs(c: Config, i: Input)
    requires ValidConfig(c)
  {
    forall k :: 0 <= k < 4 ==> i.vbatMv >= c.fvCutoffMv[k] - i.decCv
  }

  predicate BelowCutoffs(c: Config, i: Input)
    requires ValidConfig(c)
  {
    forall k :: 0 <= k < 4 ==> i.vbatMv < c.fvCutoffMv[k] - i.decCv
  }

  /** A current, of either sign, below every cutoff current, and one at or above them all. */
  predicate LowCurrent(c: Config, i: Input)
    requires ValidConfig(c)
  {
    forall k, r :: 0 <= k < 4 && 0 <= r < 2 ==> -c.fccCutoffMa[k][r] < i.ibatMa < c.fccCutoffMa[k][r]
  }

  predicate FullCurrent(c: Config, i: Input)
    requires ValidConfig(c)
  {
    forall k, r :: 0 <= k < 4 && 0 <= r < 2 ==> i.ibatMa >= c.fccCutoffMa[k][r] || -i.ibatMa >= c.fccCutoffMa[k][r]
  }

  lemma {:induction false} AllHighCount(c: Config, s: State, inputs: seq<Input>)
    requires ValidConfig(c) && Ranged(c, s) && s.status == Fast && StillFast(c, s, inputs)
    requires forall k :: 0 <= k < |inputs| ==> AboveCutoffs(c, inputs[k])
    ensures HighSamples(c, s, inputs) == |inputs|
    decreases inputs
  {
    if inputs != [] {
      var s1 := CheckStep(c, s, inputs[0]).state;
      CheckKeepsRanges(c, s, inputs[0]);
      if s1.status != Fast {
        LeftFastStaysLeft(c, s1, inputs[1..]);
      } else {
        assert High(c, s, inputs[0]);
        AllHighCount(c, s1, inputs[1..]);
      }
    }
  }

  /** Main theorem, in numbers: a FAST phase survives fewer than 6 * step_max checks whose
      voltage, raised by the decrement, reaches the cutoff voltages. */
  lemma CutoffVoltageEndsFast(c: Config, s: State, inputs: seq<Input>)
    requires ValidConfig(c) && Ranged(c, s) && s.status == Fast && StillFast(c, s, inputs)
    requires forall k :: 0 <= k < |inputs| ==> AboveCutoffs(c, inputs[k])
    ensures |inputs| < 6 * c.stepMax
  {
    AllHighCount(c, s, inputs);
    HighVoltageEndsFast(c, s, inputs);
  }

  lemma {:induction false} LowCurrentIsLow(c: Config, s: State, inputs: seq<Input>)
    requires ValidConfig(c) && Ranged(c, s) && s.status == Fast && StillFast(c, s, inputs)
    requires forall k :: 0 <= k < |inputs| ==> LowCurrent(c, inputs[k])
    ensures AllLow(c, s, inputs)
    decreases inputs
  {
    if inputs != [] {
      var s1 := CheckStep(c, s, inputs[0]).state;
      CheckKeepsRanges(c, s, inputs[0]);
      if s1.status != Fast {
        LeftFastStaysLeft(c, s1, inputs[1..]);
      } else {
        CheckDebounces(c, s, inputs[0]);
        LowCurrentIsLow(c, s1, inputs[1..]);
      }
    }
  }

  /** Main theorem, in numbers: it survives at most step_max + 2 checks in a row whose
      current is below the cutoff currents. */
  lemma CutoffCurrentEndsFast(c: Config, s: State, inputs: seq<Input>)
    requires ValidConfig(c) && Ranged(c, s) && s.status == Fast && StillFast(c, s, inputs)
    requires forall k :: 0 <= k < |inputs| ==> LowCurrent(c, inputs[k])
    ensures |inputs| <= c.stepMax + 2
  {
    LowCurrentIsLow(c, s, inputs);
    LowCurrentEndsFast(c, s, inputs);
  }

  /** Every check of the run meets a chargeable region. */
  ghost predicate StaysChargeable(c: Config, s: State, inputs: seq<Input>)
    requires ValidConfig(c) && |s.thermal.thr| == |s.thermal.dyn|
    decreases inputs
  {
    inputs != [] ==>
      && 1 <= Hysteresis.RegionOf(s.thermal.dyn, inputs[0].temp) <= 2
      && (CheckStep(c, s, inputs[0]).Ok? ==> StaysChargeable(c, CheckStep(c, s, inputs[0]).state, inputs[1..]))
  }

  lemma QuietSampleStays(c: Config, s: State, i: Input, region: nat, v: seq<UserVote>)
    requires ValidConfig(c) && Ranged(c, s) && s.status == Fast && 1 <= region <= 2
    requires Ready(i) && BelowCutoffs(c, i) && FullCurrent(c, i)
    ensures var r := FastSample(c, s, i, region, v);
            r.Ok? && r.state.status == Fast && r.state.step == s.step && r.state.fvCount == s.fvCount
  {
    assert !High(c, s, i) && !Low(c, s, i, region);
  }

  lemma QuietCheckStays(c: Config, s: State, i: Input)
    requires ValidConfig(c) && Ranged(c, s) && s.status == Fast
    requires 1 <= Hysteresis.RegionOf(s.thermal.dyn, i.temp) <= 2
    requires Ready(i) && BelowCutoffs(c, i) && FullCurrent(c, i)
    ensures var r := CheckStep(c, s, i);
            r.Ok? && r.state.status == Fast && r.state.step == s.step && r.state.fvCount == s.fvCount
  {
    var region := Hysteresis.RegionOf(s.thermal.dyn, i.temp);
    var s1 := s.(thermal := Hysteresis.FfcStep(s.thermal, i.temp));
    if s.pre == region {
      QuietSampleStays(c, s1, i, region, []);
    } else {
      var v := [Icl(c.iclMa[s.step][region - 1]), Fcc(c.fccMa[s.step][region - 1])];
      QuietSampleStays(c, s1.(pre := region), i, region, v);
    }
  }

  /** Main theorem, the other way: a check in a chargeable region with everything found,
      below the cutoff voltages and at or above the cutoff currents, stays in FAST at the
      same step, so such a phase never ends by itself. */
  lemma {:induction false} FastGoesOn(c: Config, s: State, inputs: seq<Input>)
    requires ValidConfig(c) && Ranged(c, s) && s.status == Fast
    requires forall k :: 0 <= k < |inputs| ==>
               Ready(inputs[k]) && BelowCutoffs(c, inputs[k]) && FullCurrent(c, inputs[k])
    requires StaysChargeable(c, s, inputs)
    ensures StillFast(c, s, inputs) && Checks(c, s, inputs).state.step == s.step
    decreases inputs
  {
    if inputs != [] {
      QuietCheckStays(c, s, inputs[0]);
      CheckKeepsRanges(c, s, inputs[0]);
      FastGoesOn(c, CheckStep(c, s, inputs[0]).state, inputs[1..]);
    }
  }

  /** A status initialisation in FAST starts over at step 0 without leaving FAST: the next
      check judges the temperature by the configured thresholds and, if it stays, votes the
      limits of step 0. */
  lemma InitStartsOver(c: Config, s: State, i: Input)
    requires ValidConfig(c) && Ranged(c, s) && s.status == Fast
    requires Ready(i) && BelowCutoffs(c, i) && FullCurrent(c, i)
    requires 1 <= Hysteresis.RegionOf(s.thermal.thr, i.temp) <= 2
    ensures var region := Hysteresis.RegionOf(s.thermal.thr, i.temp);
            var r0 := Apply(c, s, Init);
            && r0.Ok?
            && var r := Apply(c, r0.state, Check(i));
               && r.Ok? && r.state.status == Fast && !r.state.charging
               && LastIcl(r.votes) == Some(c.iclMa[0][region - 1])
               && LastFv(r.votes) == Some(c.fvMv[0] - i.decCv)
               && LastFcc(r.votes) == Some(c.fccMa[0][region - 1])
  {
    var s0 := Apply(c, s, Init).state;
    ApplyKeepsRanges(c, s, Init);
    QuietCheckStays(c, s0, i);
    CheckVotes(c, s0, i);
    assert !CheckStep(c, s0, i).state.charging;
  }

  /** A region that just turned unchargeable, a USB charger, or no charger ends FAST. */
  lemma FastEndsOutside(c: Config, s: State, i: Input)
    requires ValidConfig(c) && Ranged(c, s) && s.status == Fast && CheckStep(c, s, i).Ok?
    requires var region := Hysteresis.RegionOf(s.thermal.dyn, i.temp);
             (s.pre != region && !(1 <= region <= 2)) || i.usbOnline || !i.wlsOnline
    ensures CheckStep(c, s, i).state.status == Default && !CheckStep(c, s, i).state.charging
  {
  }

  /** Leaving IDLE by an error leaves the output voted disabled: a seventh check that finds
      a USB charger, or not the votable, ends in DEFAULT without a vote. */
  lemma IdleErrorKeepsDisabled(c: Config, s: State, i: Input)
    requires ValidConfig(c) && Ranged(c, s) && s.status == Idle && s.fccCount == 6
    requires i.usbOnline || (i.wlsOnline && !i.disFound)
    ensures var r := CheckStep(c, s, i);
            r.Ok? && r.state.status == Default && r.rc < 0 && r.votes == []
  {
  }
}
