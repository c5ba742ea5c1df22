/** The over-voltage interlock of the wireless output: the charging policy drives
    the WLS_NOR_OUT_DISABLE votable (a SET_ANY votable) under several voter names.
    While the battery is over voltage, nothing the policy or other modules do under
    another name can re-enable the output. */
module OutputInterlock {
  import opened Kernel
  import opened Voter
  import VoterRuns
  import opened VotableObject

  const BATT_SOFT_OVP_MV := 4500
  const CHG_TIMEOUT_COUNT := 6000
  const BATT_TEMP_UNKNOWN := 0
  const BATT_TEMP_HOT := 8
  const UOVP_VOTER := "UOVP_VOTER"
  const USER_VOTER := "USER_VOTER"
  const TIMEOUT_VOTER := "TIMEOUT_VOTER"
  const FFC_VOTER := "FFC_VOTER"
  const STOP_VOTER := "STOP_VOTER"

  /** What one policy call reads from the rest of the system. `found` says whether
      the votable exists yet, `allocOk` whether a slot name can be allocated, `rc`
      what the callback answers. */
  datatype Env = Env(
    present: bool, fastchg: bool, usbOnline: bool, wlsOnline: bool, charging: bool,
    vbatMv: int, vbatdetMv: int, tempRegion: int, full: bool, chgOvp: bool,
    found: bool, allocOk: bool, rc: Int32)

  datatype Policy = Policy(
    battOvp: bool, chgDone: bool, rechargePending: bool, rechargeStatus: bool,
    timeOut: bool, timeoutCount: int, out: State)

  function Voted(out: State, name: string, on: bool, e: Env): (out': State)
    requires WellFormed(out)
    ensures WellFormed(out')
  {
    if e.found then VoteStep(out, name, on, if on then 1 else 0, false, e.allocOk, e.rc).0 else out
  }

  function TimeoutStep(p: Policy, e: Env): (p': Policy)
    requires WellFormed(p.out)
    ensures WellFormed(p'.out)
  {
    if p.chgDone then p
    else
      var count := if (e.usbOnline || e.present) && e.charging then p.timeoutCount + 1 else 0;
      if count <= CHG_TIMEOUT_COUNT then p.(timeoutCount := count)
      else
        p.(timeoutCount := count, timeOut := true,
           out := if e.usbOnline || !e.present then p.out else Voted(p.out, TIMEOUT_VOTER, true, e))
  }

  function BatteryUovpStep(p: Policy, e: Env): (p': Policy)
    requires WellFormed(p.out)
    ensures WellFormed(p'.out)
  {
    if !e.usbOnline && !e.present then p
    else if e.vbatMv > BATT_SOFT_OVP_MV then
      if p.battOvp then p else p.(battOvp := true, out := Voted(p.out, UOVP_VOTER, true, e))
    else if p.battOvp && e.vbatMv < BATT_SOFT_OVP_MV - 50 then
      p.(battOvp := false, out := Voted(p.out, UOVP_VOTER, false, e))
    else p
  }

  function TermCurrentStep(p: Policy, e: Env): (p': Policy)
    requires WellFormed(p.out)
    ensures WellFormed(p'.out)
  {
    if (p.chgDone && !p.rechargePending) || !e.full then p
    else
      p.(chgDone := true, rechargePending := false,
         out := if e.usbOnline || !e.wlsOnline then p.out else Voted(p.out, USER_VOTER, true, e))
  }

  function RechargeStep(p: Policy, e: Env): (p': Policy)
    requires WellFormed(p.out)
    ensures WellFormed(p'.out)
  {
    if !e.chgOvp && p.chgDone && !p.rechargePending && BATT_TEMP_UNKNOWN < e.tempRegion < BATT_TEMP_HOT
       && e.vbatdetMv >= e.vbatMv
    then p.(rechargePending := true, rechargeStatus := true, out := Voted(p.out, USER_VOTER, false, e))
    else p
  }

  /** The periodic work, as far as it touches the output-disable votable. */
  function HeartbeatStep(p: Policy, e: Env): (p': Policy)
    requires WellFormed(p.out)
    ensures WellFormed(p'.out)
  {
    if !e.present || e.fastchg then p
    else RechargeStep(TermCurrentStep(BatteryUovpStep(TimeoutStep(p, e), e), e), e)
  }

  /** The receiver's reset: it withdraws four votes, the over-voltage one among
      them, repeats the result to the callback and re-initialises the policy. */
  function ResetStep(p: Policy, env: Env): (p': Policy)
    requires WellFormed(p.out)
    ensures WellFormed(p'.out)
  {
    var e := env.(found := true);
    var out1 := Voted(p.out, FFC_VOTER, false, e);
    var out2 := Voted(out1, USER_VOTER, false, e);
    var out3 := Voted(out2, STOP_VOTER, false, e);
    var out4 := Voted(out3, UOVP_VOTER, false, e);
    Policy(false, false, false, false, false, 0, RerunStep(out4, false, e.rc).0)
  }

  // ------------------------------------------------------- the policy object

  class OutputPolicy {
    var battOvp: bool
    var chgDone: bool
    var rechargePending: bool
    var rechargeStatus: bool
    var timeOut: bool
    var timeoutCount: int
    const votable: Votable

    ghost function Abs(): Policy
      reads this, votable, votable.clients, votable.votes
    {
      Policy(battOvp, chgDone, rechargePending, rechargeStatus, timeOut, timeoutCount, votable.Abs())
    }

    constructor (votable: Votable)
      ensures this.votable == votable
      ensures Abs() == Policy(false, false, false, false, false, 0, votable.Abs())
    {
      this.votable := votable;
      battOvp, chgDone, rechargePending, rechargeStatus, timeOut := false, false, false, false, false;
      timeoutCount := 0;
    }

    method CastVote(name: string, on: bool, e: Env)
      requires votable.Valid()
      modifies votable, votable.clients, votable.votes
      ensures votable.Valid()
      ensures votable.Abs() == Voted(old(votable.Abs()), name, on, e)
    {
      if e.found {
        var rc := votable.Vote(name, on, if on then 1 else 0, false, e.allocOk, e.rc);
      }
    }

    method CheckChargeTimeout(e: Env)
      requires votable.Valid()
      modifies this, votable, votable.clients, votable.votes
      ensures votable.Valid() && Abs() == TimeoutStep(old(Abs()), e)
    {
      if chgDone {
        return;
      }
      if (e.usbOnline || e.present) && e.charging {
        timeoutCount := timeoutCount + 1;
      } else {
        timeoutCount := 0;
      }
      if timeoutCount > CHG_TIMEOUT_COUNT {
        if e.usbOnline {
        } else if e.present {
          CastVote(TIMEOUT_VOTER, true, e);
        }
        timeOut := true;
      }
    }

    method CheckBatteryUovp(e: Env)
      requires votable.Valid()
      modifies this, votable, votable.clients, votable.votes
      ensures votable.Valid() && Abs() == BatteryUovpStep(old(Abs()), e)
    {
      if !e.usbOnline && !e.present {
        return;
      }
      if e.vbatMv > BATT_SOFT_OVP_MV {
        if !battOvp {
          battOvp := true;
          CastVote(UOVP_VOTER, true, e);
        }
      } else if battOvp && e.vbatMv < BATT_SOFT_OVP_MV - 50 {
        battOvp := false;
        CastVote(UOVP_VOTER, false, e);
      }
    }

    method CheckTermCurrent(e: Env)
      requires votable.Valid()
      modifies this, votable, votable.clients, votable.votes
      ensures votable.Valid() && Abs() == TermCurrentStep(old(Abs()), e)
    {
      if chgDone && !rechargePending {
        return;
      }
      if e.full {
        chgDone := true;
        rechargePending := false;
        if e.usbOnline {
          return;
        } else if e.wlsOnline {
          CastVote(USER_VOTER, true, e);
        }
      }
    }

    method Heartbeat(e: Env)
      requires votable.Valid()
      modifies this, votable, votable.clients, votable.votes
      ensures votable.Valid() && Abs() == HeartbeatStep(old(Abs()), e)
    {
      if !e.present || e.fastchg {
        return;
      }
      CheckChargeTimeout(e);
      CheckBatteryUovp(e);
      CheckTermCurrent(e);
      Recharge(e);
    }

    /** The recharge decision of the periodic work. */
    method Recharge(e: Env)
      requires votable.Valid()
      modifies this, votable, votable.clients, votable.votes
      ensures votable.Valid() && Abs() == RechargeStep(old(Abs()), e)
    {
      if !e.chgOvp && chgDone && !rechargePending && BATT_TEMP_UNKNOWN < e.tempRegion < BATT_TEMP_HOT
         && e.vbatdetMv >= e.vbatMv {
        rechargePending := true;
        rechargeStatus := true;
        CastVote(USER_VOTER, false, e);
      }
    }
  }

  // -------------------------------------------------------------- the interlock

  /** An event of the whole system: a heartbeat, the two votes of the fast-charge
      state machine, the receiver's reset, or any call another module makes on the votable. */
  datatype Event =
    | Heartbeat(e: Env)
    | FfcDone(e: Env)
    | FfcExit(e: Env)
    | Reset(e: Env)
    | Outside(op: VoterRuns.Op)

  /** Other modules may do anything to the votable except vote as UOVP_VOTER. */
  predicate CanHappen(p: Policy, ev: Event)
  {
    && WellFormed(p.out)
    && (ev.Outside? ==> VoterRuns.CanApply(p.out, ev.op) && !(ev.op.Vote? && ev.op.name == UOVP_VOTER))
  }

  function Step(p: Policy, ev: Event): (p': Policy)
    requires CanHappen(p, ev)
    ensures WellFormed(p'.out)
  {
    match ev
    case Heartbeat(e) => HeartbeatStep(p, e)
    case FfcDone(e) => p.(out := Voted(p.out, USER_VOTER, true, e))
    case FfcExit(e) => p.(out := Voted(p.out, USER_VOTER, false, e))
    case Reset(e) => ResetStep(p, e)
    case Outside(op) => p.(out := VoterRuns.Apply(p.out, op))
  }

  predicate Possible(p: Policy, evs: seq<Event>)
    decreases evs
  {
    evs == [] || (CanHappen(p, evs[0]) && Possible(Step(p, evs[0]), evs[1..]))
  }

  function Run(p: Policy, evs: seq<Event>): Policy
    requires Possible(p, evs)
    decreases evs
  {
    if evs == [] then p else Run(Step(p, evs[0]), evs[1..])
  }

  ghost predicate UovpOn(out: State)
    requires WellFormed(out)
  {
    VoterRuns.BallotOf(out, UOVP_VOTER).enabled
  }

  /** The interlock: an over-voltage flag has its vote behind it. */
  ghost predicate Locked(p: Policy)
  {
    && VoterRuns.Inv(p.out)
    && p.out.kind == SetAny
    && (p.battOvp ==> UovpOn(p.out))
  }

  /** The interlock with nothing left over: flag and vote agree both ways. */
  ghost predicate Agreed(p: Policy)
  {
    Locked(p) && (UovpOn(p.out) ==> p.battOvp)
  }

  /** The policy at start, over a created output-disable votable. */
  function CreatedPolicy(hasCallback: bool): Policy
  {
    Policy(false, false, false, false, false, 0, Created(SetAny, hasCallback))
  }

  lemma CreatedAgreed(hasCallback: bool)
    ensures Agreed(CreatedPolicy(hasCallback))
  {
    VoterRuns.CreatedInv(SetAny, hasCallback);
  }

  /** Any enabled client makes a SET_ANY votable read 1. */
  lemma EnabledMeansDisabled(out: State, i: nat)
    requires VoterRuns.Inv(out) && out.kind == SetAny && i < NUM_MAX_CLIENTS && out.votes[i].enabled
    ensures out.effectiveResult == 1
  {
    assert out.votes[i].value in EnabledValues(out.votes);
  }

  // ---------------------------------------- what a call does to the ballot

  /** A call under another name, or none, leaves the over-voltage ballot alone, whether
      or not the over-voltage client has a slot yet. */
  lemma OthersKeepUovp(out: State, op: VoterRuns.Op)
    requires VoterRuns.Inv(out) && VoterRuns.CanApply(out, op)
    requires !(op.Vote? && op.name == UOVP_VOTER)
    ensures var out' := VoterRuns.Apply(out, op);
            VoterRuns.Inv(out') && out'.kind == out.kind && (UovpOn(out') <==> UovpOn(out))
  {
    VoterRuns.ApplyKeepsInv(out, op);
    VoterRuns.OthersKeepBallot(out, op, UOVP_VOTER);
  }

  /** The vote a policy call casts, as a votable operation. */
  function AsOp(name: string, on: bool, e: Env): VoterRuns.Op
  {
    VoterRuns.Vote(name, on, if on then 1 else 0, false, e.allocOk, e.rc)
  }

  /** The votable exists and has or can make a slot for the over-voltage client. */
  predicate Accepts(out: State, e: Env)
    requires WellFormed(out)
  {
    e.found && GetClientId(out.clients, UOVP_VOTER, e.allocOk).id >= 0
  }

  /** An over-voltage vote sets the ballot exactly when it is accepted. */
  lemma UovpVote(out: State, on: bool, e: Env)
    requires VoterRuns.Inv(out)
    ensures var out' := Voted(out, UOVP_VOTER, on, e);
            && VoterRuns.Inv(out') && out'.kind == out.kind
            && (UovpOn(out') <==> if Accepts(out, e) then on else UovpOn(out))
  {
    VoterRuns.ApplyKeepsInv(out, AsOp(UOVP_VOTER, on, e));
    VoterRuns.OwnVoteSetsBallot(out, AsOp(UOVP_VOTER, on, e));
  }

  /** A client whose ballot is on has its slot, so its votes are accepted. */
  lemma OnIsAccepted(out: State, e: Env)
    requires WellFormed(out) && UovpOn(out) && e.found
    ensures Accepts(out, e)
  {
  }

  /** A vote under another name changes neither side of the interlock. */
  lemma PolicyVoteKeeps(p: Policy, name: string, on: bool, e: Env)
    requires VoterRuns.Inv(p.out) && name != UOVP_VOTER
    ensures var out' := Voted(p.out, name, on, e);
            VoterRuns.Inv(out') && out'.kind == p.out.kind && (UovpOn(out') <==> UovpOn(p.out))
  {
    OthersKeepUovp(p.out, AsOp(name, on, e));
  }

  // ------------------------------------------------------------ each check

  predicate Trips(p: Policy, e: Env)
  {
    (e.usbOnline || e.present) && e.vbatMv > BATT_SOFT_OVP_MV && !p.battOvp
  }

  predicate Releases(p: Policy, e: Env)
  {
    (e.usbOnline || e.present) && e.vbatMv < BATT_SOFT_OVP_MV - 50 && p.battOvp
  }

  /** A trip's vote lands: it is accepted, or the ballot is on already. */
  ghost predicate TripLands(p: Policy, e: Env)
    requires WellFormed(p.out)
  {
    Trips(p, e) ==> UovpOn(p.out) || Accepts(p.out, e)
  }

  lemma BatteryKeepsLockIff(p: Policy, e: Env)
    requires Locked(p)
    ensures Locked(BatteryUovpStep(p, e)) <==> TripLands(p, e)
  {
    UovpVote(p.out, true, e);
    UovpVote(p.out, false, e);
  }

  lemma BatteryAgreesIff(p: Policy, e: Env)
    requires Agreed(p)
    ensures Agreed(BatteryUovpStep(p, e)) <==> TripLands(p, e) && (Releases(p, e) ==> e.found)
  {
    UovpVote(p.out, true, e);
    UovpVote(p.out, false, e);
    if UovpOn(p.out) && e.found {
      OnIsAccepted(p.out, e);
    }
  }

  /** A step that votes under another name at most: it changes nothing of the interlock. */
  ghost predicate SameLock(p: Policy, p': Policy)
    requires VoterRuns.Inv(p.out)
  {
    && VoterRuns.Inv(p'.out) && p'.out.kind == p.out.kind && p'.battOvp == p.battOvp
    && (UovpOn(p'.out) <==> UovpOn(p.out))
  }

  lemma TimeoutKeepsLock(p: Policy, e: Env)
    requires VoterRuns.Inv(p.out)
    ensures SameLock(p, TimeoutStep(p, e))
  {
    PolicyVoteKeeps(p, TIMEOUT_VOTER, true, e);
  }

  lemma TermCurrentKeepsLock(p: Policy, e: Env)
    requires VoterRuns.Inv(p.out)
    ensures SameLock(p, TermCurrentStep(p, e))
  {
    PolicyVoteKeeps(p, USER_VOTER, true, e);
  }

  lemma RechargeKeepsLock(p: Policy, e: Env)
    requires VoterRuns.Inv(p.out)
    ensures SameLock(p, RechargeStep(p, e))
  {
    PolicyVoteKeeps(p, USER_VOTER, false, e);
  }

  lemma BatteryKeepsInv(p: Policy, e: Env)
    requires VoterRuns.Inv(p.out)
    ensures VoterRuns.Inv(BatteryUovpStep(p, e).out)
  {
    UovpVote(p.out, true, e);
    UovpVote(p.out, false, e);
  }

  /** The trip of a heartbeat, which the timeout check precedes. */
  ghost predicate HeartbeatLands(p: Policy, e: Env)
    requires WellFormed(p.out)
  {
    e.present && !e.fastchg ==> TripLands(TimeoutStep(p, e), e)
  }

  /** After the over-voltage check a heartbeat leaves the interlock alone. */
  lemma HeartbeatTail(p: Policy, e: Env)
    requires VoterRuns.Inv(p.out)
    ensures VoterRuns.Inv(BatteryUovpStep(p, e).out)
    ensures SameLock(BatteryUovpStep(p, e), RechargeStep(TermCurrentStep(BatteryUovpStep(p, e), e), e))
  {
    BatteryKeepsInv(p, e);
    var p2 := BatteryUovpStep(p, e);
    TermCurrentKeepsLock(p2, e);
    RechargeKeepsLock(TermCurrentStep(p2, e), e);
  }

  lemma HeartbeatKeepsLockIff(p: Policy, e: Env)
    requires Locked(p)
    ensures Locked(HeartbeatStep(p, e)) <==> HeartbeatLands(p, e)
  {
    if e.present && !e.fastchg {
      TimeoutKeepsLock(p, e);
      BatteryKeepsLockIff(TimeoutStep(p, e), e);
      HeartbeatTail(TimeoutStep(p, e), e);
    }
  }

  lemma HeartbeatAgreesIff(p: Policy, e: Env)
    requires Agreed(p)
    ensures Agreed(HeartbeatStep(p, e)) <==>
            HeartbeatLands(p, e) && (!e.fastchg && e.present && Releases(p, e) ==> e.found)
  {
    if e.present && !e.fastchg {
      TimeoutKeepsLock(p, e);
      BatteryAgreesIff(TimeoutStep(p, e), e);
      HeartbeatTail(TimeoutStep(p, e), e);
    }
  }

  /** The receiver's reset puts flag and vote in agreement from any state: the vote is
      withdrawn if the client has a slot, and was never cast if it has none. */
  lemma ResetAgrees(p: Policy, env: Env)
    requires VoterRuns.Inv(p.out) && p.out.kind == SetAny
    ensures Agreed(ResetStep(p, env))
  {
    var e := env.(found := true);
    var p1 := p.(out := Voted(p.out, FFC_VOTER, false, e));
    PolicyVoteKeeps(p, FFC_VOTER, false, e);
    var p2 := p.(out := Voted(p1.out, USER_VOTER, false, e));
    PolicyVoteKeeps(p1, USER_VOTER, false, e);
    var out3 := Voted(p2.out, STOP_VOTER, false, e);
    PolicyVoteKeeps(p2, STOP_VOTER, false, e);
    UovpVote(out3, false, e);
    if UovpOn(out3) {
      OnIsAccepted(out3, e);
    }
    OthersKeepUovp(Voted(out3, UOVP_VOTER, false, e), VoterRuns.Rerun(false, e.rc));
  }

  // -------------------------------------------------------------- whole runs

  /** The event's trip, if it has one, lands. */
  ghost predicate Lands(p: Policy, ev: Event)
    requires WellFormed(p.out)
  {
    ev.Heartbeat? ==> HeartbeatLands(p, ev.e)
  }

  /** Apart from heartbeats and resets, no event touches either side of the interlock. */
  lemma OtherEventsKeepLock(p: Policy, ev: Event)
    requires VoterRuns.Inv(p.out) && CanHappen(p, ev) && !ev.Heartbeat? && !ev.Reset?
    ensures SameLock(p, Step(p, ev))
  {
    match ev
    case FfcDone(e) => PolicyVoteKeeps(p, USER_VOTER, true, e);
    case FfcExit(e) => PolicyVoteKeeps(p, USER_VOTER, false, e);
    case Outside(op) => OthersKeepUovp(p.out, op);
  }

  /** One event keeps the interlock if and only if its trip lands. */
  lemma StepKeepsLockIff(p: Policy, ev: Event)
    requires Locked(p) && CanHappen(p, ev)
    ensures Locked(Step(p, ev)) <==> Lands(p, ev)
  {
    match ev
    case Heartbeat(e) => HeartbeatKeepsLockIff(p, e);
    case Reset(e) => ResetAgrees(p, e);
    case _ => OtherEventsKeepLock(p, ev);
  }

  /** Every trip of the run lands. */
  ghost predicate AllLand(p: Policy, evs: seq<Event>)
    requires Possible(p, evs)
    decreases evs
  {
    evs != [] ==> Lands(p, evs[0]) && AllLand(Step(p, evs[0]), evs[1..])
  }

  /** The interlock holds before and after every event of the run. */
  ghost predicate AlwaysLocked(p: Policy, evs: seq<Event>)
    requires Possible(p, evs)
    decreases evs
  {
    Locked(p) && (evs != [] ==> AlwaysLocked(Step(p, evs[0]), evs[1..]))
  }

  /** Main theorem: over every run the interlock holds throughout if and only if every
      over-voltage trip of the run lands. */
  lemma {:induction false} AlwaysLockedIff(p: Policy, evs: seq<Event>)
    requires Locked(p) && Possible(p, evs)
    ensures AlwaysLocked(p, evs) <==> AllLand(p, evs)
    decreases evs
  {
    if evs != [] {
      StepKeepsLockIff(p, evs[0]);
      if Lands(p, evs[0]) {
        AlwaysLockedIff(Step(p, evs[0]), evs[1..]);
      }
    }
  }

  /** What the interlock is for: the flag means the output is disabled, and the visible
      result says so unless forcing or an override, which never touch the election,
      hides it. */
  lemma LockedDisables(p: Policy)
    requires Locked(p) && p.battOvp
    ensures p.out.effectiveResult == 1
    ensures !p.out.forceActive && p.out.overrideResult == MINUS_EINVAL ==> Visible(p.out) == 1
  {
    EnabledMeansDisabled(p.out, SlotOf(p.out.clients, UOVP_VOTER));
  }

  /** Main theorem: over every run whose trips land, an over-voltage flag means the
      output stays disabled, whatever other modules do under other names. */
  lemma {:induction false} OvervoltageKeepsOutputDisabled(p: Policy, evs: seq<Event>)
    requires Locked(p) && Possible(p, evs) && AllLand(p, evs)
    ensures var p' := Run(p, evs);
            && Locked(p')
            && (p'.battOvp ==> p'.out.effectiveResult == 1)
            && (p'.battOvp && !p'.out.forceActive && p'.out.overrideResult == MINUS_EINVAL ==> Visible(p'.out) == 1)
    decreases evs
  {
    if evs == [] {
      if p.battOvp {
        LockedDisables(p);
      }
    } else {
      StepKeepsLockIff(p, evs[0]);
      OvervoltageKeepsOutputDisabled(Step(p, evs[0]), evs[1..]);
    }
  }

  /** In particular from the start, before the over-voltage client has a slot. */
  lemma DisabledFromCreated(hasCallback: bool, evs: seq<Event>)
    requires Possible(CreatedPolicy(hasCallback), evs) && AllLand(CreatedPolicy(hasCallback), evs)
    ensures var p' := Run(CreatedPolicy(hasCallback), evs);
            p'.battOvp ==> p'.out.effectiveResult == 1
  {
    CreatedAgreed(hasCallback);
    OvervoltageKeepsOutputDisabled(CreatedPolicy(hasCallback), evs);
  }

  /** The vote leaves with the flag, too: where every heartbeat finds the votable, flag
      and vote agree after every run whose trips land. */
  lemma {:induction false} FlagAndVoteAgree(p: Policy, evs: seq<Event>)
    requires Agreed(p) && Possible(p, evs) && AllLand(p, evs)
    requires forall i :: 0 <= i < |evs| && evs[i].Heartbeat? ==> evs[i].e.found
    ensures Agreed(Run(p, evs))
    decreases evs
  {
    if evs != [] {
      StepKeepsAgreement(p, evs[0]);
      FlagAndVoteAgree(Step(p, evs[0]), evs[1..]);
    }
  }

  lemma StepKeepsAgreement(p: Policy, ev: Event)
    requires Agreed(p) && CanHappen(p, ev) && Lands(p, ev) && (ev.Heartbeat? ==> ev.e.found)
    ensures Agreed(Step(p, ev))
  {
    match ev
    case Heartbeat(e) => HeartbeatAgreesIff(p, e);
    case Reset(e) => ResetAgrees(p, e);
    case _ => OtherEventsKeepLock(p, ev);
  }

  /** A trip that does not land is not retried: from the start, a first over-voltage
      heartbeat whose slot name cannot be allocated leaves the flag up and the output
      enabled, and so does every further heartbeat at that voltage. */
  lemma LostTripStaysLost(hasCallback: bool, e: Env, again: Env)
    requires e.present && !e.usbOnline && !e.fastchg && e.vbatMv > BATT_SOFT_OVP_MV && !e.allocOk && !e.full
    requires again.present && !again.usbOnline && !again.fastchg && again.vbatMv > BATT_SOFT_OVP_MV && !again.full
    ensures var p1 := HeartbeatStep(CreatedPolicy(hasCallback), e);
            var p2 := HeartbeatStep(p1, again);
            p2.battOvp && p2.out.effectiveResult == 0 && !Locked(p2)
  {
    var p := CreatedPolicy(hasCallback);
    CreatedAgreed(hasCallback);
    OccupiedIs(p.out.clients, 0);
    var p1 := HeartbeatStep(p, e);
    assert p1.out == p.out && p1.battOvp;
    assert HeartbeatStep(p1, again).out == p1.out;
    assert !UovpOn(p.out);
  }

  /** The trip itself disables the output exactly when its vote is accepted or some
      other client already disabled it. */
  lemma TripDisablesIff(p: Policy, e: Env)
    requires VoterRuns.Inv(p.out) && p.out.kind == SetAny && Trips(p, e)
    ensures BatteryUovpStep(p, e).battOvp
    ensures BatteryUovpStep(p, e).out.effectiveResult == 1 <==> p.out.effectiveResult == 1 || Accepts(p.out, e)
  {
    var out' := BatteryUovpStep(p, e).out;
    if Accepts(p.out, e) {
      UovpVote(p.out, true, e);
      EnabledMeansDisabled(out', SlotOf(out'.clients, UOVP_VOTER));
    }
  }

  /** The trip point and the release point are 50 mV apart, and in between nothing changes. */
  lemma TripAndReleasePoints(p: Policy, e: Env)
    requires WellFormed(p.out) && e.present
    ensures var p' := BatteryUovpStep(p, e);
            && (p'.battOvp && !p.battOvp <==> !p.battOvp && e.vbatMv > 4500)
            && (!p'.battOvp && p.battOvp <==> p.battOvp && e.vbatMv < 4450)
            && (p'.battOvp == p.battOvp ==> p' == p)
  {
  }
}
