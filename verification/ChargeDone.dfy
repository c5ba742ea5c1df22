/** How a charge ends: what a full report, a recharge, a timeout and the receiver's reset
    do to the ballots of the output-disable votable, over whole runs. */
module ChargeDone {
  import opened Kernel
  import opened Voter
  import VoterRuns
  import opened OutputInterlock

  ghost predicate On(out: State, who: string)
    requires WellFormed(out)
  {
    VoterRuns.BallotOf(out, who).enabled
  }

  ghost predicate Sound(p: Policy)
  {
    VoterRuns.Inv(p.out) && p.out.kind == SetAny
  }

  /** The votable exists, and the client has a slot or can be given one. */
  ghost predicate Accepted(out: State, who: string, e: Env)
  {
    e.found && VoterRuns.Admits(VoterRuns.Registered(out), who, e.allocOk)
  }

  /** The same with room to spare for two more clients. */
  ghost predicate Room(out: State, who: string, e: Env)
  {
    e.found && (who in VoterRuns.Registered(out) || (e.allocOk && |VoterRuns.Registered(out)| + 2 < 32))
  }

  // ------------------------------------------------------------- one vote

  /** At most one more client has a slot, and none has lost one. */
  ghost predicate Grew(out: State, out': State)
  {
    && VoterRuns.Registered(out) <= VoterRuns.Registered(out')
    && |VoterRuns.Registered(out')| <= |VoterRuns.Registered(out)| + 1
  }

  /** What a policy's vote does to the ballot of any client. */
  lemma VotedBallot(out: State, name: string, on: bool, e: Env, who: string)
    requires VoterRuns.Inv(out)
    ensures var out' := Voted(out, name, on, e);
            && VoterRuns.Inv(out') && out'.kind == out.kind && Grew(out, out')
            && (On(out', who) <==> if who == name && Accepted(out, name, e) then on else On(out, who))
  {
    var op := AsOp(name, on, e);
    VoterRuns.ApplyKeepsInv(out, op);
    VoterRuns.ApplyBallot(out, op, who);
    VoterRuns.ApplyRegisters(out, op);
  }

  lemma OnIsRegistered(out: State, who: string)
    requires WellFormed(out) && On(out, who)
    ensures who in VoterRuns.Registered(out)
  {
    VoterRuns.RegisteredIff(out, who);
  }

  /** A withdrawal leaves the ballot off, whether or not the client has a slot. */
  lemma Withdrawn(out: State, name: string, e: Env)
    requires VoterRuns.Inv(out) && e.found
    ensures !On(Voted(out, name, false, e), name)
  {
    VotedBallot(out, name, false, e, name);
    if On(out, name) {
      OnIsRegistered(out, name);
    }
  }

  /** A client whose ballot is on disables the output. */
  lemma OnDisables(p: Policy, who: string)
    requires Sound(p) && On(p.out, who)
    ensures p.out.effectiveResult == 1
  {
    EnabledMeansDisabled(p.out, SlotOf(p.out.clients, who));
  }

  // ---------------------------------------------- the checks of a heartbeat

  /** A check that votes under `name` at most, and leaves the charge's state alone. */
  ghost predicate OnlyVotes(p: Policy, p': Policy, name: string, who: string)
    requires WellFormed(p.out) && WellFormed(p'.out)
  {
    && p'.chgDone == p.chgDone && p'.rechargePending == p.rechargePending && p'.rechargeStatus == p.rechargeStatus
    && Grew(p.out, p'.out)
    && (who != name ==> (On(p'.out, who) <==> On(p.out, who)))
  }

  lemma TimeoutOnlyVotes(p: Policy, e: Env, who: string)
    requires Sound(p)
    ensures Sound(TimeoutStep(p, e)) && OnlyVotes(p, TimeoutStep(p, e), TIMEOUT_VOTER, who)
  {
    VotedBallot(p.out, TIMEOUT_VOTER, true, e, who);
  }

  lemma BatteryOnlyVotes(p: Policy, e: Env, who: string)
    requires Sound(p)
    ensures Sound(BatteryUovpStep(p, e)) && OnlyVotes(p, BatteryUovpStep(p, e), UOVP_VOTER, who)
    ensures BatteryUovpStep(p, e).timeOut == p.timeOut && BatteryUovpStep(p, e).timeoutCount == p.timeoutCount
  {
    VotedBallot(p.out, UOVP_VOTER, true, e, who);
    VotedBallot(p.out, UOVP_VOTER, false, e, who);
  }

  /** A full report that ends a charge: one not already ended, or resumed since. */
  predicate Reports(p: Policy, e: Env)
  {
    e.full && (!p.chgDone || p.rechargePending)
  }

  /** Main theorem: a full report ends the charge, and where its vote is accepted on a
      wireless charger it disables the output under USER_VOTER. */
  lemma FullDisables(p: Policy, e: Env)
    requires Sound(p) && Reports(p, e)
    ensures var p' := TermCurrentStep(p, e);
            && Sound(p') && p'.chgDone && !p'.rechargePending
            && (e.wlsOnline && !e.usbOnline && Accepted(p.out, USER_VOTER, e) ==>
                  On(p'.out, USER_VOTER) && p'.out.effectiveResult == 1)
  {
    VotedBallot(p.out, USER_VOTER, true, e, USER_VOTER);
    var p' := TermCurrentStep(p, e);
    if On(p'.out, USER_VOTER) {
      OnDisables(p', USER_VOTER);
    }
  }

  /** What the check does to every client's ballot. */
  lemma TermBallots(p: Policy, e: Env, who: string)
    requires Sound(p)
    ensures var p' := TermCurrentStep(p, e);
            && Sound(p')
            && (On(p'.out, who) <==>
                  || On(p.out, who)
                  || (who == USER_VOTER && Reports(p, e) && e.wlsOnline && !e.usbOnline
                      && Accepted(p.out, USER_VOTER, e)))
            && (p'.chgDone <==> p.chgDone || e.full)
            && (p'.rechargePending <==> p.rechargePending && !e.full)
            && p'.rechargeStatus == p.rechargeStatus
            && p'.timeOut == p.timeOut && p'.timeoutCount == p.timeoutCount
  {
    VotedBallot(p.out, USER_VOTER, true, e, who);
  }

  /** What the recharge decision does to every client's ballot. */
  lemma RechargeBallots(p: Policy, e: Env, who: string)
    requires Sound(p)
    ensures var p' := RechargeStep(p, e);
            var due := !e.chgOvp && p.chgDone && !p.rechargePending && 0 < e.tempRegion < 8 && e.vbatMv <= e.vbatdetMv;
            && Sound(p')
            && (On(p'.out, who) <==> On(p.out, who) && !(due && who == USER_VOTER && e.found))
            && p'.chgDone == p.chgDone
            && (p'.rechargePending <==> p.rechargePending || due)
            && (p'.rechargeStatus <==> p.rechargeStatus || due)
            && p'.timeOut == p.timeOut && p'.timeoutCount == p.timeoutCount
  {
    VotedBallot(p.out, USER_VOTER, false, e, who);
    if e.found {
      Withdrawn(p.out, USER_VOTER, e);
    }
  }

  // ------------------------------------------------------ a whole heartbeat

  predicate Active(e: Env)
  {
    e.present && !e.fastchg
  }

  /** When a heartbeat starts a recharge, in numbers: the charge is over, be it just now,
      no charger over-voltage, a temperature between the extremes, and the battery at or
      below the recharge voltage. */
  predicate RechargeDue(p: Policy, e: Env)
  {
    && !e.chgOvp && 0 < e.tempRegion < 8 && e.vbatMv <= e.vbatdetMv
    && ((p.chgDone && !p.rechargePending) || e.full)
  }

  /** The state in which a heartbeat reaches its last two checks. */
  ghost function Before(p: Policy, e: Env): Policy
    requires WellFormed(p.out)
  {
    BatteryUovpStep(TimeoutStep(p, e), e)
  }

  lemma BeforeBallots(p: Policy, e: Env, who: string)
    requires Sound(p)
    ensures var q := Before(p, e);
            && Sound(q)
            && q.chgDone == p.chgDone && q.rechargePending == p.rechargePending && q.rechargeStatus == p.rechargeStatus
            && (who != TIMEOUT_VOTER && who != UOVP_VOTER ==> (On(q.out, who) <==> On(p.out, who)))
            && (Room(p.out, who, e) ==> Accepted(q.out, who, e))
  {
    TimeoutOnlyVotes(p, e, who);
    BatteryOnlyVotes(TimeoutStep(p, e), e, who);
  }

  /** Main theorem: what a heartbeat leaves on file for USER_VOTER. A recharge that is due
      withdraws the ballot; a full report with room for its vote casts it; nothing else
      changes it. The charge's state follows the same numbers. */
  lemma HeartbeatExact(p: Policy, e: Env)
    requires Sound(p)
    ensures var p' := HeartbeatStep(p, e);
            var casts := Reports(p, e) && e.wlsOnline && !e.usbOnline;
            && Sound(p')
            && (!Active(e) ==> p' == p)
            && (Active(e) ==>
                  && (p'.chgDone <==> p.chgDone || e.full)
                  && (p'.rechargePending <==> RechargeDue(p, e) || (p.rechargePending && !e.full))
                  && (p'.rechargeStatus <==> RechargeDue(p, e) || p.rechargeStatus)
                  && (RechargeDue(p, e) && e.found ==> !On(p'.out, USER_VOTER))
                  && (!(RechargeDue(p, e) && e.found) && casts && Room(p.out, USER_VOTER, e) ==>
                        On(p'.out, USER_VOTER) && p'.out.effectiveResult == 1)
                  && (!(RechargeDue(p, e) && e.found) && On(p.out, USER_VOTER) ==> On(p'.out, USER_VOTER))
                  && (!casts && !On(p.out, USER_VOTER) ==> !On(p'.out, USER_VOTER)))
  {
    if Active(e) {
      BeforeBallots(p, e, USER_VOTER);
      var q := Before(p, e);
      TermBallots(q, e, USER_VOTER);
      RechargeBallots(TermCurrentStep(q, e), e, USER_VOTER);
      var p' := HeartbeatStep(p, e);
      if On(p'.out, USER_VOTER) {
        OnDisables(p', USER_VOTER);
      }
    }
  }

  /** In particular from the start: a first full report disables the output unless the
      battery is low enough to recharge at once. */
  lemma FirstFullDisables(hasCallback: bool, e: Env)
    requires Active(e) && e.full && e.wlsOnline && !e.usbOnline && e.found && e.allocOk
    requires e.chgOvp || !(0 < e.tempRegion < 8) || e.vbatMv > e.vbatdetMv
    ensures var p := HeartbeatStep(CreatedPolicy(hasCallback), e);
            p.chgDone && !p.rechargePending && p.out.effectiveResult == 1
  {
    CreatedAgreed(hasCallback);
    VoterRuns.CreatedKnowsNobody(SetAny, hasCallback);
    HeartbeatExact(CreatedPolicy(hasCallback), e);
  }

  // -------------------------------------------------------------- the reset

  lemma WithdrawKeeps(out: State, name: string, e: Env, who: string)
    requires VoterRuns.Inv(out) && out.kind == SetAny && e.found
    ensures var out' := Voted(out, name, false, e);
            VoterRuns.Inv(out') && out'.kind == SetAny && (On(out', who) <==> who != name && On(out, who))
  {
    VotedBallot(out, name, false, e, who);
    Withdrawn(out, name, e);
  }

  /** Main theorem: the receiver's reset withdraws exactly four ballots and forgets the
      charge's state. */
  lemma ResetWithdraws(p: Policy, env: Env, who: string)
    requires Sound(p)
    ensures var p' := ResetStep(p, env);
            && Sound(p')
            && (On(p'.out, who) <==>
                  On(p.out, who) && who !in {FFC_VOTER, USER_VOTER, STOP_VOTER, UOVP_VOTER})
            && !p'.battOvp && !p'.chgDone && !p'.rechargePending && !p'.timeOut && p'.timeoutCount == 0
  {
    var e := env.(found := true);
    var out1 := Voted(p.out, FFC_VOTER, false, e);
    var out2 := Voted(out1, USER_VOTER, false, e);
    var out3 := Voted(out2, STOP_VOTER, false, e);
    var out4 := Voted(out3, UOVP_VOTER, false, e);
    WithdrawKeeps(p.out, FFC_VOTER, e, who);
    WithdrawKeeps(out1, USER_VOTER, e, who);
    WithdrawKeeps(out2, STOP_VOTER, e, who);
    WithdrawKeeps(out3, UOVP_VOTER, e, who);
    VoterRuns.ApplyKeepsInv(out4, VoterRuns.Rerun(false, e.rc));
    VoterRuns.OthersKeepBallot(out4, VoterRuns.Rerun(false, e.rc), who);
  }

  // ------------------------------------------ over runs: the output stays off

  /** The events that withdraw USER_VOTER's ballot, from their own arguments and the
      charge's state. */
  predicate Withdraws(p: Policy, ev: Event)
  {
    match ev
    case Heartbeat(e) => Active(e) && e.found && RechargeDue(p, e)
    case FfcDone(_) => false
    case FfcExit(e) => e.found
    case Reset(_) => true
    case Outside(op) => op.Vote? && op.name == USER_VOTER && !op.enabled
  }

  /** What a call of another module does to a ballot that is on. */
  lemma OutsideKeepsIff(out: State, op: VoterRuns.Op, who: string)
    requires VoterRuns.Inv(out) && VoterRuns.CanApply(out, op) && On(out, who)
    ensures var out' := VoterRuns.Apply(out, op);
            && VoterRuns.Inv(out') && out'.kind == out.kind
            && (On(out', who) <==> !(op.Vote? && op.name == who && !op.enabled))
  {
    VoterRuns.ApplyKeepsInv(out, op);
    VoterRuns.ApplyBallot(out, op, who);
    OnIsRegistered(out, who);
  }

  lemma HeartbeatKeepsUserIff(p: Policy, e: Env)
    requires Sound(p) && On(p.out, USER_VOTER)
    ensures var p' := HeartbeatStep(p, e);
            Sound(p') && (On(p'.out, USER_VOTER) <==> !(Active(e) && e.found && RechargeDue(p, e)))
  {
    HeartbeatExact(p, e);
  }

  /** The vote of the fast-charge machine, once the ballot is on. */
  lemma FfcKeepsUserIff(out: State, on: bool, e: Env)
    requires VoterRuns.Inv(out) && On(out, USER_VOTER)
    ensures var out' := Voted(out, USER_VOTER, on, e);
            VoterRuns.Inv(out') && out'.kind == out.kind && (On(out', USER_VOTER) <==> on || !e.found)
  {
    OnIsRegistered(out, USER_VOTER);
    VotedBallot(out, USER_VOTER, on, e, USER_VOTER);
  }

  lemma VoteKeepsUserIff(p: Policy, ev: Event)
    requires Sound(p) && CanHappen(p, ev) && On(p.out, USER_VOTER) && (ev.FfcDone? || ev.FfcExit?)
    ensures Sound(Step(p, ev)) && (On(Step(p, ev).out, USER_VOTER) <==> !Withdraws(p, ev))
  {
    FfcKeepsUserIff(p.out, ev.FfcDone?, ev.e);
  }

  lemma OtherKeepsUserIff(p: Policy, ev: Event)
    requires Sound(p) && CanHappen(p, ev) && On(p.out, USER_VOTER) && (ev.Reset? || ev.Outside?)
    ensures Sound(Step(p, ev)) && (On(Step(p, ev).out, USER_VOTER) <==> !Withdraws(p, ev))
  {
    if ev.Reset? {
      ResetWithdraws(p, ev.e, USER_VOTER);
    } else {
      OutsideKeepsIff(p.out, ev.op, USER_VOTER);
    }
  }

  lemma StepKeepsUserIff(p: Policy, ev: Event)
    requires Sound(p) && CanHappen(p, ev) && On(p.out, USER_VOTER)
    ensures Sound(Step(p, ev)) && (On(Step(p, ev).out, USER_VOTER) <==> !Withdraws(p, ev))
  {
    if ev.Heartbeat? {
      HeartbeatKeepsUserIff(p, ev.e);
    } else if ev.FfcDone? || ev.FfcExit? {
      VoteKeepsUserIff(p, ev);
    } else {
      OtherKeepsUserIff(p, ev);
    }
  }

  ghost predicate NoneWithdraws(p: Policy, evs: seq<Event>)
    requires Possible(p, evs)
    decreases evs
  {
    evs != [] ==> !Withdraws(p, evs[0]) && NoneWithdraws(Step(p, evs[0]), evs[1..])
  }

  /** USER_VOTER's ballot is on, and the output disabled, before and after every event. */
  ghost predicate AlwaysOff(p: Policy, evs: seq<Event>)
    requires Possible(p, evs) && WellFormed(p.out)
    decreases evs
  {
    && On(p.out, USER_VOTER) && p.out.effectiveResult == 1
    && (evs != [] ==> AlwaysOff(Step(p, evs[0]), evs[1..]))
  }

  /** Main theorem: once the charge is done, over every run the output stays disabled
      throughout if and only if no recharge comes due, no FFC exit and no reset happens
      and no other module withdraws the vote. */
  lemma {:induction false} DoneStaysOffIff(p: Policy, evs: seq<Event>)
    requires Sound(p) && Possible(p, evs) && On(p.out, USER_VOTER)
    ensures AlwaysOff(p, evs) <==> NoneWithdraws(p, evs)
    decreases evs
  {
    OnDisables(p, USER_VOTER);
    if evs != [] {
      StepKeepsUserIff(p, evs[0]);
      if !Withdraws(p, evs[0]) {
        DoneStaysOffIff(Step(p, evs[0]), evs[1..]);
      }
    }
  }

  // ----------------------------------------------------------- the timeout

  lemma {:induction false} RunSnoc(p: Policy, evs: seq<Event>)
    requires Possible(p, evs) && evs != []
    ensures var n := |evs| - 1;
            && Possible(p, evs[..n]) && CanHappen(Run(p, evs[..n]), evs[n])
            && Run(p, evs) == Step(Run(p, evs[..n]), evs[n])
    decreases evs
  {
    var n := |evs| - 1;
    if n > 0 {
      RunSnoc(Step(p, evs[0]), evs[1..]);
      assert evs[..n][1..] == evs[1..][..n - 1];
    }
  }

  /** The charge is over: a full report since the last reset. */
  predicate Done(evs: seq<Event>)
  {
    evs != [] &&
      var last := evs[|evs| - 1];
      !last.Reset? && (Done(evs[..|evs| - 1]) || (last.Heartbeat? && Active(last.e) && last.e.full))
  }

  /** The charging heartbeats in a row at the end of a run, those after the end of the
      charge not counted. */
  function Row(evs: seq<Event>): nat
  {
    if evs == [] then 0
    else
      var n := |evs| - 1;
      if evs[n].Reset? then 0
      else if !evs[n].Heartbeat? || !Active(evs[n].e) || Done(evs[..n]) then Row(evs[..n])
      else if evs[n].e.charging then Row(evs[..n]) + 1
      else 0
  }

  ghost predicate NoReset(evs: seq<Event>)
  {
    forall k :: 0 <= k < |evs| ==> !evs[k].Reset?
  }

  /** Some row since the last reset was longer than 6000. */
  ghost predicate TimedOut(evs: seq<Event>)
  {
    exists k :: 0 <= k <= |evs| && Row(evs[..k]) > 6000 && NoReset(evs[k..])
  }

  /** A long row of a shorter run, or of the run itself. */
  lemma TimedOutThen(evs: seq<Event>)
    requires evs != [] && TimedOut(evs)
    ensures Row(evs) > 6000 || (!evs[|evs| - 1].Reset? && TimedOut(evs[..|evs| - 1]))
  {
    var n := |evs| - 1;
    var k :| 0 <= k <= |evs| && Row(evs[..k]) > 6000 && NoReset(evs[k..]);
    if k == |evs| {
      assert evs[..k] == evs;
    } else {
      assert evs[k..][n - k] == evs[n];
      assert evs[..n][..k] == evs[..k] && evs[..n][k..] == evs[k..][..n - k];
    }
  }

  lemma TimedOutStill(evs: seq<Event>)
    requires evs != [] && !evs[|evs| - 1].Reset? && TimedOut(evs[..|evs| - 1])
    ensures TimedOut(evs)
  {
    var n := |evs| - 1;
    var k :| 0 <= k <= n && Row(evs[..n][..k]) > 6000 && NoReset(evs[..n][k..]);
    assert evs[..n][..k] == evs[..k] && evs[k..] == evs[..n][k..] + [evs[n]];
  }

  lemma LongRowTimedOut(evs: seq<Event>)
    requires Row(evs) > 6000
    ensures TimedOut(evs)
  {
    assert evs[..|evs|] == evs && NoReset(evs[|evs|..]);
  }

  lemma TimedOutSnoc(evs: seq<Event>)
    requires evs != []
    ensures var n := |evs| - 1;
            TimedOut(evs) <==> Row(evs) > 6000 || (!evs[n].Reset? && TimedOut(evs[..n]))
  {
    if TimedOut(evs) {
      TimedOutThen(evs);
    } else if Row(evs) > 6000 {
      LongRowTimedOut(evs);
    } else if !evs[|evs| - 1].Reset? && TimedOut(evs[..|evs| - 1]) {
      TimedOutStill(evs);
    }
  }

  /** What a heartbeat does to the count and the flag, in numbers. */
  lemma HeartbeatCounts(p: Policy, e: Env)
    requires Sound(p) && Active(e)
    ensures var p' := HeartbeatStep(p, e);
            && Sound(p')
            && (p'.chgDone <==> p.chgDone || e.full)
            && p'.timeoutCount == (if p.chgDone then p.timeoutCount else if e.charging then p.timeoutCount + 1 else 0)
            && (p'.timeOut <==> p.timeOut || (!p.chgDone && p'.timeoutCount > 6000))
  {
    TimeoutOnlyVotes(p, e, USER_VOTER);
    BatteryOnlyVotes(TimeoutStep(p, e), e, USER_VOTER);
    TermBallots(Before(p, e), e, USER_VOTER);
    RechargeBallots(TermCurrentStep(Before(p, e), e), e, USER_VOTER);
  }

  /** Apart from resets and active heartbeats, no event touches them. */
  lemma OthersCountNothing(p: Policy, ev: Event)
    requires Sound(p) && CanHappen(p, ev) && !ev.Reset? && !(ev.Heartbeat? && Active(ev.e))
    ensures var p' := Step(p, ev);
            Sound(p') && p'.timeOut == p.timeOut && p'.chgDone == p.chgDone && p'.timeoutCount == p.timeoutCount
  {
    match ev
    case Heartbeat(e) =>
    case Outside(op) => VoterRuns.ApplyKeepsInv(p.out, op);
    case FfcDone(e) => VotedBallot(p.out, USER_VOTER, true, e, USER_VOTER);
    case FfcExit(e) => VotedBallot(p.out, USER_VOTER, false, e, USER_VOTER);
  }

  /** Main theorem: after every run from the start the timeout flag is up if and only if
      more than 6000 charging heartbeats came in a row since the last reset. */
  lemma {:induction false} TimeoutExact(hasCallback: bool, evs: seq<Event>)
    requires Possible(CreatedPolicy(hasCallback), evs)
    ensures var p := Run(CreatedPolicy(hasCallback), evs);
            && Sound(p) && p.timeoutCount == Row(evs)
            && (p.chgDone <==> Done(evs)) && (p.timeOut <==> TimedOut(evs))
    decreases |evs|
  {
    var p0 := CreatedPolicy(hasCallback);
    if evs == [] {
      CreatedAgreed(hasCallback);
      assert forall k :: 0 <= k <= |evs| ==> evs[..k] == [];
    } else {
      var n := |evs| - 1;
      RunSnoc(p0, evs);
      TimeoutExact(hasCallback, evs[..n]);
      var p := Run(p0, evs[..n]);
      if evs[n].Reset? {
        ResetWithdraws(p, evs[n].e, USER_VOTER);
      } else if evs[n].Heartbeat? && Active(evs[n].e) {
        HeartbeatCounts(p, evs[n].e);
      } else {
        OthersCountNothing(p, evs[n]);
      }
      TimedOutSnoc(evs);
      if Row(evs[..n]) > 6000 {
        LongRowTimedOut(evs[..n]);
      }
    }
  }

  /** A run of charging heartbeats alone, none of them full. */
  predicate Charging(evs: seq<Event>)
  {
    forall k :: 0 <= k < |evs| ==>
      evs[k].Heartbeat? && Active(evs[k].e) && evs[k].e.charging && !evs[k].e.full
  }

  lemma {:induction false} ChargingRow(evs: seq<Event>)
    requires Charging(evs)
    ensures Row(evs) == |evs| && !Done(evs)
  {
    if evs != [] {
      ChargingRow(evs[..|evs| - 1]);
    }
  }

  /** So `n` charging heartbeats from the start time out exactly when n > 6000. */
  lemma ChargingTimesOutIff(hasCallback: bool, evs: seq<Event>)
    requires Possible(CreatedPolicy(hasCallback), evs) && Charging(evs)
    ensures Run(CreatedPolicy(hasCallback), evs).timeOut <==> |evs| > 6000
  {
    TimeoutExact(hasCallback, evs);
    ChargingRow(evs);
    assert evs[..|evs|] == evs && NoReset(evs[|evs|..]);
    forall k | 0 <= k <= |evs| ensures Row(evs[..k]) == k {
      ChargingRow(evs[..k]);
    }
  }

  /** The heartbeat that times out disables the output under TIMEOUT_VOTER, where its vote
      is accepted and no USB charger is online. */
  lemma TimeoutDisables(p: Policy, e: Env)
    requires Sound(p) && Active(e) && e.charging && !p.chgDone && p.timeoutCount >= 6000
    requires !e.usbOnline && Accepted(p.out, TIMEOUT_VOTER, e)
    ensures var p' := HeartbeatStep(p, e);
            Sound(p') && p'.timeOut && On(p'.out, TIMEOUT_VOTER) && p'.out.effectiveResult == 1
  {
    VotedBallot(p.out, TIMEOUT_VOTER, true, e, TIMEOUT_VOTER);
    TailKeepsTimeout(TimeoutStep(p, e), e);
    OnDisables(HeartbeatStep(p, e), TIMEOUT_VOTER);
  }

  lemma TailKeepsTimeout(p: Policy, e: Env)
    requires Sound(p)
    ensures var p' := RechargeStep(TermCurrentStep(BatteryUovpStep(p, e), e), e);
            Sound(p') && p'.timeOut == p.timeOut && (On(p'.out, TIMEOUT_VOTER) <==> On(p.out, TIMEOUT_VOTER))
  {
    BatteryOnlyVotes(p, e, TIMEOUT_VOTER);
    var q := BatteryUovpStep(p, e);
    TermBallots(q, e, TIMEOUT_VOTER);
    RechargeBallots(TermCurrentStep(q, e), e, TIMEOUT_VOTER);
  }

  /** Another module withdraws the timeout vote. */
  predicate Lifts(ev: Event)
  {
    ev.Outside? && ev.op.Vote? && ev.op.name == TIMEOUT_VOTER && !ev.op.enabled
  }

  lemma HeartbeatKeepsTimeout(p: Policy, e: Env)
    requires Sound(p) && On(p.out, TIMEOUT_VOTER)
    ensures Sound(HeartbeatStep(p, e)) && On(HeartbeatStep(p, e).out, TIMEOUT_VOTER)
  {
    if Active(e) {
      VotedBallot(p.out, TIMEOUT_VOTER, true, e, TIMEOUT_VOTER);
      TailKeepsTimeout(TimeoutStep(p, e), e);
    }
  }

  lemma StepKeepsTimeout(p: Policy, ev: Event)
    requires Sound(p) && CanHappen(p, ev) && On(p.out, TIMEOUT_VOTER)
    ensures Sound(Step(p, ev)) && (On(Step(p, ev).out, TIMEOUT_VOTER) <==> !Lifts(ev))
  {
    match ev
    case Heartbeat(e) => HeartbeatKeepsTimeout(p, e);
    case FfcDone(e) => VotedBallot(p.out, USER_VOTER, true, e, TIMEOUT_VOTER);
    case FfcExit(e) => VotedBallot(p.out, USER_VOTER, false, e, TIMEOUT_VOTER);
    case Reset(e) => ResetWithdraws(p, e, TIMEOUT_VOTER);
    case Outside(op) => OutsideKeepsIff(p.out, op, TIMEOUT_VOTER);
  }

  /** Main theorem: a timeout is for good. Neither the policy nor the receiver's reset,
      which lowers the flag, ever withdraws the timeout vote, so over every run the output
      stays disabled unless another module votes as TIMEOUT_VOTER. */
  lemma {:induction false} TimeoutIsForGood(p: Policy, evs: seq<Event>)
    requires Sound(p) && Possible(p, evs) && On(p.out, TIMEOUT_VOTER)
    requires forall k :: 0 <= k < |evs| ==> !Lifts(evs[k])
    ensures Sound(Run(p, evs)) && Run(p, evs).out.effectiveResult == 1
    decreases evs
  {
    if evs == [] {
      OnDisables(p, TIMEOUT_VOTER);
    } else {
      StepKeepsTimeout(p, evs[0]);
      TimeoutIsForGood(Step(p, evs[0]), evs[1..]);
    }
  }
}
