/** What holds of a votable over whole runs: the cache always equals a fresh
    election, the callback always knows the visible value, and neither override,
    force nor rerun disturbs the election. */
module VoterRuns {
  import opened Kernel
  import opened Voter

  /** One call on a votable, with what its environment answers: whether the slot
      name could be allocated and what the callback returned. */
  datatype Op =
    | Vote(name: string, enabled: bool, val: Int32, step: bool, allocOk: bool, rc: Int32)
    | Override(client: string, enabled: bool, val: Int32, step: bool, rc: Int32)
    | Rerun(step: bool, rc: Int32)
    | Force(on: bool, rc: Int32)
    | SetForceVal(v: UInt32)
    | Query(name: string, allocOk: bool)

  /** The override entry point dereferences the callback unless forcing is on. */
  predicate CanApply(s: State, op: Op)
  {
    WellFormed(s) && (op.Override? ==> s.hasCallback || s.forceActive)
  }

  function Apply(s: State, op: Op): (s': State)
    requires CanApply(s, op)
    ensures WellFormed(s') && s'.kind == s.kind && s'.hasCallback == s.hasCallback
  {
    match op
    case Vote(name, enabled, val, step, allocOk, rc) => VoteStep(s, name, enabled, val, step, allocOk, rc).0
    case Override(client, enabled, val, step, rc) => OverrideStep(s, client, enabled, val, step, rc).0
    case Rerun(step, rc) => RerunStep(s, step, rc).0
    case Force(on, rc) => ForceStep(s, on, rc).0
    case SetForceVal(v) => s.(forceVal := v)
    case Query(name, allocOk) => QueryStep(s, name, allocOk)
  }

  predicate Runnable(s: State, ops: seq<Op>)
    decreases ops
  {
    ops == [] || (CanApply(s, ops[0]) && Runnable(Apply(s, ops[0]), ops[1..]))
  }

  function Run(s: State, ops: seq<Op>): State
    requires Runnable(s, ops)
    decreases ops
  {
    if ops == [] then s else Run(Apply(s, ops[0]), ops[1..])
  }

  // ------------------------------------------- the election's part of a state

  /** The election's own part of the state. */
  datatype Core = Core(kind: Kind, clients: seq<Option<string>>, votes: seq<Ballot>,
                       effectiveId: Int32, effectiveResult: Int32, votedOn: bool)

  function CoreOf(s: State): Core
  {
    Core(s.kind, s.clients, s.votes, s.effectiveId, s.effectiveResult, s.votedOn)
  }

  lemma LayerKeepsCore(s: State, op: Op)
    requires CanApply(s, op) && !op.Vote? && !op.Query?
    ensures CoreOf(Apply(s, op)) == CoreOf(s)
  {
  }

  // ----------------------------------------------- the cache is an election

  ghost predicate Distinct(clients: seq<Option<string>>)
  {
    forall i, j :: 0 <= i < j < |clients| && clients[i].Some? ==> clients[i] != clients[j]
  }

  /** The cached result is what a fresh election over all current votes yields. */
  ghost predicate CacheIsElection(s: State)
    requires WellFormed(s)
  {
    IsResult(s.kind, EnabledValues(s.votes), s.effectiveResult)
  }

  ghost predicate Inv(s: State)
  {
    TableOk(s) && CacheIsElection(s)
  }

  /** Occupied slots are a prefix of distinct names, and empty slots abstain. */
  ghost predicate TableOk(s: State)
  {
    && WellFormed(s)
    && Distinct(s.clients)
    && (forall i :: 0 <= i < NUM_MAX_CLIENTS && s.clients[i].None? ==> s.votes[i] == ABSTAIN)
  }

  lemma CreatedInv(kind: Kind, hasCallback: bool)
    ensures Inv(Created(kind, hasCallback))
  {
    var s := Created(kind, hasCallback);
    OccupiedIs(s.clients, 0);
    assert EnabledValues(s.votes) == {};
  }

  lemma LookupKeepsInv(s: State, name: string, allocOk: bool)
    requires Inv(s)
    ensures Inv(QueryStep(s, name, allocOk))
  {
    OccupiedGrows(s.clients, name, allocOk);
  }

  /** Empty slots never vote, so electing over the occupied prefix is electing over all. */
  lemma PrefixSuffices(s: State)
    requires TableOk(s)
    ensures EnabledValues(s.votes[..Occupied(s.clients)]) == EnabledValues(s.votes)
  {
    var n := Occupied(s.clients);
    forall v | v in EnabledValues(s.votes) ensures v in EnabledValues(s.votes[..n]) {
      var i :| 0 <= i < |s.votes| && s.votes[i].enabled && s.votes[i].value == v;
      assert s.votes[..n][i] == s.votes[i];
    }
    forall v | v in EnabledValues(s.votes[..n]) ensures v in EnabledValues(s.votes) {
      var i :| 0 <= i < n && s.votes[..n][i].enabled && s.votes[..n][i].value == v;
      assert s.votes[i].enabled;
    }
  }

  lemma SettleKeepsInv(s: State, voter: Int32, step: bool, rc: Int32)
    requires TableOk(s) && 0 <= voter < Occupied(s.clients)
    ensures Inv(SettleStep(s, voter, step, rc).0)
  {
    PrefixSuffices(s);
    ElectIsResult(s.kind, s.votes[..Occupied(s.clients)], voter);
  }

  /** Storing a ballot in the slot a lookup gave. */
  ghost function Cast(s: State, name: string, ballot: Ballot, allocOk: bool): State
    requires WellFormed(s) && GetClientId(s.clients, name, allocOk).id >= 0
  {
    var l := GetClientId(s.clients, name, allocOk);
    s.(clients := l.clients, votes := s.votes[l.id := ballot])
  }

  lemma CastKeepsTable(s: State, name: string, ballot: Ballot, allocOk: bool)
    requires TableOk(s) && GetClientId(s.clients, name, allocOk).id >= 0
    ensures TableOk(Cast(s, name, ballot, allocOk))
    ensures GetClientId(s.clients, name, allocOk).id < Occupied(Cast(s, name, ballot, allocOk).clients)
  {
    OccupiedGrows(s.clients, name, allocOk);
  }

  lemma VoteKeepsInv(s: State, name: string, enabled: bool, val: Int32, step: bool, allocOk: bool, rc: Int32)
    requires Inv(s)
    ensures Inv(VoteStep(s, name, enabled, val, step, allocOk, rc).0)
  {
    var l := GetClientId(s.clients, name, allocOk);
    if l.id >= 0 {
      var ballot := CastBallot(s.kind, enabled, val);
      var s1 := Cast(s, name, ballot, allocOk);
      CastKeepsTable(s, name, ballot, allocOk);
      if s.votes[l.id] == ballot && s.votedOn {
        assert s1.votes == s.votes;
      } else {
        SettleKeepsInv(s1, l.id, step, rc);
      }
    }
  }

  /** The invariant speaks of the election's own part alone. */
  lemma InvOfCore(s: State, t: State)
    requires Inv(s) && CoreOf(s) == CoreOf(t)
    ensures Inv(t)
  {
  }

  lemma ApplyKeepsSlots(s: State, op: Op, i: nat)
    requires CanApply(s, op) && i < NUM_MAX_CLIENTS && s.clients[i].Some?
    ensures Apply(s, op).clients[i] == s.clients[i]
  {
    if !op.Vote? && !op.Query? {
      LayerKeepsCore(s, op);
    }
  }

  lemma ApplyKeepsInv(s: State, op: Op)
    requires Inv(s) && CanApply(s, op)
    ensures Inv(Apply(s, op))
    ensures forall i :: 0 <= i < NUM_MAX_CLIENTS && s.clients[i].Some? ==> Apply(s, op).clients[i] == s.clients[i]
  {
    forall i | 0 <= i < NUM_MAX_CLIENTS && s.clients[i].Some? ensures Apply(s, op).clients[i] == s.clients[i] {
      ApplyKeepsSlots(s, op, i);
    }
    match op
    case Vote(name, enabled, val, step, allocOk, rc) => VoteKeepsInv(s, name, enabled, val, step, allocOk, rc);
    case Query(name, allocOk) => LookupKeepsInv(s, name, allocOk);
    case _ =>
      LayerKeepsCore(s, op);
      InvOfCore(s, Apply(s, op));
  }

  /** Main invariant: after any run the occupied slots are a prefix of distinct
      names, a name never leaves its slot, and the cache equals a fresh election. */
  lemma {:induction false} RunKeepsInv(s: State, ops: seq<Op>)
    requires Inv(s) && Runnable(s, ops)
    ensures Inv(Run(s, ops))
    ensures forall i :: 0 <= i < NUM_MAX_CLIENTS && s.clients[i].Some? ==> Run(s, ops).clients[i] == s.clients[i]
    decreases ops
  {
    if ops != [] {
      ApplyKeepsInv(s, ops[0]);
      RunKeepsInv(Apply(s, ops[0]), ops[1..]);
    }
  }

  lemma {:induction false} RunKeepsKind(s: State, ops: seq<Op>)
    requires Runnable(s, ops)
    ensures Run(s, ops).kind == s.kind
    decreases ops
  {
    if ops != [] {
      RunKeepsKind(Apply(s, ops[0]), ops[1..]);
    }
  }

  // ---------------------------------------------- what a call does to a ballot

  /** The ballot a name has on file. */
  ghost function BallotOf(s: State, name: string): Ballot
    requires WellFormed(s)
  {
    var i := SlotOf(s.clients, name);
    if i < NUM_MAX_CLIENTS then s.votes[i] else ABSTAIN
  }

  /** An accepted vote leaves its ballot in its slot, whatever the election says. */
  lemma VoteStoresBallot(s: State, name: string, enabled: bool, val: Int32, step: bool, allocOk: bool, rc: Int32)
    requires TableOk(s) && GetClientId(s.clients, name, allocOk).id >= 0
    ensures var s' := VoteStep(s, name, enabled, val, step, allocOk, rc).0;
            var c := Cast(s, name, CastBallot(s.kind, enabled, val), allocOk);
            s'.clients == c.clients && s'.votes == c.votes
  {
    CastKeepsTable(s, name, CastBallot(s.kind, enabled, val), allocOk);
  }

  lemma UniqueSlot(s: State, i: nat, name: string)
    requires Inv(s) && i < NUM_MAX_CLIENTS && s.clients[i] == Some(name)
    ensures SlotOf(s.clients, name) == i
  {
  }

  /** A call leaves every slot's ballot alone except that of the name it votes under. */
  lemma OthersKeepSlot(s: State, op: Op, i: nat)
    requires Inv(s) && CanApply(s, op) && i < NUM_MAX_CLIENTS
    requires op.Vote? ==> Apply(s, op).clients[i] != Some(op.name)
    ensures Apply(s, op).votes[i] == s.votes[i]
  {
    if op.Vote? {
      if GetClientId(s.clients, op.name, op.allocOk).id >= 0 {
        VoteStoresBallot(s, op.name, op.enabled, op.val, op.step, op.allocOk, op.rc);
      }
    } else if !op.Query? {
      LayerKeepsCore(s, op);
    }
  }

  /** A call under another name, or none, leaves a client's ballot alone, whether or not
      the client has a slot yet. */
  lemma OthersKeepBallot(s: State, op: Op, who: string)
    requires Inv(s) && CanApply(s, op) && !(op.Vote? && op.name == who)
    ensures BallotOf(Apply(s, op), who) == BallotOf(s, who)
  {
    ApplyKeepsInv(s, op);
    var s' := Apply(s, op);
    var i, j := SlotOf(s.clients, who), SlotOf(s'.clients, who);
    if i < NUM_MAX_CLIENTS {
      UniqueSlot(s', i, who);
      OthersKeepSlot(s, op, i);
    } else if j < NUM_MAX_CLIENTS {
      OthersKeepSlot(s, op, j);
      assert s.clients[j].None?;
    }
  }

  /** A client's own vote sets its ballot exactly when it gets a slot. */
  lemma OwnVoteSetsBallot(s: State, op: Op)
    requires Inv(s) && CanApply(s, op) && op.Vote?
    ensures BallotOf(Apply(s, op), op.name) ==
            if GetClientId(s.clients, op.name, op.allocOk).id >= 0
            then CastBallot(s.kind, op.enabled, op.val)
            else BallotOf(s, op.name)
  {
    var id := GetClientId(s.clients, op.name, op.allocOk).id;
    if id >= 0 {
      ApplyKeepsInv(s, op);
      VoteStoresBallot(s, op.name, op.enabled, op.val, op.step, op.allocOk, op.rc);
      UniqueSlot(Apply(s, op), id, op.name);
    }
  }

  /** The slot a lookup returns holds the name's ballot. */
  lemma LookupFindsBallot(s: State, name: string, allocOk: bool)
    requires Inv(s) && GetClientId(s.clients, name, allocOk).id >= 0
    ensures s.votes[GetClientId(s.clients, name, allocOk).id] == BallotOf(s, name)
  {
    OccupiedGrows(s.clients, name, allocOk);
  }

  // -------------------------------------------------------- who has a slot

  ghost function NamesIn(clients: seq<Option<string>>): set<string>
  {
    set i | 0 <= i < |clients| && clients[i].Some? :: clients[i].value
  }

  ghost function Registered(s: State): set<string>
  {
    NamesIn(s.clients)
  }

  lemma {:induction false} DistinctNamesCount(clients: seq<Option<string>>, n: nat)
    requires n <= |clients| && Distinct(clients)
    requires forall i :: 0 <= i < n ==> clients[i].Some?
    ensures |set i | 0 <= i < n :: clients[i].value| == n
  {
    var names := set i | 0 <= i < n :: clients[i].value;
    if n == 0 {
      assert names == {};
    } else {
      DistinctNamesCount(clients, n - 1);
      var fewer := set i | 0 <= i < n - 1 :: clients[i].value;
      assert names == fewer + {clients[n - 1].value};
      assert clients[n - 1].value !in fewer;
    }
  }

  /** There are as many registered names as occupied slots. */
  lemma RegisteredCount(s: State)
    requires Inv(s)
    ensures |Registered(s)| == Occupied(s.clients)
  {
    var n := Occupied(s.clients);
    DistinctNamesCount(s.clients, n);
    assert Registered(s) == set i | 0 <= i < n :: s.clients[i].value;
  }

  lemma RegisteredIff(s: State, name: string)
    requires WellFormed(s)
    ensures name in Registered(s) <==> SlotOf(s.clients, name) < NUM_MAX_CLIENTS
  {
    var i := SlotOf(s.clients, name);
    if i < NUM_MAX_CLIENTS {
      assert s.clients[i].value in Registered(s);
    }
  }

  /** A name gets a slot if it has one, or if one is free and can be allocated. */
  predicate Admits(known: set<string>, name: string, allocOk: bool)
  {
    name in known || (allocOk && |known| < NUM_MAX_CLIENTS)
  }

  lemma AdmitsIff(s: State, name: string, allocOk: bool)
    requires Inv(s)
    ensures GetClientId(s.clients, name, allocOk).id >= 0 <==> Admits(Registered(s), name, allocOk)
  {
    RegisteredCount(s);
    RegisteredIff(s, name);
  }

  /** A vote that gets no slot changes nothing and says why. */
  lemma RefusedVote(s: State, name: string, enabled: bool, val: Int32, step: bool, allocOk: bool, rc: Int32)
    requires Inv(s) && !Admits(Registered(s), name, allocOk)
    ensures VoteStep(s, name, enabled, val, step, allocOk, rc) ==
            (s, if |Registered(s)| == NUM_MAX_CLIENTS then MINUS_EINVAL else MINUS_ENOMEM)
  {
    AdmitsIff(s, name, allocOk);
    RegisteredCount(s);
  }

  /** The names that have a slot after a call, given those that had one before it. */
  function KnownAfter(known: set<string>, op: Op): set<string>
  {
    if (op.Vote? || op.Query?) && Admits(known, op.name, op.allocOk) then known + {op.name} else known
  }

  /** Filling the slot of a name, or an empty slot with a new name, registers that name. */
  lemma NamesWith(clients: seq<Option<string>>, i: nat, name: string)
    requires i < |clients| && (clients[i].None? || clients[i] == Some(name))
    ensures NamesIn(clients[i := Some(name)]) == NamesIn(clients) + {name}
  {
    var more := clients[i := Some(name)];
    assert more[i].value in NamesIn(more);
    forall x | x in NamesIn(clients) ensures x in NamesIn(more) {
      var k :| 0 <= k < |clients| && clients[k].Some? && clients[k].value == x;
      assert more[k] == clients[k];
    }
    forall x | x in NamesIn(more) ensures x in NamesIn(clients) + {name} {
      var k :| 0 <= k < |more| && more[k].Some? && more[k].value == x;
      assert k != i ==> clients[k] == more[k];
    }
  }

  /** What a successful lookup does to the table. */
  lemma LookupFills(clients: seq<Option<string>>, name: string, allocOk: bool)
    requires |clients| <= NUM_MAX_CLIENTS && GetClientId(clients, name, allocOk).id >= 0
    ensures var l := GetClientId(clients, name, allocOk);
            && (clients[l.id].None? || clients[l.id] == Some(name))
            && l.clients == clients[l.id := Some(name)]
  {
  }

  lemma LookupRegisters(s: State, name: string, allocOk: bool)
    requires Inv(s)
    ensures Registered(QueryStep(s, name, allocOk)) ==
            if Admits(Registered(s), name, allocOk) then Registered(s) + {name} else Registered(s)
  {
    AdmitsIff(s, name, allocOk);
    var l := GetClientId(s.clients, name, allocOk);
    if l.id >= 0 {
      LookupFills(s.clients, name, allocOk);
      NamesWith(s.clients, l.id, name);
    }
  }

  lemma ApplyRegisters(s: State, op: Op)
    requires Inv(s) && CanApply(s, op)
    ensures Registered(Apply(s, op)) == KnownAfter(Registered(s), op)
  {
    if op.Vote? {
      LookupRegisters(s, op.name, op.allocOk);
      if GetClientId(s.clients, op.name, op.allocOk).id >= 0 {
        VoteStoresBallot(s, op.name, op.enabled, op.val, op.step, op.allocOk, op.rc);
      }
    } else if op.Query? {
      LookupRegisters(s, op.name, op.allocOk);
    } else {
      LayerKeepsCore(s, op);
    }
  }

  // ------------------------------------- only the last accepted votes matter

  /** The vote of `who` that a call casts, if it is one and gets a slot. */
  function AcceptedVote(kind: Kind, known: set<string>, op: Op, who: string): Option<Ballot>
  {
    if op.Vote? && op.name == who && Admits(known, who, op.allocOk)
    then Some(CastBallot(kind, op.enabled, op.val))
    else None
  }

  /** The last vote of `who` that a run accepts, from the run alone: `known` are the
      names that have a slot before it. */
  function LastAccepted(kind: Kind, known: set<string>, ops: seq<Op>, who: string): Option<Ballot>
    decreases ops
  {
    if ops == [] then None
    else
      var later := LastAccepted(kind, KnownAfter(known, ops[0]), ops[1..], who);
      if later.Some? then later else AcceptedVote(kind, known, ops[0], who)
  }

  lemma ApplyBallot(s: State, op: Op, who: string)
    requires Inv(s) && CanApply(s, op)
    ensures var v := AcceptedVote(s.kind, Registered(s), op, who);
            BallotOf(Apply(s, op), who) == if v.Some? then v.value else BallotOf(s, who)
  {
    if op.Vote? && op.name == who {
      AdmitsIff(s, who, op.allocOk);
      OwnVoteSetsBallot(s, op);
    } else {
      OthersKeepBallot(s, op, who);
    }
  }

  /** Main theorem: what any run leaves on file for a client is its last accepted vote. */
  lemma {:induction false} RunBallots(s: State, ops: seq<Op>, who: string)
    requires Inv(s) && Runnable(s, ops)
    ensures WellFormed(Run(s, ops))
    ensures var last := LastAccepted(s.kind, Registered(s), ops, who);
            BallotOf(Run(s, ops), who) == if last.Some? then last.value else BallotOf(s, who)
    decreases ops
  {
    if ops != [] {
      ApplyBallot(s, ops[0], who);
      ApplyRegisters(s, ops[0]);
      ApplyKeepsInv(s, ops[0]);
      RunBallots(Apply(s, ops[0]), ops[1..], who);
    }
  }

  /** The names that have a slot after a run. */
  function KnownAfterAll(known: set<string>, ops: seq<Op>): set<string>
    decreases ops
  {
    if ops == [] then known else KnownAfterAll(KnownAfter(known, ops[0]), ops[1..])
  }

  lemma {:induction false} RunRegisters(s: State, ops: seq<Op>)
    requires Inv(s) && Runnable(s, ops)
    ensures Registered(Run(s, ops)) == KnownAfterAll(Registered(s), ops)
    decreases ops
  {
    if ops != [] {
      ApplyRegisters(s, ops[0]);
      ApplyKeepsInv(s, ops[0]);
      RunRegisters(Apply(s, ops[0]), ops[1..]);
    }
  }

  lemma CreatedKnowsNobody(kind: Kind, hasCallback: bool)
    ensures Inv(Created(kind, hasCallback)) && Registered(Created(kind, hasCallback)) == {}
    ensures forall who :: BallotOf(Created(kind, hasCallback), who) == ABSTAIN
  {
    CreatedInv(kind, hasCallback);
  }

  /** A SET_ANY client's accepted vote is on file as 1 or 0. */
  lemma {:induction false} SetAnyOnFile(known: set<string>, ops: seq<Op>, who: string)
    ensures var last := LastAccepted(SetAny, known, ops, who);
            last.Some? ==> last.value.value == if last.value.enabled then 1 else 0
    decreases ops
  {
    if ops != [] {
      SetAnyOnFile(KnownAfter(known, ops[0]), ops[1..], who);
    }
  }

  /** Main theorem: a client query answers with the last accepted vote of that client, as
      for an abstaining client when there is none, and with -EINVAL when the query itself
      gets no slot. */
  lemma QueryAnswersLastVote(kind: Kind, hasCallback: bool, ops: seq<Op>, who: string, allocOk: bool)
    requires Runnable(Created(kind, hasCallback), ops)
    ensures var s := Run(Created(kind, hasCallback), ops);
            var last := LastAccepted(kind, {}, ops, who);
            && WellFormed(s)
            && ClientVoteOf(s, who, allocOk) ==
               if !Admits(KnownAfterAll({}, ops), who, allocOk) then -22
               else if kind == SetAny then (if last.Some? && last.value.enabled then 1 else 0)
               else if last.Some? && last.value.enabled then last.value.value
               else -22
  {
    var s0 := Created(kind, hasCallback);
    CreatedKnowsNobody(kind, hasCallback);
    RunKeepsInv(s0, ops);
    RunKeepsKind(s0, ops);
    RunRegisters(s0, ops);
    RunBallots(s0, ops, who);
    var s := Run(s0, ops);
    AdmitsIff(s, who, allocOk);
    if GetClientId(s.clients, who, allocOk).id >= 0 {
      LookupFindsBallot(s, who, allocOk);
      SetAnyOnFile({}, ops, who);
    }
  }

  /** The part of a ballot that an election can see. */
  function Counted(b: Ballot): Option<int>
  {
    if b.enabled then Some(b.value) else None
  }

  function CountedLast(last: Option<Ballot>): Option<int>
  {
    if last.Some? then Counted(last.value) else None
  }

  lemma SameCountedValues(s: State, t: State)
    requires Inv(s) && Inv(t)
    requires forall name :: Counted(BallotOf(s, name)) == Counted(BallotOf(t, name))
    ensures EnabledValues(s.votes) <= EnabledValues(t.votes)
  {
    forall v | v in EnabledValues(s.votes) ensures v in EnabledValues(t.votes) {
      var i :| 0 <= i < |s.votes| && s.votes[i].enabled && s.votes[i].value == v;
      var name := s.clients[i].value;
      assert SlotOf(s.clients, name) == i;
      assert Counted(BallotOf(t, name)) == Some(v);
      var j := SlotOf(t.clients, name);
      assert t.votes[j].enabled && t.votes[j].value == v;
    }
  }

  /** Main theorem: two runs that leave every client with the same last accepted counted
      vote elect the same value, however their votes, queries and other calls were
      ordered, and whichever of them were refused. */
  lemma OnlyLastVotesMatter(kind: Kind, cb1: bool, cb2: bool, ops1: seq<Op>, ops2: seq<Op>)
    requires Runnable(Created(kind, cb1), ops1) && Runnable(Created(kind, cb2), ops2)
    requires forall who ::
               CountedLast(LastAccepted(kind, {}, ops1, who)) == CountedLast(LastAccepted(kind, {}, ops2, who))
    ensures Run(Created(kind, cb1), ops1).effectiveResult == Run(Created(kind, cb2), ops2).effectiveResult
  {
    var s, t := Created(kind, cb1), Created(kind, cb2);
    CreatedKnowsNobody(kind, cb1);
    CreatedKnowsNobody(kind, cb2);
    RunKeepsInv(s, ops1);
    RunKeepsInv(t, ops2);
    var s', t' := Run(s, ops1), Run(t, ops2);
    forall who ensures Counted(BallotOf(s', who)) == Counted(BallotOf(t', who)) {
      RunBallots(s, ops1, who);
      RunBallots(t, ops2, who);
    }
    RunKeepsKind(s, ops1);
    RunKeepsKind(t, ops2);
    SameCountedValues(s', t');
    SameCountedValues(t', s');
    ResultUnique(kind, EnabledValues(s'.votes), s'.effectiveResult, t'.effectiveResult);
  }

  // ------------------------------------------------ runs that refuse no vote

  /** The last vote a run casts for `name`, accepted or not. */
  function LastVote(kind: Kind, ops: seq<Op>, name: string): Option<Ballot>
  {
    if ops == [] then None
    else
      var later := LastVote(kind, ops[1..], name);
      if later.Some? then later
      else if ops[0].Vote? && ops[0].name == name then Some(CastBallot(kind, ops[0].enabled, ops[0].val))
      else None
  }

  function OpNames(op: Op): set<string>
  {
    if op.Vote? || op.Query? then {op.name} else {}
  }

  function Names(ops: seq<Op>): set<string>
  {
    if ops == [] then {} else OpNames(ops[0]) + Names(ops[1..])
  }

  /** No name of the run lacks a slot: allocation works and the names fit. */
  ghost predicate Fits(known: set<string>, ops: seq<Op>)
  {
    && |known + Names(ops)| <= NUM_MAX_CLIENTS
    && forall i :: 0 <= i < |ops| && (ops[i].Vote? || ops[i].Query?) ==> ops[i].allocOk
  }

  lemma CardinalityMonotone<T>(a: set<T>, b: set<T>)
    requires a <= b
    ensures |a| <= |b|
  {
    assert b == a + (b - a);
  }

  /** While the names fit, every name is admitted. */
  lemma LookupSucceeds(known: set<string>, name: string)
    requires |known + {name}| <= NUM_MAX_CLIENTS
    ensures Admits(known, name, true)
  {
    if name !in known {
      assert |known + {name}| == |known| + 1;
    }
  }

  /** Then the last accepted vote is simply the last vote, and everybody named gets a slot. */
  lemma {:induction false} FittingRunsRefuseNobody(kind: Kind, known: set<string>, ops: seq<Op>, who: string)
    requires Fits(known, ops)
    ensures LastAccepted(kind, known, ops, who) == LastVote(kind, ops, who)
    ensures KnownAfterAll(known, ops) == known + Names(ops)
    decreases ops
  {
    if ops != [] {
      FittingCallIsAdmitted(known, ops);
      FittingRunsRefuseNobody(kind, KnownAfter(known, ops[0]), ops[1..], who);
    }
  }

  lemma FittingCallIsAdmitted(known: set<string>, ops: seq<Op>)
    requires ops != [] && Fits(known, ops)
    ensures ops[0].Vote? || ops[0].Query? ==> Admits(known, ops[0].name, ops[0].allocOk)
    ensures var next := KnownAfter(known, ops[0]);
            next + Names(ops[1..]) == known + Names(ops) && Fits(next, ops[1..])
  {
    if ops[0].Vote? || ops[0].Query? {
      CardinalityMonotone(known + {ops[0].name}, known + Names(ops));
      LookupSucceeds(known, ops[0].name);
    }
    assert KnownAfter(known, ops[0]) + Names(ops[1..]) == known + Names(ops);
  }

  lemma FittingRunBallots(s: State, ops: seq<Op>, who: string)
    requires Inv(s) && Runnable(s, ops) && Fits(Registered(s), ops)
    ensures WellFormed(Run(s, ops))
    ensures var last := LastVote(s.kind, ops, who);
            BallotOf(Run(s, ops), who) == if last.Some? then last.value else BallotOf(s, who)
    ensures Registered(Run(s, ops)) == Registered(s) + Names(ops)
  {
    RunBallots(s, ops, who);
    RunRegisters(s, ops);
    FittingRunsRefuseNobody(s.kind, Registered(s), ops, who);
  }

  lemma FittingQueryAnswers(kind: Kind, hasCallback: bool, ops: seq<Op>, who: string)
    requires Runnable(Created(kind, hasCallback), ops) && Fits({}, ops)
    requires |Names(ops) + {who}| <= NUM_MAX_CLIENTS
    ensures var s := Run(Created(kind, hasCallback), ops);
            var last := LastVote(kind, ops, who);
            && WellFormed(s)
            && ClientVoteOf(s, who, true) ==
               if kind == SetAny then (if last.Some? && last.value.enabled then 1 else 0)
               else if last.Some? && last.value.enabled then last.value.value
               else -22
  {
    QueryAnswersLastVote(kind, hasCallback, ops, who, true);
    FittingRunsRefuseNobody(kind, {}, ops, who);
    assert {} + Names(ops) == Names(ops);
    LookupSucceeds(Names(ops), who);
  }

  /** So for runs that fit, order does not matter at all. */
  lemma FittingVotesMatter(kind: Kind, cb1: bool, cb2: bool, ops1: seq<Op>, ops2: seq<Op>)
    requires Runnable(Created(kind, cb1), ops1) && Runnable(Created(kind, cb2), ops2)
    requires Fits({}, ops1) && Fits({}, ops2)
    requires forall who :: CountedLast(LastVote(kind, ops1, who)) == CountedLast(LastVote(kind, ops2, who))
    ensures Run(Created(kind, cb1), ops1).effectiveResult == Run(Created(kind, cb2), ops2).effectiveResult
  {
    forall who
      ensures CountedLast(LastAccepted(kind, {}, ops1, who)) == CountedLast(LastAccepted(kind, {}, ops2, who))
    {
      FittingRunsRefuseNobody(kind, {}, ops1, who);
      FittingRunsRefuseNobody(kind, {}, ops2, who);
    }
    OnlyLastVotesMatter(kind, cb1, cb2, ops1, ops2);
  }

  // -------------------------------------- the callback tracks what is visible

  /** If the callback was ever called, it last heard the visible value. */
  ghost predicate Tracks(s: State)
  {
    s.calls != [] ==> s.calls[|s.calls| - 1].value == Visible(s)
  }

  /** The calls that keep the callback informed: an override that succeeds with a
      value other than -EINVAL (or fails on the value already visible), and a
      force value changed only while forcing is off. */
  predicate Benign(s: State, op: Op)
  {
    match op
    case Override(_, enabled, val, _, rc) =>
      || s.forceActive
      || !enabled
      || (if rc == 0 then val != MINUS_EINVAL || s.effectiveResult == MINUS_EINVAL else val == Visible(s))
    case SetForceVal(v) => !s.forceActive || v == s.forceVal
    case _ => true
  }

  lemma SettleTracks(s: State, voter: Int32, step: bool, rc: Int32)
    requires WellFormed(s) && 0 <= voter < Occupied(s.clients) && s.hasCallback && Tracks(s)
    ensures Tracks(SettleStep(s, voter, step, rc).0)
  {
  }

  lemma VoteTracks(s: State, name: string, enabled: bool, val: Int32, step: bool, allocOk: bool, rc: Int32)
    requires WellFormed(s) && s.hasCallback && Tracks(s)
    ensures Tracks(VoteStep(s, name, enabled, val, step, allocOk, rc).0)
  {
    OccupiedGrows(s.clients, name, allocOk);
    var l := GetClientId(s.clients, name, allocOk);
    if l.id >= 0 {
      SettleTracks(Cast(s, name, CastBallot(s.kind, enabled, val), allocOk), l.id, step, rc);
    }
  }

  lemma OverrideTracksIff(s: State, op: Op)
    requires CanApply(s, op) && op.Override? && s.hasCallback && Tracks(s)
    ensures if Benign(s, op) then Tracks(Apply(s, op)) else s.calls != [] ==> !Tracks(Apply(s, op))
  {
  }

  lemma AnnouncingTracks(s: State, op: Op)
    requires CanApply(s, op) && (op.Rerun? || op.Force?) && s.hasCallback
    ensures Tracks(Apply(s, op))
  {
  }

  lemma ForceValTracksIff(s: State, v: UInt32)
    requires Tracks(s)
    ensures var s' := s.(forceVal := v);
            if !s.forceActive || v == s.forceVal then Tracks(s') else s.calls != [] ==> !Tracks(s')
  {
  }

  lemma ApplyTracks(s: State, op: Op)
    requires CanApply(s, op) && s.hasCallback && Tracks(s) && Benign(s, op)
    ensures Tracks(Apply(s, op))
  {
    match op
    case Vote(name, enabled, val, step, allocOk, rc) => VoteTracks(s, name, enabled, val, step, allocOk, rc);
    case Override(_, _, _, _, _) => OverrideTracksIff(s, op);
    case Query(_, _) =>
    case SetForceVal(v) => ForceValTracksIff(s, v);
    case _ => AnnouncingTracks(s, op);
  }

  /** A single call keeps the callback informed exactly when it is benign. */
  lemma ApplyTracksIff(s: State, op: Op)
    requires CanApply(s, op) && s.hasCallback && Tracks(s) && s.calls != []
    ensures Tracks(Apply(s, op)) <==> Benign(s, op)
  {
    if Benign(s, op) {
      ApplyTracks(s, op);
    } else if op.Override? {
      OverrideTracksIff(s, op);
    } else {
      ForceValTracksIff(s, op.v);
    }
  }

  ghost predicate AlwaysBenign(s: State, ops: seq<Op>)
    requires Runnable(s, ops)
    decreases ops
  {
    ops == [] || (Benign(s, ops[0]) && AlwaysBenign(Apply(s, ops[0]), ops[1..]))
  }

  /** Main theorem: after any run of benign calls, in any order, the last value
      passed to the callback is the value the votable reports. */
  lemma {:induction false} CallbackTracksVisible(s: State, ops: seq<Op>)
    requires Runnable(s, ops) && AlwaysBenign(s, ops) && s.hasCallback && Tracks(s)
    ensures Tracks(Run(s, ops))
    decreases ops
  {
    if ops != [] {
      ApplyTracks(s, ops[0]);
      CallbackTracksVisible(Apply(s, ops[0]), ops[1..]);
    }
  }

  /** A vote reaches the callback exactly when it is accepted, nothing covers the
      election, and it is the first vote or changes the result. */
  lemma VoteAnnouncesChanges(s: State, name: string, enabled: bool, val: Int32, step: bool, allocOk: bool, rc: Int32)
    requires Inv(s)
    ensures var (s', _) := VoteStep(s, name, enabled, val, step, allocOk, rc);
            s'.calls != s.calls <==>
            && s.hasCallback && !s.forceActive && s.overrideResult == MINUS_EINVAL
            && GetClientId(s.clients, name, allocOk).id >= 0
            && (!s.votedOn || s'.effectiveResult != s.effectiveResult)
  {
    OccupiedGrows(s.clients, name, allocOk);
  }

  /** The extreme from which an election starts. */
  function Sentinel(kind: Kind): int
  {
    if kind == Min then INT_MAX else INT_MIN
  }

  /** What an accepted vote leaves on file: SET_ANY keeps only whether it was enabled. */
  lemma VoteOnFile(s: State, name: string, enabled: bool, val: Int32, step: bool, allocOk: bool, rc: Int32)
    requires Inv(s) && Admits(Registered(s), name, allocOk)
    ensures var s' := VoteStep(s, name, enabled, val, step, allocOk, rc).0;
            var b := BallotOf(s', name);
            && b.enabled == enabled
            && (s.kind == SetAny ==> b.value == if enabled then 1 else 0)
            && (s.kind != SetAny ==> b.value == val)
  {
    ApplyBallot(s, Vote(name, enabled, val, step, allocOk, rc), name);
  }

  /** Whom an election names to the callback: the voter itself for SET_ANY, else a holder
      of the winning vote, or nobody when nothing but the sentinel is enabled. */
  ghost predicate NamesWinner(s: State, voter: string, client: Option<string>)
    requires WellFormed(s)
  {
    if s.kind == SetAny then client == Some(voter)
    else if client.None? then EnabledValues(s.votes) <= {Sentinel(s.kind)}
    else BallotOf(s, client.value) == Ballot(true, s.effectiveResult)
  }

  lemma SettleAnnounces(s: State, id: nat, name: string, step: bool, rc: Int32)
    requires TableOk(s) && id < Occupied(s.clients) && s.clients[id] == Some(name)
    requires s.hasCallback && !s.forceActive && s.overrideResult == MINUS_EINVAL
    ensures var (s', r) := SettleStep(s, id, step, rc);
            if s.votedOn && s'.effectiveResult == s.effectiveResult then r == 0 && s'.calls == s.calls
            else
              var client := ClientStr(s'.clients, s'.effectiveId);
              && r == rc && s'.calls == s.calls + [Call(s'.effectiveResult, client, step)]
              && NamesWinner(s', name, client)
  {
    var s' := SettleStep(s, id, step, rc).0;
    PrefixSuffices(s);
    if s.kind != SetAny {
      ElectNamesFirstWinner(s.kind, s.votes[..Occupied(s.clients)], id);
      SettleKeepsInv(s, id, step, rc);
      if s'.effectiveId != MINUS_EINVAL {
        UniqueSlot(s', s'.effectiveId, s'.clients[s'.effectiveId].value);
      }
    }
  }

  /** Main theorem: what an accepted vote returns and tells the callback. If nothing covers
      the election and it is the first vote or changes the result, the callback hears the
      new result, the winner's name and the vote's step flag once, and its answer is
      returned; otherwise it hears nothing and 0 is returned. */
  lemma AcceptedVoteAnnounces(s: State, name: string, enabled: bool, val: Int32, step: bool, allocOk: bool, rc: Int32)
    requires Inv(s) && Admits(Registered(s), name, allocOk)
    ensures var (s', r) := VoteStep(s, name, enabled, val, step, allocOk, rc);
            var heard := s.hasCallback && !s.forceActive && s.overrideResult == MINUS_EINVAL
                         && (!s.votedOn || s'.effectiveResult != s.effectiveResult);
            if !heard then r == 0 && s'.calls == s.calls
            else
              && |s'.calls| == |s.calls| + 1 && s'.calls[..|s.calls|] == s.calls && r == rc
              && var call := s'.calls[|s.calls|];
                 call.value == s'.effectiveResult && call.step == step && NamesWinner(s', name, call.client)
  {
    AdmitsIff(s, name, allocOk);
    VoteAnnouncesChanges(s, name, enabled, val, step, allocOk, rc);
    var l := GetClientId(s.clients, name, allocOk);
    var ballot := CastBallot(s.kind, enabled, val);
    CastKeepsTable(s, name, ballot, allocOk);
    if s.hasCallback && !s.forceActive && s.overrideResult == MINUS_EINVAL
       && !(s.votes[l.id] == ballot && s.votedOn) {
      SettleAnnounces(Cast(s, name, ballot, allocOk), l.id, name, step, rc);
    }
  }

  /** An override while forcing is on is heard by nobody and shows at once to nobody; it
      shows, and the callback hears it, when forcing ends: under the name of whoever made
      the override before, since the call does not record its own. */
  lemma OverrideUnderForce(s: State, client: string, enabled: bool, val: Int32, step: bool, rc: Int32, rc2: Int32)
    requires WellFormed(s) && s.forceActive
    ensures var (s1, r) := OverrideStep(s, client, enabled, val, step, rc);
            var (s2, r2) := ForceStep(s1, false, rc2);
            var shown := if enabled && val != -22 then val else s.effectiveResult;
            && r == 0 && s1.calls == s.calls && Visible(s1) == Visible(s)
            && Visible(s2) == shown
            && (s.hasCallback ==>
                  && r2 == rc2 && |s2.calls| == |s.calls| + 1
                  && s2.calls[|s.calls|].value == shown && !s2.calls[|s.calls|].step
                  && (enabled && val != -22 ==> s2.calls[|s.calls|].client == s.overrideClient))
  {
  }

  /** An override otherwise: the callback decides whether it takes effect; lifting it shows
      the election again, whatever the callback answers. */
  lemma OverrideShows(s: State, client: string, enabled: bool, val: Int32, step: bool, rc: Int32)
    requires WellFormed(s) && s.hasCallback && !s.forceActive
    ensures var (s', r) := OverrideStep(s, client, enabled, val, step, rc);
            && r == rc && |s'.calls| == |s.calls| + 1 && s'.calls[..|s.calls|] == s.calls
            && var call := s'.calls[|s.calls|];
               && call.step == step
               && (enabled ==>
                     && call.value == val && call.client == Some(client)
                     && Visible(s') == if rc != 0 then Visible(s) else if val == -22 then s.effectiveResult else val)
               && (!enabled ==> call.value == s.effectiveResult == Visible(s'))
  {
  }

  /** A rerun repeats what is visible, under the name of the cached election's client. */
  lemma RerunRepeats(s: State, step: bool, rc: Int32)
    requires WellFormed(s)
    ensures var (s', r) := RerunStep(s, step, rc);
            && Visible(s') == Visible(s)
            && (!s.hasCallback ==> r == 0 && s' == s)
            && (s.hasCallback ==>
                  && r == rc && |s'.calls| == |s.calls| + 1 && s'.calls[..|s.calls|] == s.calls
                  && var call := s'.calls[|s.calls|];
                     && call.value == Visible(s) && call.step == step
                     && call.client == if s.effectiveId == -22 then None else s.clients[s.effectiveId])
  {
  }

  /** Forcing and its end are invisible afterwards: an override in force before is in force
      again, and the callback hears the forced value and then the override's value under the
      name that made it. */
  lemma OverrideOutlivesForce(s: State, client: string, val: Int32, step: bool, rc1: Int32, rc2: Int32)
    requires WellFormed(s) && s.hasCallback && !s.forceActive && val != -22
    ensures var s1 := OverrideStep(s, client, true, val, step, 0).0;
            var (s2, r2) := ForceStep(s1, true, rc1);
            var (s3, r3) := ForceStep(s2, false, rc2);
            && Visible(s1) == val && Visible(s2) == ToInt32(s.forceVal) && Visible(s3) == val
            && r2 == rc1 && r3 == rc2
            && s3.calls == s1.calls + [Call(ToInt32(s.forceVal), Some("DEBUG_FORCE_CLIENT"), false),
                                       Call(val, Some(client), false)]
  {
  }

  // ---------------------------------- override and force leave the election be

  /** The run without its override, force, force-value and rerun calls. */
  function Erase(ops: seq<Op>): seq<Op>
  {
    if ops == [] then []
    else if ops[0].Vote? || ops[0].Query? then [ops[0]] + Erase(ops[1..])
    else Erase(ops[1..])
  }

  /** The election alone, as if no override, force or callback existed. */
  ghost function CoreSettle(c: Core, voter: Int32): Core
    requires |c.votes| == NUM_MAX_CLIENTS && 0 <= voter < Occupied(c.clients) <= NUM_MAX_CLIENTS
  {
    var o := Elect(c.kind, c.votes[..Occupied(c.clients)], voter);
    if c.votedOn && o.result == c.effectiveResult then c
    else c.(effectiveId := o.id, effectiveResult := o.result, votedOn := true)
  }

  lemma SettleIsCoreSettle(s: State, voter: Int32, step: bool, rc: Int32)
    requires WellFormed(s) && 0 <= voter < Occupied(s.clients)
    ensures CoreOf(SettleStep(s, voter, step, rc).0) == CoreSettle(CoreOf(s), voter)
  {
  }

  lemma VoteIsSettle(s: State, name: string, enabled: bool, val: Int32, step: bool, allocOk: bool, rc: Int32)
    requires WellFormed(s) && GetClientId(s.clients, name, allocOk).id >= 0
    ensures var id := GetClientId(s.clients, name, allocOk).id;
            var ballot := CastBallot(s.kind, enabled, val);
            var s' := VoteStep(s, name, enabled, val, step, allocOk, rc).0;
            var c := Cast(s, name, ballot, allocOk);
            && id < Occupied(c.clients)
            && CoreOf(s') == if s.votes[id] == ballot && s.votedOn then CoreOf(c) else CoreSettle(CoreOf(c), id)
  {
    OccupiedGrows(s.clients, name, allocOk);
    var c := Cast(s, name, CastBallot(s.kind, enabled, val), allocOk);
    SettleIsCoreSettle(c, GetClientId(s.clients, name, allocOk).id, step, rc);
  }

  lemma VoteSeesOnlyCore(
    s: State, t: State, name: string, enabled: bool, val: Int32, step: bool, allocOk: bool, rc: Int32)
    requires WellFormed(s) && WellFormed(t) && CoreOf(s) == CoreOf(t)
    ensures CoreOf(VoteStep(s, name, enabled, val, step, allocOk, rc).0)
         == CoreOf(VoteStep(t, name, enabled, val, step, allocOk, rc).0)
  {
    if GetClientId(s.clients, name, allocOk).id >= 0 {
      VoteIsSettle(s, name, enabled, val, step, allocOk, rc);
      VoteIsSettle(t, name, enabled, val, step, allocOk, rc);
    }
  }

  lemma ApplySeesOnlyCore(s: State, t: State, op: Op)
    requires WellFormed(s) && WellFormed(t) && CoreOf(s) == CoreOf(t) && (op.Vote? || op.Query?)
    ensures CoreOf(Apply(s, op)) == CoreOf(Apply(t, op))
  {
    if op.Vote? {
      VoteSeesOnlyCore(s, t, op.name, op.enabled, op.val, op.step, op.allocOk, op.rc);
    }
  }

  lemma {:induction false} LayersLeaveElectionFrom(s: State, t: State, ops: seq<Op>)
    requires Runnable(s, ops) && WellFormed(s) && WellFormed(t) && CoreOf(s) == CoreOf(t)
    ensures Runnable(t, Erase(ops))
    ensures CoreOf(Run(s, ops)) == CoreOf(Run(t, Erase(ops)))
    decreases ops
  {
    if ops != [] {
      var op := ops[0];
      if op.Vote? || op.Query? {
        ApplySeesOnlyCore(s, t, op);
        LayersLeaveElectionFrom(Apply(s, op), Apply(t, op), ops[1..]);
        assert Erase(ops)[1..] == Erase(ops[1..]);
      } else {
        LayerKeepsCore(s, op);
        LayersLeaveElectionFrom(Apply(s, op), t, ops[1..]);
      }
    }
  }

  /** Main theorem: erasing every override, force and rerun from a run changes
      neither the votes, the slots, the cached result and client nor voted_on. */
  lemma LayersLeaveElection(s: State, ops: seq<Op>)
    requires WellFormed(s) && Runnable(s, ops)
    ensures Runnable(s, Erase(ops))
    ensures CoreOf(Run(s, ops)) == CoreOf(Run(s, Erase(ops)))
  {
    LayersLeaveElectionFrom(s, s, ops);
  }

  // ----------------------------------------------- the reported client

  /** The reported effective client really holds the winning vote. */
  ghost predicate ClientIsWinner(s: State)
    requires WellFormed(s)
  {
    s.effectiveId != MINUS_EINVAL ==> s.votes[s.effectiveId] == Ballot(true, s.effectiveResult)
  }

  /** The same of the election's own part. */
  ghost predicate CoreWinner(c: Core)
    requires c.effectiveId != MINUS_EINVAL ==> 0 <= c.effectiveId < |c.votes|
  {
    c.effectiveId != MINUS_EINVAL ==> c.votes[c.effectiveId] == Ballot(true, c.effectiveResult)
  }

  /** An election that changes the result, or is the first, names a winner; any other
      leaves the reported client as it was. */
  lemma SettleNamesWinner(c: Core, voter: Int32)
    requires |c.votes| == NUM_MAX_CLIENTS && 0 <= voter < Occupied(c.clients) <= NUM_MAX_CLIENTS && c.kind != SetAny
    ensures var c' := CoreSettle(c, voter);
            if c.votedOn && c'.effectiveResult == c.effectiveResult
            then c' == c
            else CoreWinner(c')
  {
    ElectNamesFirstWinner(c.kind, c.votes[..Occupied(c.clients)], voter);
  }

  /** What beats a value. */
  predicate Beats(kind: Kind, v: int, r: int)
  {
    if kind == Min then v < r else v > r
  }

  /** The values of the enabled clients other than the one in slot `i`. */
  ghost function OtherValues(s: State, i: nat): set<int>
    requires i < |s.votes|
  {
    EnabledValues(s.votes[i := ABSTAIN])
  }

  /** Whether result `r` stands once its reported client casts another ballot: another
      client also holds `r` and the ballot does not beat it; or `r` is -EINVAL, which
      is also what an election without candidates yields, and no candidate is left. */
  ghost predicate Stands(kind: Kind, others: set<int>, b: Ballot, r: int)
  {
    || (r in others && !(b.enabled && Beats(kind, b.value, r)))
    || (r == MINUS_EINVAL && others <= {Sentinel(kind)} && !(b.enabled && b.value != Sentinel(kind)))
  }

  /** The vote that makes the reported client stale. */
  ghost predicate LeavesStale(s: State, name: string, b: Ballot)
    requires WellFormed(s)
  {
    && s.votedOn && s.effectiveId != MINUS_EINVAL
    && s.clients[s.effectiveId] == Some(name)
    && b != Ballot(true, s.effectiveResult)
    && Stands(s.kind, OtherValues(s, s.effectiveId), b, s.effectiveResult)
  }

  lemma EnabledWith(votes: seq<Ballot>, i: nat, b: Ballot)
    requires i < |votes|
    ensures EnabledValues(votes[i := b]) ==
            EnabledValues(votes[i := ABSTAIN]) + (if b.enabled then {b.value as int} else {})
  {
    var with, without := votes[i := b], votes[i := ABSTAIN];
    forall v | v in EnabledValues(with)
      ensures v in EnabledValues(without) + (if b.enabled then {b.value as int} else {})
    {
      var k :| 0 <= k < |with| && with[k].enabled && with[k].value == v;
      assert k != i ==> without[k] == with[k];
    }
    forall v | v in EnabledValues(without) ensures v in EnabledValues(with) {
      var k :| 0 <= k < |without| && without[k].enabled && without[k].value == v;
      assert with[k] == without[k];
    }
    if b.enabled {
      assert with[i].enabled;
    }
  }

  lemma WinnerIsNoSentinel(kind: Kind, values: set<int>, r: int)
    requires kind != SetAny && r in values && IsResult(kind, values, r)
    requires forall v :: v in values ==> INT_MIN <= v <= INT_MAX
    ensures r != Sentinel(kind)
  {
    if r == Sentinel(kind) {
      forall v | v in values ensures v == Sentinel(kind) {
        assert v == r || Beats(kind, r, v);
      }
    }
  }

  /** Sets of values alone: replacing the winner's ballot keeps the result exactly when
      the result stands. */
  lemma ResultStandsIff(kind: Kind, others: set<int>, b: Ballot, r: Int32, r': Int32)
    requires kind != SetAny && b != Ballot(true, r)
    requires forall v :: v in others ==> INT_MIN <= v <= INT_MAX
    requires IsResult(kind, others + {r as int}, r)
    requires IsResult(kind, others + (if b.enabled then {b.value as int} else {}), r')
    ensures r' == r <==> Stands(kind, others, b, r)
  {
    var after := others + (if b.enabled then {b.value as int} else {});
    WinnerIsNoSentinel(kind, others + {r as int}, r);
    if Stands(kind, others, b, r) {
      assert IsResult(kind, after, r);
      ResultUnique(kind, after, r, r');
    }
  }

  /** Another client's vote, or a vote before the reported client is of any account. */
  lemma OtherVoteKeepsWinner(s: State, name: string, enabled: bool, val: Int32, step: bool, allocOk: bool, rc: Int32)
    requires Inv(s) && s.kind != SetAny && ClientIsWinner(s)
    requires !s.votedOn || s.effectiveId == MINUS_EINVAL || s.clients[s.effectiveId] != Some(name)
             || CastBallot(s.kind, enabled, val) == Ballot(true, s.effectiveResult)
    ensures ClientIsWinner(VoteStep(s, name, enabled, val, step, allocOk, rc).0)
  {
    var l := GetClientId(s.clients, name, allocOk);
    if l.id >= 0 {
      VoteIsSettle(s, name, enabled, val, step, allocOk, rc);
      var c := CoreOf(Cast(s, name, CastBallot(s.kind, enabled, val), allocOk));
      SettleNamesWinner(c, l.id);
      assert s.effectiveId != MINUS_EINVAL && s.clients[s.effectiveId] != Some(name) ==> l.id != s.effectiveId;
    }
  }

  /** The reported client's own vote for something else. */
  lemma OwnVoteStalesIff(s: State, name: string, enabled: bool, val: Int32, step: bool, allocOk: bool, rc: Int32)
    requires Inv(s) && s.kind != SetAny && ClientIsWinner(s) && s.votedOn && s.effectiveId != MINUS_EINVAL
    requires s.clients[s.effectiveId] == Some(name) && Ballot(enabled, val) != Ballot(true, s.effectiveResult)
    ensures var s' := VoteStep(s, name, enabled, val, step, allocOk, rc).0;
            if Stands(s.kind, OtherValues(s, s.effectiveId), Ballot(enabled, val), s.effectiveResult)
            then s'.effectiveResult == s.effectiveResult && s'.effectiveId == s.effectiveId && !ClientIsWinner(s')
            else ClientIsWinner(s')
  {
    var i, b := s.effectiveId, Ballot(enabled, val);
    assert SlotOf(s.clients, name) == i;
    var s' := VoteStep(s, name, enabled, val, step, allocOk, rc).0;
    VoteKeepsInv(s, name, enabled, val, step, allocOk, rc);
    VoteIsSettle(s, name, enabled, val, step, allocOk, rc);
    SettleNamesWinner(CoreOf(Cast(s, name, b, allocOk)), i);
    assert s'.votes == s.votes[i := b];
    EnabledWith(s.votes, i, b);
    EnabledWith(s.votes, i, s.votes[i]);
    assert s.votes[i := s.votes[i]] == s.votes;
    assert forall v :: v in OtherValues(s, i) ==> INT_MIN <= v <= INT_MAX;
    ResultStandsIff(s.kind, OtherValues(s, i), b, s.effectiveResult, s'.effectiveResult);
  }

  /** Main theorem: for MIN and MAX a vote makes the reported client stale exactly when
      it is the reported client's own, takes its winning ballot away, and the result
      stands without it: the cache refreshes the client only together with the result. */
  lemma WinnerKeptIff(s: State, name: string, enabled: bool, val: Int32, step: bool, allocOk: bool, rc: Int32)
    requires Inv(s) && s.kind != SetAny && ClientIsWinner(s)
    ensures ClientIsWinner(VoteStep(s, name, enabled, val, step, allocOk, rc).0) <==>
            !LeavesStale(s, name, Ballot(enabled, val))
  {
    if s.votedOn && s.effectiveId != MINUS_EINVAL && s.clients[s.effectiveId] == Some(name)
       && Ballot(enabled, val) != Ballot(true, s.effectiveResult) {
      OwnVoteStalesIff(s, name, enabled, val, step, allocOk, rc);
    } else {
      OtherVoteKeepsWinner(s, name, enabled, val, step, allocOk, rc);
    }
  }

  /** The reported client can have withdrawn: when the winner ties with another client
      and disables its vote, the result stands and so does its name. */
  lemma TiedWinnerMayWithdraw(s: State, other: nat, name: string, val: Int32, step: bool, allocOk: bool, rc: Int32)
    requires Inv(s) && s.kind != SetAny && s.votedOn && ClientIsWinner(s) && s.effectiveId != MINUS_EINVAL
    requires other < NUM_MAX_CLIENTS && other != s.effectiveId && s.votes[other] == s.votes[s.effectiveId]
    requires s.clients[s.effectiveId] == Some(name)
    ensures var s' := VoteStep(s, name, false, val, step, allocOk, rc).0;
            && s'.effectiveResult == s.effectiveResult
            && s'.effectiveId == s.effectiveId
            && !ClientIsWinner(s')
  {
    var without := s.votes[s.effectiveId := ABSTAIN];
    assert without[other].enabled && without[other].value == s.effectiveResult;
    OwnVoteStalesIff(s, name, false, val, step, allocOk, rc);
  }

  // ------------------------------------------------- the failures are reachable

  lemma RunCons(s: State, op: Op, ops: seq<Op>)
    requires CanApply(s, op) && Runnable(Apply(s, op), ops)
    ensures Runnable(s, [op] + ops) && Run(s, [op] + ops) == Run(Apply(s, op), ops)
  {
    assert ([op] + ops)[1..] == ops;
  }

  /** The first vote on a created votable takes slot 0, whatever it says. */
  lemma FirstVoteStored(kind: Kind, hasCallback: bool, name: string, enabled: bool, val: Int32, step: bool, rc: Int32)
    ensures var s0 := Created(kind, hasCallback);
            var s := VoteStep(s0, name, enabled, val, step, true, rc).0;
            && Inv(s) && s.kind == kind && s.votedOn
            && GetClientId(s0.clients, name, true) == Lookup(0, s0.clients[0 := Some(name)])
            && s.clients == s0.clients[0 := Some(name)]
            && s.votes == s0.votes[0 := CastBallot(kind, enabled, val)]
  {
    var s0 := Created(kind, hasCallback);
    CreatedInv(kind, hasCallback);
    OccupiedIs(s0.clients, 0);
    VoteKeepsInv(s0, name, enabled, val, step, true, rc);
    VoteStoresBallot(s0, name, enabled, val, step, true, rc);
    VoteIsSettle(s0, name, enabled, val, step, true, rc);
  }

  /** A first MIN or MAX vote wins. */
  lemma FirstVoteWins(kind: Kind, hasCallback: bool, name: string, val: Int32, step: bool, rc: Int32)
    requires kind != SetAny && val != Sentinel(kind)
    ensures var s := VoteStep(Created(kind, hasCallback), name, true, val, step, true, rc).0;
            s.effectiveResult == val && s.effectiveId == 0 && ClientIsWinner(s)
  {
    var s0 := Created(kind, hasCallback);
    var s := VoteStep(s0, name, true, val, step, true, rc).0;
    FirstVoteStored(kind, hasCallback, name, true, val, step, rc);
    VoteIsSettle(s0, name, true, val, step, true, rc);
    OccupiedIs(s.clients, 1);
    assert s.votes[..1] == [Ballot(true, val)];
    LoneElection(kind, val);
  }

  lemma LoneElection(kind: Kind, val: Int32)
    requires kind != SetAny && val != Sentinel(kind)
    ensures Elect(kind, [Ballot(true, val)], 0) == Outcome(val, 0)
  {
    var votes := [Ballot(true, val)];
    assert votes[..0] == [];
    assert ScanMin(votes[..0]) == Outcome(INT_MAX, MINUS_EINVAL);
    assert ScanMax(votes[..0]) == Outcome(INT_MIN, MINUS_EINVAL);
  }

  /** From a created votable: a lone client that votes -EINVAL and withdraws is still
      reported, though nobody ties with it. */
  lemma LoneEinvalStaysReported(kind: Kind, hasCallback: bool, name: string, val: Int32, rc: Int32)
    returns (ops: seq<Op>)
    requires kind != SetAny
    ensures Runnable(Created(kind, hasCallback), ops)
    ensures var s := Run(Created(kind, hasCallback), ops);
            && WellFormed(s) && s.effectiveId == 0 && s.clients[0] == Some(name)
            && !ClientIsWinner(s) && EnabledValues(s.votes) == {}
  {
    var s0 := Created(kind, hasCallback);
    var vote, withdraw := Vote(name, true, MINUS_EINVAL, false, true, rc), Vote(name, false, val, false, true, rc);
    var s1 := Apply(s0, vote);
    FirstVoteStored(kind, hasCallback, name, true, MINUS_EINVAL, false, rc);
    FirstVoteWins(kind, hasCallback, name, MINUS_EINVAL, false, rc);
    assert s1.votes[0 := ABSTAIN] == s0.votes;
    assert EnabledValues(s0.votes) == {};
    OwnVoteStalesIff(s1, name, false, val, false, true, rc);
    VoteStoresBallot(s1, name, false, val, false, true, rc);
    RunCons(s1, withdraw, []);
    RunCons(s0, vote, [withdraw] + []);
    ops := [vote] + ([withdraw] + []);
  }

  /** From a created votable: two clients tie, the first withdraws and stays reported. */
  lemma TieStaysReported(kind: Kind, hasCallback: bool, a: string, b: string, tie: Int32, val: Int32, rc: Int32)
    returns (ops: seq<Op>)
    requires kind != SetAny && a != b && tie != Sentinel(kind)
    ensures Runnable(Created(kind, hasCallback), ops)
    ensures var s := Run(Created(kind, hasCallback), ops);
            && WellFormed(s) && s.effectiveId == 0 && s.clients[0] == Some(a)
            && s.effectiveResult == tie && !ClientIsWinner(s)
  {
    var s0 := Created(kind, hasCallback);
    var first, second := Vote(a, true, tie, false, true, rc), Vote(b, true, tie, false, true, rc);
    var withdraw := Vote(a, false, val, false, true, rc);
    var s1 := Apply(s0, first);
    FirstVoteStored(kind, hasCallback, a, true, tie, false, rc);
    FirstVoteWins(kind, hasCallback, a, tie, false, rc);
    var s2 := Apply(s1, second);
    SecondVoteTies(s1, a, b, tie, rc);
    TiedWinnerMayWithdraw(s2, 1, a, val, false, true, rc);
    VoteStoresBallot(s2, a, false, val, false, true, rc);
    RunCons(s2, withdraw, []);
    RunCons(s1, second, [withdraw] + []);
    RunCons(s0, first, [second] + ([withdraw] + []));
    ops := [first] + ([second] + ([withdraw] + []));
  }

  lemma SecondVoteTies(s: State, a: string, b: string, tie: Int32, rc: Int32)
    requires Inv(s) && s.kind != SetAny && s.votedOn && a != b
    requires s.clients == seq(NUM_MAX_CLIENTS, _ => None)[0 := Some(a)]
    requires s.votes == seq(NUM_MAX_CLIENTS, _ => ABSTAIN)[0 := Ballot(true, tie)]
    requires s.effectiveId == 0 && s.effectiveResult == tie
    ensures var s2 := VoteStep(s, b, true, tie, false, true, rc).0;
            && Inv(s2) && s2.kind == s.kind && s2.votedOn && s2.effectiveId == 0 && s2.effectiveResult == tie
            && ClientIsWinner(s2) && s2.clients[0] == Some(a) && s2.votes[1] == s2.votes[0] == Ballot(true, tie)
  {
    var s2 := VoteStep(s, b, true, tie, false, true, rc).0;
    OccupiedIs(s.clients, 1);
    assert GetClientId(s.clients, b, true).id == 1;
    VoteKeepsInv(s, b, true, tie, false, true, rc);
    VoteStoresBallot(s, b, true, tie, false, true, rc);
    VoteIsSettle(s, b, true, tie, false, true, rc);
    EnabledWith(s.votes, 1, Ballot(true, tie));
    assert s.votes[1 := ABSTAIN] == s.votes;
    assert tie as int in EnabledValues(s.votes) by { assert s.votes[0].enabled; }
    assert EnabledValues(s2.votes) == EnabledValues(s.votes);
    ResultUnique(s.kind, EnabledValues(s.votes), tie, s2.effectiveResult);
    SettleNamesWinner(CoreOf(Cast(s, b, Ballot(true, tie), true)), 1);
  }

  /** A first vote with a callback leaves the callback informed; after it, every call
      that is not benign leaves it misinformed. */
  lemma UntracksFromCreated(kind: Kind, name: string, enabled: bool, val: Int32, rc: Int32, op: Op)
    requires var s1 := VoteStep(Created(kind, true), name, enabled, val, false, true, rc).0;
             CanApply(s1, op) && !Benign(s1, op)
    ensures var ops := [Vote(name, enabled, val, false, true, rc)] + ([op] + []);
            Runnable(Created(kind, true), ops) && !Tracks(Run(Created(kind, true), ops))
  {
    var s0 := Created(kind, true);
    var vote := Vote(name, enabled, val, false, true, rc);
    FirstVoteStored(kind, true, name, enabled, val, false, rc);
    CreatedInv(kind, true);
    VoteTracks(s0, name, enabled, val, false, true, rc);
    VoteAnnouncesChanges(s0, name, enabled, val, false, true, rc);
    var s1 := Apply(s0, vote);
    ApplyTracksIff(s1, op);
    RunCons(s1, op, []);
    RunCons(s0, vote, [op] + []);
  }

  /** Such a call exists after every first vote: an override the callback refuses. */
  lemma RefusedOverrideUntracks(kind: Kind, name: string, enabled: bool, val: Int32, rc: Int32, client: string)
    returns (ops: seq<Op>)
    ensures Runnable(Created(kind, true), ops) && !Tracks(Run(Created(kind, true), ops))
  {
    var s1 := VoteStep(Created(kind, true), name, enabled, val, false, true, rc).0;
    var other := if Visible(s1) == 0 then 1 else 0;
    var op := Override(client, true, other, false, MINUS_EINVAL);
    assert Apply(Created(kind, true), Vote(name, enabled, val, false, true, rc)) == s1;
    UntracksFromCreated(kind, name, enabled, val, rc, op);
    ops := [Vote(name, enabled, val, false, true, rc)] + ([op] + []);
  }

  // ------------------------------------------------------- refused votes count

  /** Queries for `n` names, each of another length. */
  function Queries(n: nat): (ops: seq<Op>)
    ensures |ops| == n && forall i :: 0 <= i < n ==> ops[i].Query?
  {
    if n == 0 then [] else Queries(n - 1) + [Query(Name(n - 1), true)]
  }

  function Name(n: nat): (name: string)
    ensures |name| == n
  {
    if n == 0 then "" else Name(n - 1) + "x"
  }

  ghost function FirstNames(n: nat): set<string>
  {
    set i | 0 <= i < n :: Name(i)
  }

  lemma FirstNamesAreShort(n: nat, name: string)
    requires |name| >= n
    ensures name !in FirstNames(n)
  {
    forall i | 0 <= i < n ensures Name(i) != name {
      assert |Name(i)| == i;
    }
  }

  lemma FirstNamesGrow(n: nat)
    ensures FirstNames(n + 1) == FirstNames(n) + {Name(n)} && Name(n) !in FirstNames(n)
  {
    FirstNamesAreShort(n, Name(n));
  }

  lemma {:induction false} FirstNamesCount(n: nat)
    ensures |FirstNames(n)| == n
  {
    if n == 0 {
      assert FirstNames(0) == {};
    } else {
      FirstNamesCount(n - 1);
      FirstNamesGrow(n - 1);
    }
  }

  lemma {:induction false} KnownSnoc(known: set<string>, ops: seq<Op>, op: Op)
    ensures KnownAfterAll(known, ops + [op]) == KnownAfter(KnownAfterAll(known, ops), op)
    decreases ops
  {
    if ops == [] {
      assert ops + [op] == [op];
    } else {
      assert (ops + [op])[1..] == ops[1..] + [op];
      KnownSnoc(KnownAfter(known, ops[0]), ops[1..], op);
    }
  }

  lemma {:induction false} QueriesFillTable(n: nat)
    requires n <= NUM_MAX_CLIENTS
    ensures KnownAfterAll({}, Queries(n)) == FirstNames(n)
  {
    if n == 0 {
      assert FirstNames(0) == {};
    } else {
      QueriesFillTable(n - 1);
      FirstNamesCount(n - 1);
      FirstNamesGrow(n - 1);
      KnownSnoc({}, Queries(n - 1), Query(Name(n - 1), true));
    }
  }

  lemma {:induction false} AlwaysRunnable(s: State, ops: seq<Op>)
    requires WellFormed(s) && forall i :: 0 <= i < |ops| ==> !ops[i].Override?
    ensures Runnable(s, ops)
    decreases ops
  {
    if ops != [] {
      AlwaysRunnable(Apply(s, ops[0]), ops[1..]);
    }
  }

  lemma {:induction false} VoteAfterQueries(kind: Kind, known: set<string>, ops: seq<Op>, vote: Op, who: string)
    requires vote.Vote? && forall i :: 0 <= i < |ops| ==> ops[i].Query?
    ensures LastVote(kind, ops + [vote], who) == LastVote(kind, [vote], who)
    ensures LastAccepted(kind, known, ops + [vote], who) == AcceptedVote(kind, KnownAfterAll(known, ops), vote, who)
    decreases ops
  {
    if ops == [] {
      assert ops + [vote] == [vote];
      assert LastAccepted(kind, KnownAfter(known, vote), [vote][1..], who) == None;
    } else {
      assert (ops + [vote])[1..] == ops[1..] + [vote];
      VoteAfterQueries(kind, KnownAfter(known, ops[0]), ops[1..], vote, who);
    }
  }

  /** Without that proviso the plain property fails: queries for 32 other names use up the
      slots, so the same vote that would win alone is refused, although every client's
      last vote is the same in both runs. */
  lemma QueriesBlockAVote(kind: Kind, hasCallback: bool, name: string, val: Int32, rc: Int32)
    requires kind != SetAny && val != Sentinel(kind) && val != MINUS_EINVAL && |name| >= NUM_MAX_CLIENTS
    ensures var vote := Vote(name, true, val, false, true, rc);
            var alone, late := [vote], Queries(NUM_MAX_CLIENTS) + [vote];
            var s0 := Created(kind, hasCallback);
            && Runnable(s0, alone) && Runnable(s0, late)
            && (forall who :: LastVote(kind, alone, who) == LastVote(kind, late, who))
            && Run(s0, alone).effectiveResult == val
            && Run(s0, late).effectiveResult == MINUS_EINVAL
  {
    var vote := Vote(name, true, val, false, true, rc);
    var queries := Queries(NUM_MAX_CLIENTS);
    var s0 := Created(kind, hasCallback);
    CreatedKnowsNobody(kind, hasCallback);
    AlwaysRunnable(s0, queries + [vote]);
    RunCons(s0, vote, []);
    assert [vote] + [] == [vote];
    FirstVoteWins(kind, hasCallback, name, val, false, rc);
    QueriesFillTable(NUM_MAX_CLIENTS);
    FirstNamesCount(NUM_MAX_CLIENTS);
    FirstNamesAreShort(NUM_MAX_CLIENTS, name);
    forall who
      ensures LastVote(kind, [vote], who) == LastVote(kind, queries + [vote], who)
      ensures LastAccepted(kind, {}, queries + [vote], who) == None
    {
      VoteAfterQueries(kind, {}, queries, vote, who);
    }
    NobodyElects(kind, hasCallback, queries + [vote]);
  }

  /** So does a slot name that cannot be allocated. */
  lemma FailedAllocationBlocksAVote(kind: Kind, hasCallback: bool, name: string, val: Int32, rc: Int32)
    requires kind != SetAny && val != Sentinel(kind) && val != MINUS_EINVAL
    ensures var alone, failed := [Vote(name, true, val, false, true, rc)], [Vote(name, true, val, false, false, rc)];
            var s0 := Created(kind, hasCallback);
            && Runnable(s0, alone) && Runnable(s0, failed)
            && (forall who :: LastVote(kind, alone, who) == LastVote(kind, failed, who))
            && Run(s0, alone).effectiveResult == val
            && Run(s0, failed).effectiveResult == MINUS_EINVAL
  {
    var vote, failed := Vote(name, true, val, false, true, rc), Vote(name, true, val, false, false, rc);
    var s0 := Created(kind, hasCallback);
    CreatedKnowsNobody(kind, hasCallback);
    RunCons(s0, vote, []);
    RunCons(s0, failed, []);
    assert [vote] + [] == [vote] && [failed] + [] == [failed];
    FirstVoteWins(kind, hasCallback, name, val, false, rc);
    forall who
      ensures LastVote(kind, [vote], who) == LastVote(kind, [failed], who)
      ensures LastAccepted(kind, {}, [failed], who) == None
    {
      assert LastAccepted(kind, KnownAfter({}, failed), [failed][1..], who) == None;
    }
    NobodyElects(kind, hasCallback, [failed]);
  }

  /** A run that accepts no vote leaves a MIN or MAX votable without a result. */
  lemma NobodyElects(kind: Kind, hasCallback: bool, ops: seq<Op>)
    requires kind != SetAny && Runnable(Created(kind, hasCallback), ops)
    requires forall who :: LastAccepted(kind, {}, ops, who) == None
    ensures Run(Created(kind, hasCallback), ops).effectiveResult == MINUS_EINVAL
  {
    var s0 := Created(kind, hasCallback);
    AlwaysRunnable(s0, []);
    OnlyLastVotesMatter(kind, hasCallback, hasCallback, ops, []);
  }
}
