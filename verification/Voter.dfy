/** The vote arbiter: up to 32 named clients vote on one value; the winner is
    cached, a callback hears of changes, and an override and a debug-force layer
    sit on top of the election.

    `State` and the `...Step` functions specify what each call does. */
module Voter {
  import opened Kernel

  const INT_MAX: int := 0x7FFF_FFFF
  const INT_MIN: int := -0x8000_0000
  const NUM_MAX_CLIENTS: nat := 32
  const DEBUG_FORCE_CLIENT := "DEBUG_FORCE_CLIENT"

  type UInt32 = x: int | 0 <= x <= 0xFFFF_FFFF

  datatype Kind = Min | Max | SetAny

  datatype Ballot = Ballot(enabled: bool, value: Int32)

  /** One invocation of the votable's callback. */
  datatype Call = Call(value: Int32, client: Option<string>, step: bool)

  /** An election outcome: the winning value and the winning slot (or -EINVAL). */
  datatype Outcome = Outcome(result: Int32, id: Int32)

  const ABSTAIN := Ballot(false, 0)

  datatype State = State(
    kind: Kind,
    clients: seq<Option<string>>,
    votes: seq<Ballot>,
    effectiveId: Int32,
    effectiveResult: Int32,
    overrideResult: Int32,
    overrideClient: Option<string>,
    forceActive: bool,
    forceVal: UInt32,
    votedOn: bool,
    hasCallback: bool,
    calls: seq<Call>)

  /** The C conversion of an unsigned 32-bit value to `int`. */
  function ToInt32(x: UInt32): (r: Int32)
    ensures (r - x) % 0x1_0000_0000 == 0
  {
    if x <= 0x7FFF_FFFF then x else x - 0x1_0000_0000
  }

  // ---------------------------------------------------------------- slots

  /** The number of slots before the first empty one. */
  function Occupied(clients: seq<Option<string>>): (n: nat)
    ensures n <= |clients|
    ensures forall i :: 0 <= i < n ==> clients[i].Some?
    ensures n < |clients| ==> clients[n].None?
  {
    if clients == [] || clients[0].None? then 0 else 1 + Occupied(clients[1..])
  }

  /** The first slot that holds `name`, or the table size when there is none. */
  function SlotOf(clients: seq<Option<string>>, name: string): (i: nat)
    ensures i <= |clients|
    ensures i < |clients| ==> clients[i] == Some(name)
    ensures forall j :: 0 <= j < i ==> clients[j] != Some(name)
  {
    if clients == [] || clients[0] == Some(name) then 0 else 1 + SlotOf(clients[1..], name)
  }

  /** Slot lookup, which allocates a slot for a name it has not seen. */
  datatype Lookup = Lookup(id: Int32, clients: seq<Option<string>>)

  function GetClientId(clients: seq<Option<string>>, name: string, allocOk: bool): (l: Lookup)
    requires |clients| <= NUM_MAX_CLIENTS
    ensures |l.clients| == |clients|
    ensures l.id < 0 ==> l.clients == clients
    ensures l.id >= 0 ==> l.id < |clients| && l.clients[l.id] == Some(name)
    ensures forall i :: 0 <= i < |clients| && clients[i].Some? ==> l.clients[i] == clients[i]
  {
    var known := SlotOf(clients, name);
    var free := Occupied(clients);
    if known < |clients| then Lookup(known, clients)
    else if free == |clients| then Lookup(MINUS_EINVAL, clients)
    else if !allocOk then Lookup(MINUS_ENOMEM, clients)
    else Lookup(free, clients[free := Some(name)])
  }

  /** The occupied slots are the first ones. */
  predicate SlotsArePrefix(clients: seq<Option<string>>)
  {
    forall i :: Occupied(clients) <= i < |clients| ==> clients[i].None?
  }
  lemma OccupiedIs(clients: seq<Option<string>>, n: nat)
    requires n <= |clients|
    requires forall i :: 0 <= i < n ==> clients[i].Some?
    requires n < |clients| ==> clients[n].None?
    ensures Occupied(clients) == n
  {
  }

  lemma OccupiedGrows(clients: seq<Option<string>>, name: string, allocOk: bool)
    requires |clients| <= NUM_MAX_CLIENTS
    ensures var l := GetClientId(clients, name, allocOk);
            && Occupied(clients) <= Occupied(l.clients)
            && (l.clients != clients ==> l.id == Occupied(clients) && l.clients == clients[l.id := Some(name)])
            && (SlotsArePrefix(clients) ==> SlotsArePrefix(l.clients) && l.id < Occupied(l.clients))
  {
    var l := GetClientId(clients, name, allocOk);
    if l.clients != clients {
      var n := Occupied(clients);
      assert forall i :: 0 <= i <= n ==> l.clients[i].Some?;
      if SlotsArePrefix(clients) {
        OccupiedIs(l.clients, n + 1);
      }
    }
  }

  function ClientStr(clients: seq<Option<string>>, id: Int32): Option<string>
    requires id == MINUS_EINVAL || 0 <= id < |clients|
  {
    if id == MINUS_EINVAL then None else clients[id]
  }

  // ------------------------------------------------------------- elections

  /** The running minimum and its first holder, from INT_MAX and no holder. */
  function ScanMin(votes: seq<Ballot>): (o: Outcome)
    requires |votes| <= NUM_MAX_CLIENTS
    ensures o.id == MINUS_EINVAL ==> o.result == INT_MAX
    ensures o.id != MINUS_EINVAL ==>
              0 <= o.id < |votes| && votes[o.id] == Ballot(true, o.result) && o.result < INT_MAX
    ensures forall i :: 0 <= i < |votes| && votes[i].enabled ==> o.result <= votes[i].value
    ensures forall i :: 0 <= i < o.id && votes[i].enabled ==> o.result < votes[i].value
  {
    if votes == [] then Outcome(INT_MAX, MINUS_EINVAL)
    else
      var n := |votes| - 1;
      var o := ScanMin(votes[..n]);
      if votes[n].enabled && o.result > votes[n].value then Outcome(votes[n].value, n) else o
  }

  /** The running maximum and its first holder, from INT_MIN and no holder. */
  function ScanMax(votes: seq<Ballot>): (o: Outcome)
    requires |votes| <= NUM_MAX_CLIENTS
    ensures o.id == MINUS_EINVAL ==> o.result == INT_MIN
    ensures o.id != MINUS_EINVAL ==>
              0 <= o.id < |votes| && votes[o.id] == Ballot(true, o.result) && INT_MIN < o.result
    ensures forall i :: 0 <= i < |votes| && votes[i].enabled ==> votes[i].value <= o.result
    ensures forall i :: 0 <= i < o.id && votes[i].enabled ==> votes[i].value < o.result
  {
    if votes == [] then Outcome(INT_MIN, MINUS_EINVAL)
    else
      var n := |votes| - 1;
      var o := ScanMax(votes[..n]);
      if votes[n].enabled && o.result < votes[n].value then Outcome(votes[n].value, n) else o
  }

  predicate AnyEnabled(votes: seq<Ballot>)
  {
    exists i :: 0 <= i < |votes| && votes[i].enabled
  }

  /** A fresh election over the ballots of the occupied slots; `voter` is the
      slot of the client whose vote called it. */
  function Elect(kind: Kind, votes: seq<Ballot>, voter: Int32): (o: Outcome)
    requires |votes| <= NUM_MAX_CLIENTS
    requires 0 <= voter < |votes|
    ensures o.id == MINUS_EINVAL || 0 <= o.id < |votes|
  {
    match kind
    case Min => var o := ScanMin(votes); if o.id == MINUS_EINVAL then o.(result := MINUS_EINVAL) else o
    case Max => var o := ScanMax(votes); if o.id == MINUS_EINVAL then o.(result := MINUS_EINVAL) else o
    case SetAny => Outcome(if AnyEnabled(votes) then 1 else 0, voter)
  }

  /** What the elections are for, said of the enabled values alone: MIN and MAX
      pick the extreme enabled value, ignoring the sentinel they start from, and
      yield -EINVAL when nothing else is enabled; SET_ANY says whether any client
      is enabled. */
  ghost predicate IsResult(kind: Kind, values: set<int>, r: int)
  {
    match kind
    case Min =>
      if values <= {INT_MAX} then r == MINUS_EINVAL
      else r in values && forall v :: v in values ==> r <= v
    case Max =>
      if values <= {INT_MIN} then r == MINUS_EINVAL
      else r in values && forall v :: v in values ==> v <= r
    case SetAny => r == if values == {} then 0 else 1
  }

  ghost function EnabledValues(votes: seq<Ballot>): set<int>
  {
    set i | 0 <= i < |votes| && votes[i].enabled :: votes[i].value as int
  }

  lemma ElectIsResult(kind: Kind, votes: seq<Ballot>, voter: Int32)
    requires |votes| <= NUM_MAX_CLIENTS && 0 <= voter < |votes|
    ensures IsResult(kind, EnabledValues(votes), Elect(kind, votes, voter).result)
  {
    var values := EnabledValues(votes);
    match kind
    case Min =>
      var o := ScanMin(votes);
      if o.id == MINUS_EINVAL {
        assert forall v :: v in values ==> v == INT_MAX;
      } else {
        assert votes[o.id].value in values;
      }
    case Max =>
      var o := ScanMax(votes);
      if o.id == MINUS_EINVAL {
        assert forall v :: v in values ==> v == INT_MIN;
      } else {
        assert votes[o.id].value in values;
      }
    case SetAny =>
      if AnyEnabled(votes) {
        var i :| 0 <= i < |votes| && votes[i].enabled;
        assert votes[i].value in values;
      }
  }

  /** MIN and MAX elections name the first enabled client with the winning value. */
  lemma ElectNamesFirstWinner(kind: Kind, votes: seq<Ballot>, voter: Int32)
    requires |votes| <= NUM_MAX_CLIENTS && 0 <= voter < |votes| && kind != SetAny
    ensures var o := Elect(kind, votes, voter);
            o.id != MINUS_EINVAL ==>
              && votes[o.id] == Ballot(true, o.result)
              && forall i :: 0 <= i < o.id ==> votes[i] != votes[o.id]
    ensures var o := Elect(kind, votes, voter);
            o.id == MINUS_EINVAL <==>
            EnabledValues(votes) <= (if kind == Min then {INT_MAX} else {INT_MIN})
  {
    ElectIsResult(kind, votes, voter);
    var o := Elect(kind, votes, voter);
    var values := EnabledValues(votes);
    if o.id != MINUS_EINVAL {
      assert votes[o.id].value in values;
    } else {
      var sentinel := if kind == Min then INT_MAX else INT_MIN;
      forall v | v in values ensures v == sentinel {
        var i :| 0 <= i < |votes| && votes[i].enabled && votes[i].value == v;
      }
    }
  }

  lemma ResultUnique(kind: Kind, values: set<int>, r1: int, r2: int)
    requires IsResult(kind, values, r1) && IsResult(kind, values, r2)
    ensures r1 == r2
  {
  }

  // ------------------------------------------------------- what a call does

  /** A votable as `oplus_create_votable` leaves it. */
  function Created(kind: Kind, hasCallback: bool): State
  {
    State(kind,
          seq(NUM_MAX_CLIENTS, _ => None),
          seq(NUM_MAX_CLIENTS, _ => ABSTAIN),
          MINUS_EINVAL,
          if kind == SetAny then 0 else MINUS_EINVAL,
          MINUS_EINVAL, None, false, 0, false, hasCallback, [])
  }

  predicate WellFormed(s: State)
  {
    && |s.clients| == NUM_MAX_CLIENTS
    && |s.votes| == NUM_MAX_CLIENTS
    && SlotsArePrefix(s.clients)
    && (s.effectiveId == MINUS_EINVAL || 0 <= s.effectiveId < Occupied(s.clients))
  }

  function Visible(s: State): Int32
  {
    if s.forceActive then ToInt32(s.forceVal)
    else if s.overrideResult != MINUS_EINVAL then s.overrideResult
    else s.effectiveResult
  }

  function Called(s: State, value: Int32, client: Option<string>, step: bool): State
  {
    s.(calls := s.calls + [Call(value, client, step)])
  }

  function CastBallot(kind: Kind, enabled: bool, val: Int32): Ballot
  {
    Ballot(enabled, if kind == SetAny then (if enabled then 1 else 0) else val)
  }

  /** The second half of `oplus_vote`: a fresh election after slot `voter` voted,
      caching and announcing a changed result. */
  function SettleStep(s: State, voter: Int32, step: bool, rc: Int32): (r: (State, Int32))
    requires WellFormed(s) && 0 <= voter < Occupied(s.clients)
    ensures WellFormed(r.0)
  {
    var o := Elect(s.kind, s.votes[..Occupied(s.clients)], voter);
    if s.votedOn && o.result == s.effectiveResult then (s, 0)
    else
      var s1 := s.(effectiveId := o.id, effectiveResult := o.result, votedOn := true);
      if s.hasCallback && !s.forceActive && s.overrideResult == MINUS_EINVAL
      then (Called(s1, o.result, ClientStr(s.clients, o.id), step), rc)
      else (s1, 0)
  }

  /** `oplus_vote`; `rc` is what the callback answers if it is called. */
  function VoteStep(s: State, name: string, enabled: bool, val: Int32, step: bool, allocOk: bool, rc: Int32)
    : (r: (State, Int32))
    requires WellFormed(s)
    ensures WellFormed(r.0)
  {
    var l := GetClientId(s.clients, name, allocOk);
    OccupiedGrows(s.clients, name, allocOk);
    if l.id < 0 then (s, l.id)
    else
      var ballot := CastBallot(s.kind, enabled, val);
      var s1 := s.(clients := l.clients, votes := s.votes[l.id := ballot]);
      if s.votes[l.id] == ballot && s.votedOn then (s1, 0) else SettleStep(s1, l.id, step, rc)
  }

  /** `oplus_vote_override`, which calls the callback without testing for one. */
  function OverrideStep(s: State, client: string, enabled: bool, val: Int32, step: bool, rc: Int32): (r: (State, Int32))
    requires WellFormed(s)
    requires s.hasCallback || s.forceActive
    ensures WellFormed(r.0)
  {
    if s.forceActive then (s.(overrideResult := if enabled then val else MINUS_EINVAL), 0)
    else if enabled then
      var s1 := Called(s, val, Some(client), step);
      (if rc == 0 then s1.(overrideClient := Some(client), overrideResult := val) else s1, rc)
    else
      (Called(s, s.effectiveResult, ClientStr(s.clients, s.effectiveId), step).(overrideResult := MINUS_EINVAL), rc)
  }

  /** `oplus_rerun_election`: repeats the visible value, under the name of the
      election's own winner. */
  function RerunStep(s: State, step: bool, rc: Int32): (r: (State, Int32))
    requires WellFormed(s)
    ensures WellFormed(r.0)
  {
    if s.hasCallback then (Called(s, Visible(s), ClientStr(s.clients, s.effectiveId), step), rc) else (s, 0)
  }

  /** `force_active_set`. */
  function ForceStep(s: State, on: bool, rc: Int32): (r: (State, Int32))
    requires WellFormed(s)
    ensures WellFormed(r.0)
  {
    var s1 := s.(forceActive := on);
    if !s.hasCallback then (s1, 0)
    else if on then (Called(s1, ToInt32(s.forceVal), Some(DEBUG_FORCE_CLIENT), false), rc)
    else if s.overrideResult != MINUS_EINVAL then (Called(s1, s.overrideResult, s.overrideClient, false), rc)
    else (Called(s1, s.effectiveResult, ClientStr(s.clients, s.effectiveId), false), rc)
  }

  /** The slot side effect of a client query. */
  function QueryStep(s: State, name: string, allocOk: bool): (r: State)
    requires WellFormed(s)
    ensures WellFormed(r)
  {
    OccupiedGrows(s.clients, name, allocOk);
    s.(clients := GetClientId(s.clients, name, allocOk).clients)
  }

  /** The value a client query answers with. */
  function ClientVoteOf(s: State, name: string, allocOk: bool): Int32
    requires WellFormed(s)
  {
    var l := GetClientId(s.clients, name, allocOk);
    if l.id < 0 || (s.kind != SetAny && !s.votes[l.id].enabled) then MINUS_EINVAL else s.votes[l.id].value
  }
}
