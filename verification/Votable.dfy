/** The votable object: slot arrays updated in place, elections and slot searches
    as loops. Every method is proved equal to its specification in `Voter`. */
module VotableObject {
  import opened Kernel
  import opened Voter

  class Votable {
    const kind: Kind
    const hasCallback: bool
    const clients: array<Option<string>>
    const votes: array<Ballot>
    var effectiveId: Int32
    var effectiveResult: Int32
    var overrideResult: Int32
    var overrideClient: Option<string>
    var forceActive: bool
    var forceVal: UInt32
    var votedOn: bool
    var calls: seq<Call>

    ghost function Abs(): State
      reads this, clients, votes
    {
      State(kind, clients[..], votes[..], effectiveId, effectiveResult, overrideResult, overrideClient,
            forceActive, forceVal, votedOn, hasCallback, calls)
    }

    ghost predicate Valid()
      reads this, clients, votes
    {
      WellFormed(Abs())
    }

    constructor (kind: Kind, hasCallback: bool)
      ensures Valid() && fresh(clients) && fresh(votes)
      ensures Abs() == Created(kind, hasCallback)
    {
      this.kind := kind;
      this.hasCallback := hasCallback;
      clients := new Option<string>[NUM_MAX_CLIENTS](_ => None);
      votes := new Ballot[NUM_MAX_CLIENTS](_ => ABSTAIN);
      effectiveId := MINUS_EINVAL;
      effectiveResult := if kind == SetAny then 0 else MINUS_EINVAL;
      overrideResult := MINUS_EINVAL;
      overrideClient := None;
      forceActive := false;
      forceVal := 0;
      votedOn := false;
      calls := [];
      new;
      OccupiedIs(clients[..], 0);
    }

    method VoteSetAny(clientId: Int32) returns (result: Int32, id: Int32)
      requires Valid() && 0 <= clientId < Occupied(clients[..])
      ensures Outcome(result, id) == Elect(SetAny, votes[..Occupied(clients[..])], clientId)
    {
      ghost var n := Occupied(clients[..]);
      result := 0;
      var i := 0;
      while i < NUM_MAX_CLIENTS && clients[i].Some?
        invariant 0 <= i <= n
        invariant result == if AnyEnabled(votes[..i]) then 1 else 0
      {
        assert votes[..i + 1] == votes[..i] + [votes[i]];
        if votes[i].enabled {
          assert votes[..i + 1][i].enabled;
          result := 1;
        }
        i := i + 1;
      }
      id := clientId;
    }

    method VoteMin(clientId: Int32) returns (result: Int32, id: Int32)
      requires Valid() && 0 <= clientId < Occupied(clients[..])
      ensures Outcome(result, id) == Elect(Min, votes[..Occupied(clients[..])], clientId)
    {
      ghost var n := Occupied(clients[..]);
      result, id := INT_MAX, MINUS_EINVAL;
      var i := 0;
      while i < NUM_MAX_CLIENTS && clients[i].Some?
        invariant 0 <= i <= n
        invariant Outcome(result, id) == ScanMin(votes[..i])
      {
        assert votes[..i + 1][..i] == votes[..i];
        if votes[i].enabled && result > votes[i].value {
          result := votes[i].value;
          id := i;
        }
        i := i + 1;
      }
      if id == MINUS_EINVAL {
        result := MINUS_EINVAL;
      }
    }

    method VoteMax(clientId: Int32) returns (result: Int32, id: Int32)
      requires Valid() && 0 <= clientId < Occupied(clients[..])
      ensures Outcome(result, id) == Elect(Max, votes[..Occupied(clients[..])], clientId)
    {
      ghost var n := Occupied(clients[..]);
      result, id := INT_MIN, MINUS_EINVAL;
      var i := 0;
      while i < NUM_MAX_CLIENTS && clients[i].Some?
        invariant 0 <= i <= n
        invariant Outcome(result, id) == ScanMax(votes[..i])
      {
        assert votes[..i + 1][..i] == votes[..i];
        if votes[i].enabled && result < votes[i].value {
          result := votes[i].value;
          id := i;
        }
        i := i + 1;
      }
      if id == MINUS_EINVAL {
        result := MINUS_EINVAL;
      }
    }

    method GetClientId(name: string, allocOk: bool) returns (id: Int32)
      requires Valid()
      modifies clients
      ensures Valid()
      ensures Lookup(id, clients[..]) == Voter.GetClientId(old(clients[..]), name, allocOk)
    {
      OccupiedGrows(clients[..], name, allocOk);
      var i := 0;
      while i < NUM_MAX_CLIENTS
        invariant 0 <= i <= SlotOf(clients[..], name) <= NUM_MAX_CLIENTS
      {
        if clients[i] == Some(name) {
          return i;
        }
        i := i + 1;
      }
      i := 0;
      while i < NUM_MAX_CLIENTS
        invariant 0 <= i <= Occupied(clients[..])
        invariant clients[..] == old(clients[..])
      {
        if clients[i].None? {
          if !allocOk {
            return MINUS_ENOMEM;
          }
          clients[i] := Some(name);
          return i;
        }
        i := i + 1;
      }
      id := MINUS_EINVAL;
    }

    method ClientString(id: Int32) returns (client: Option<string>)
      requires id == MINUS_EINVAL || 0 <= id < clients.Length
      ensures client == ClientStr(clients[..], id)
    {
      if id == MINUS_EINVAL {
        client := None;
      } else {
        client := clients[id];
      }
    }

    method Callback(value: Int32, client: Option<string>, step: bool)
      modifies this`calls
      ensures calls == old(calls) + [Call(value, client, step)]
    {
      calls := calls + [Call(value, client, step)];
    }

    method RunElection(clientId: Int32) returns (result: Int32, id: Int32)
      requires Valid() && 0 <= clientId < Occupied(clients[..])
      ensures Outcome(result, id) == Elect(kind, votes[..Occupied(clients[..])], clientId)
    {
      match kind {
        case Min => result, id := VoteMin(clientId);
        case Max => result, id := VoteMax(clientId);
        case SetAny => result, id := VoteSetAny(clientId);
      }
    }

    method Settle(clientId: Int32, step: bool, answer: Int32) returns (rc: Int32)
      requires Valid() && 0 <= clientId < Occupied(clients[..])
      modifies this
      ensures Valid()
      ensures (Abs(), rc) == SettleStep(old(Abs()), clientId, step, answer)
    {
      var result, id := RunElection(clientId);
      rc := 0;
      if !votedOn || result != effectiveResult {
        effectiveId := id;
        effectiveResult := result;
        if hasCallback && !forceActive && overrideResult == MINUS_EINVAL {
          var client := ClientString(id);
          Callback(result, client, step);
          rc := answer;
        }
      }
      votedOn := true;
    }

    method StoreBallot(clientId: Int32, enabled: bool, value: Int32) returns (similarVote: bool)
      requires Valid() && 0 <= clientId < NUM_MAX_CLIENTS
      modifies votes
      ensures Valid()
      ensures Abs() == old(Abs()).(votes := old(votes[..])[clientId := Ballot(enabled, value)])
      ensures similarVote <==> old(votes[clientId]) == Ballot(enabled, value)
    {
      similarVote := votes[clientId].enabled == enabled && votes[clientId].value == value;
      votes[clientId] := Ballot(enabled, value);
    }

    /** Finds or makes the client's slot and stores its ballot there. */
    method RecordBallot(name: string, enabled: bool, value: Int32, allocOk: bool)
      returns (clientId: Int32, similarVote: bool)
      requires Valid()
      modifies clients, votes
      ensures Valid()
      ensures clientId == Voter.GetClientId(old(clients[..]), name, allocOk).id
      ensures clientId < 0 ==> Abs() == old(Abs())
      ensures clientId >= 0 ==>
                && clientId < Occupied(clients[..])
                && Abs() == old(Abs()).(clients := Voter.GetClientId(old(clients[..]), name, allocOk).clients,
                                        votes := old(votes[..])[clientId := Ballot(enabled, value)])
                && (similarVote <==> old(votes[clientId]) == Ballot(enabled, value))
    {
      OccupiedGrows(clients[..], name, allocOk);
      clientId := GetClientId(name, allocOk);
      similarVote := false;
      if clientId >= 0 {
        similarVote := StoreBallot(clientId, enabled, value);
      }
    }

    method Vote(name: string, enabled: bool, val: Int32, step: bool, allocOk: bool, answer: Int32)
      returns (rc: Int32)
      requires Valid()
      modifies this, clients, votes
      ensures Valid()
      ensures (Abs(), rc) == VoteStep(old(Abs()), name, enabled, val, step, allocOk, answer)
    {
      var value := val;
      if kind == SetAny {
        value := if enabled then 1 else 0;
      }
      var clientId, similarVote := RecordBallot(name, enabled, value, allocOk);
      if clientId < 0 {
        return clientId;
      }
      if similarVote && votedOn {
        return 0;
      }
      rc := Settle(clientId, step, answer);
    }

    method VoteOverride(client: string, enabled: bool, val: Int32, step: bool, answer: Int32)
      returns (rc: Int32)
      requires Valid() && (hasCallback || forceActive)
      modifies this
      ensures Valid()
      ensures (Abs(), rc) == OverrideStep(old(Abs()), client, enabled, val, step, answer)
    {
      rc := 0;
      if forceActive {
        overrideResult := if enabled then val else MINUS_EINVAL;
        return;
      }
      if enabled {
        Callback(val, Some(client), step);
        rc := answer;
        if rc == 0 {
          overrideClient := Some(client);
          overrideResult := val;
        }
      } else {
        var winner := ClientString(effectiveId);
        Callback(effectiveResult, winner, step);
        rc := answer;
        overrideResult := MINUS_EINVAL;
      }
    }

    method GetEffectiveResult() returns (r: Int32)
      ensures r == Visible(Abs())
    {
      if forceActive {
        return ToInt32(forceVal);
      }
      if overrideResult != MINUS_EINVAL {
        return overrideResult;
      }
      return effectiveResult;
    }

    method RerunElection(step: bool, answer: Int32) returns (rc: Int32)
      requires Valid()
      modifies this`calls
      ensures Valid()
      ensures (Abs(), rc) == RerunStep(old(Abs()), step, answer)
    {
      rc := 0;
      var result := GetEffectiveResult();
      if hasCallback {
        var winner := ClientString(effectiveId);
        Callback(result, winner, step);
        rc := answer;
      }
    }

    method ForceActiveSet(on: bool, answer: Int32) returns (rc: Int32)
      requires Valid()
      modifies this
      ensures Valid()
      ensures (Abs(), rc) == ForceStep(old(Abs()), on, answer)
    {
      rc := 0;
      forceActive := on;
      if !hasCallback {
        return;
      }
      if forceActive {
        Callback(ToInt32(forceVal), Some(DEBUG_FORCE_CLIENT), false);
      } else {
        var result := effectiveResult;
        var client := ClientString(effectiveId);
        if overrideResult != MINUS_EINVAL {
          result := overrideResult;
          client := overrideClient;
        }
        Callback(result, client, false);
      }
      rc := answer;
    }

    /** Asks whether a client is enabled; an unknown client gains a slot. */
    method IsClientVoteEnabled(name: string, allocOk: bool) returns (enabled: bool)
      requires Valid()
      modifies clients
      ensures Valid()
      ensures Abs() == QueryStep(old(Abs()), name, allocOk)
      ensures var l := Voter.GetClientId(old(clients[..]), name, allocOk);
              enabled == (l.id >= 0 && votes[l.id].enabled)
    {
      var id := GetClientId(name, allocOk);
      if id < 0 {
        return false;
      }
      return votes[id].enabled;
    }

    /** Asks for a client's voted value; an unknown client gains a slot. */
    method GetClientVote(name: string, allocOk: bool) returns (value: Int32)
      requires Valid()
      modifies clients
      ensures Valid()
      ensures Abs() == QueryStep(old(Abs()), name, allocOk)
      ensures value == ClientVoteOf(old(Abs()), name, allocOk)
    {
      var id := GetClientId(name, allocOk);
      if id < 0 {
        return MINUS_EINVAL;
      }
      if kind != SetAny && !votes[id].enabled {
        return MINUS_EINVAL;
      }
      return votes[id].value;
    }
  }
}
