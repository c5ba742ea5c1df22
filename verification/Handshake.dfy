/** The command handshake between the kernel and user space. Any number of writers
    each post one command and wait for an acknowledgement or a timeout; readers wait
    for a command and copy it out. The locks are modelled, so that every interleaving
    of the individual memory accesses is a run. */
module Handshake {

  const CHG_CMD_DATA_LEN := 256

  type Byte = x: int | 0 <= x < 256
  type Tid = nat

  datatype Command = Command(cmd: nat, size: nat, data: seq<Byte>)

  function Zeros(n: nat): (z: seq<Byte>)
    ensures |z| == n && forall i :: 0 <= i < n ==> z[i] == 0
  {
    if n == 0 then [] else [0] + Zeros(n - 1)
  }

  const BLANK := Command(0, 0, Zeros(CHG_CMD_DATA_LEN))

  /** What a writer asks to be delivered: its payload, zero-filled to the buffer size. */
  function Posted(cmd: nat, payload: seq<Byte>): (c: Command)
    requires |payload| <= CHG_CMD_DATA_LEN
    ensures |c.data| == CHG_CMD_DATA_LEN
    ensures c.data[..|payload|] == payload
    ensures forall i :: |payload| <= i < CHG_CMD_DATA_LEN ==> c.data[i] == 0
  {
    Command(cmd, |payload|, payload + Zeros(CHG_CMD_DATA_LEN - |payload|))
  }

  /** Where a writer is. It holds the acknowledge lock from `Clearing` to `Waiting`
      and the data lock from `Clearing` to `Flagging`. */
  datatype Writer =
    | AtAckLock(cmd: nat, payload: seq<Byte>)
    | AtDataLock(cmd: nat, payload: seq<Byte>)
    | Clearing(cmd: nat, payload: seq<Byte>)
    | FillingHeader(cmd: nat, payload: seq<Byte>)
    | FillingData(cmd: nat, payload: seq<Byte>)
    | Flagging(cmd: nat, payload: seq<Byte>)
    | Waiting

  /** Where a reader is. It holds the data lock from `Lowering` to `Copying`, which
      remembers whether the flag it lowered was up. */
  datatype Reader =
    | AtWait
    | AtTake
    | Lowering
    | Copying(wasUp: bool)

  datatype Holder = Free | ByWriter(w: Tid) | ByReader(r: Tid)

  /** The shared device, the threads, and two histories: the commands completely
      posted, and for each delivery what was delivered and which posting it was. */
  datatype State = State(
    ready: bool,
    dataOk: bool,
    slot: Command,
    ackLock: Holder,
    dataLock: Holder,
    writers: map<Tid, Writer>,
    readers: map<Tid, Reader>,
    posted: seq<Command>,
    delivered: seq<Command>,
    picks: seq<nat>)

  const START := State(false, false, BLANK, Free, Free, map[], map[], [], [], [])

  datatype Action =
    | SetCmd(w: Tid, cmd: nat, payload: seq<Byte>)  // enter oplus_chg_common_set_mutual_cmd
    | WriterStep(w: Tid)                            // its next memory access or lock
    | Finish(w: Tid)                                // acknowledged or timed out
    | SendCmd(r: Tid)                               // enter oplus_chg_comm_send_mutual_cmd
    | ReaderStep(r: Tid)
    | Interrupt(r: Tid)                             // the wait is interrupted

  function SetWriter(s: State, w: Tid, pc: Writer): State
  {
    s.(writers := s.writers[w := pc])
  }

  function SetReader(s: State, r: Tid, pc: Reader): State
  {
    s.(readers := s.readers[r := pc])
  }

  predicate Enabled(s: State, a: Action)
  {
    match a
    case SetCmd(w, _, _) => w !in s.writers
    case WriterStep(w) =>
      && w in s.writers && !s.writers[w].Waiting?
      && (s.writers[w].AtAckLock? ==> s.ackLock == Free)
      && (s.writers[w].AtDataLock? ==> s.dataLock == Free)
    case Finish(w) => w in s.writers && s.writers[w].Waiting?
    case SendCmd(r) => r !in s.readers
    case ReaderStep(r) =>
      && r in s.readers
      && (s.readers[r].AtWait? ==> s.dataOk)
      && (s.readers[r].AtTake? ==> s.dataLock == Free)
    case Interrupt(r) => r in s.readers && s.readers[r].AtWait?
  }

  /** A call is turned away when its payload is too long or user space never called. */
  predicate TurnedAway(s: State, payload: seq<Byte>)
  {
    |payload| > CHG_CMD_DATA_LEN || !s.ready
  }

  function WriterNext(s: State, w: Tid): State
    requires w in s.writers
  {
    match s.writers[w]
    case AtAckLock(cmd, p) => SetWriter(s.(ackLock := ByWriter(w)), w, AtDataLock(cmd, p))
    case AtDataLock(cmd, p) => SetWriter(s.(dataLock := ByWriter(w)), w, Clearing(cmd, p))
    case Clearing(cmd, p) => SetWriter(s.(slot := BLANK), w, FillingHeader(cmd, p))
    case FillingHeader(cmd, p) => SetWriter(s.(slot := s.slot.(cmd := cmd, size := |p|)), w, FillingData(cmd, p))
    case FillingData(cmd, p) =>
      var data := p + if |p| <= |s.slot.data| then s.slot.data[|p|..] else [];
      SetWriter(s.(slot := s.slot.(data := data)), w, Flagging(cmd, p))
    case Flagging(cmd, p) =>
      SetWriter(s.(dataOk := true, dataLock := Free, posted := s.posted + [s.slot]), w, Waiting)
    case Waiting => s
  }

  function ReaderNext(s: State, r: Tid): State
    requires r in s.readers
  {
    match s.readers[r]
    case AtWait => SetReader(s, r, AtTake)
    case AtTake => SetReader(s.(dataLock := ByReader(r)), r, Lowering)
    case Lowering => SetReader(s.(dataOk := false), r, Copying(s.dataOk))
    case Copying(_) =>
      s.(dataLock := Free, readers := s.readers - {r}, delivered := s.delivered + [s.slot],
         picks := s.picks + [if |s.posted| == 0 then 0 else |s.posted| - 1])
  }

  function Next(s: State, a: Action): State
    requires Enabled(s, a)
  {
    match a
    case SetCmd(w, cmd, p) => if TurnedAway(s, p) then s else SetWriter(s, w, AtAckLock(cmd, p))
    case WriterStep(w) => WriterNext(s, w)
    case Finish(w) => s.(ackLock := Free, writers := s.writers - {w})
    case SendCmd(r) => SetReader(s.(ready := true), r, AtWait)
    case ReaderStep(r) => ReaderNext(s, r)
    case Interrupt(r) => s.(readers := s.readers - {r})
  }

  predicate Possible(s: State, run: seq<Action>)
    decreases run
  {
    run == [] || (Enabled(s, run[0]) && Possible(Next(s, run[0]), run[1..]))
  }

  function Run(s: State, run: seq<Action>): State
    requires Possible(s, run)
    decreases run
  {
    if run == [] then s else Run(Next(s, run[0]), run[1..])
  }

  /** The command an action asks for, unless it is turned away. */
  function AskedBy(s: State, a: Action): multiset<Command>
  {
    if a.SetCmd? && !TurnedAway(s, a.payload) then multiset{Posted(a.cmd, a.payload)} else multiset{}
  }

  /** The commands the run's writers asked for and were not turned away with. */
  function Asked(s: State, run: seq<Action>): multiset<Command>
    requires Possible(s, run)
    decreases run
  {
    if run == [] then multiset{} else AskedBy(s, run[0]) + Asked(Next(s, run[0]), run[1..])
  }

  // ---------------------------------------------------------------- the locks

  predicate HoldsAck(pc: Writer)
  {
    !pc.AtAckLock?
  }

  predicate WriterHoldsData(pc: Writer)
  {
    pc.Clearing? || pc.FillingHeader? || pc.FillingData? || pc.Flagging?
  }

  predicate ReaderHoldsData(pc: Reader)
  {
    pc.Lowering? || pc.Copying?
  }

  /** The acknowledge lock is held by exactly the writers past it. */
  ghost predicate AckAgrees(s: State)
  {
    && (forall w :: w in s.writers ==> (HoldsAck(s.writers[w]) <==> s.ackLock == ByWriter(w)))
    && (s.ackLock.ByWriter? ==> s.ackLock.w in s.writers)
    && !s.ackLock.ByReader?
  }

  /** The data lock is held by exactly the thread inside its critical section. */
  ghost predicate DataAgrees(s: State)
  {
    && (forall w :: w in s.writers ==> (WriterHoldsData(s.writers[w]) <==> s.dataLock == ByWriter(w)))
    && (forall r :: r in s.readers ==> (ReaderHoldsData(s.readers[r]) <==> s.dataLock == ByReader(r)))
    && (s.dataLock.ByWriter? ==> s.dataLock.w in s.writers)
    && (s.dataLock.ByReader? ==> s.dataLock.r in s.readers)
  }

  /** What the shared slot holds at each point of the writer that owns it, and that
      no waiting writer carries an oversized payload. */
  ghost predicate SlotAgrees(s: State)
  {
    && |s.slot.data| == CHG_CMD_DATA_LEN
    && (forall w :: w in s.writers && !s.writers[w].Waiting? ==> |s.writers[w].payload| <= CHG_CMD_DATA_LEN)
    && (s.dataLock.ByWriter? && s.dataLock.w in s.writers ==>
          match s.writers[s.dataLock.w]
          case FillingHeader(_, _) => s.slot == BLANK
          case FillingData(cmd, p) => s.slot == BLANK.(cmd := cmd, size := |p|)
          case Flagging(cmd, p) => s.slot == Posted(cmd, p)
          case _ => true)
    && (!s.dataLock.ByWriter? && s.posted != [] ==> s.slot == s.posted[|s.posted| - 1])
    && (s.dataOk ==> s.posted != [])
  }

  /** Every delivery names an earlier posting, and is that posting. */
  ghost predicate DeliveredPosted(s: State)
  {
    && |s.picks| == |s.delivered|
    && forall k :: 0 <= k < |s.picks| ==> s.picks[k] < |s.posted| && s.delivered[k] == s.posted[s.picks[k]]
  }

  /** A reader that woke up has seen a posting; the flag never goes up without one. */
  ghost predicate WokenReaders(s: State)
  {
    forall r :: r in s.readers && !s.readers[r].AtWait? ==> s.posted != []
  }

  ghost predicate Inv(s: State)
  {
    AckAgrees(s) && DataAgrees(s) && SlotAgrees(s) && DeliveredPosted(s) && WokenReaders(s)
  }

  lemma StartInv(only: Tid)
    ensures Inv(START) && Fresh(START, only) && Accounted(START, multiset{})
  {
  }

  lemma WriterKeepsAck(s: State, w: Tid)
    requires AckAgrees(s) && Enabled(s, WriterStep(w))
    ensures AckAgrees(WriterNext(s, w))
  {
  }

  lemma WriterKeepsData(s: State, w: Tid)
    requires DataAgrees(s) && Enabled(s, WriterStep(w))
    ensures DataAgrees(WriterNext(s, w))
  {
  }

  lemma WriterKeepsSlot(s: State, w: Tid)
    requires Inv(s) && Enabled(s, WriterStep(w))
    ensures SlotAgrees(WriterNext(s, w))
  {
    if s.writers[w].FillingData? {
      var p := s.writers[w].payload;
      assert s.dataLock == ByWriter(w);
      assert p + s.slot.data[|p|..] == Posted(s.writers[w].cmd, p).data;
    }
  }

  lemma WriterKeepsInv(s: State, w: Tid)
    requires Inv(s) && Enabled(s, WriterStep(w))
    ensures Inv(WriterNext(s, w))
  {
    WriterKeepsAck(s, w);
    WriterKeepsData(s, w);
    WriterKeepsSlot(s, w);
    WriterKeepsHistory(s, w);
  }

  lemma WriterKeepsHistory(s: State, w: Tid)
    requires DeliveredPosted(s) && WokenReaders(s) && w in s.writers
    ensures DeliveredPosted(WriterNext(s, w)) && WokenReaders(WriterNext(s, w))
  {
    var s' := WriterNext(s, w);
    assert s'.picks == s.picks && s'.delivered == s.delivered && s'.readers == s.readers;
    assert |s.posted| <= |s'.posted| && s'.posted[..|s.posted|] == s.posted;
  }

  lemma ReaderKeepsLocks(s: State, r: Tid)
    requires AckAgrees(s) && DataAgrees(s) && Enabled(s, ReaderStep(r))
    ensures AckAgrees(ReaderNext(s, r)) && DataAgrees(ReaderNext(s, r))
  {
  }

  lemma ReaderKeepsInv(s: State, r: Tid)
    requires Inv(s) && Enabled(s, ReaderStep(r))
    ensures Inv(ReaderNext(s, r))
  {
    ReaderKeepsLocks(s, r);
    assert s.readers[r].Copying? ==> s.dataLock == ByReader(r);
  }

  lemma NextKeepsInv(s: State, a: Action)
    requires Inv(s) && Enabled(s, a)
    ensures Inv(Next(s, a))
  {
    match a
    case WriterStep(w) => WriterKeepsInv(s, w);
    case ReaderStep(r) => ReaderKeepsInv(s, r);
    case _ =>
  }

  // --------------------------------------------------- any number of readers

  /** The newest posting has not been picked up by any reader. */
  ghost predicate Unpicked(s: State)
  {
    s.posted != [] && (s.picks == [] || s.picks[|s.picks| - 1] < |s.posted| - 1)
  }

  /** The newest posting is unpicked exactly while the flag is up or the reader that
      lowered it has yet to copy; picks never go back. */
  ghost predicate Ledger(s: State)
  {
    && (forall i, j :: 0 <= i < j < |s.picks| ==> s.picks[i] <= s.picks[j])
    && (Unpicked(s) <==>
        s.dataOk || (s.dataLock.ByReader? && s.dataLock.r in s.readers && s.readers[s.dataLock.r] == Copying(true)))
    && (forall r :: r in s.readers && s.readers[r].Copying? ==> !s.dataOk)
  }

  lemma FlagKeepsLedger(s: State, w: Tid)
    requires DataAgrees(s) && DeliveredPosted(s) && Ledger(s) && w in s.writers && s.writers[w].Flagging?
    ensures Ledger(WriterNext(s, w))
  {
    assert s.dataLock == ByWriter(w);
  }

  lemma FillKeepsLedger(s: State, w: Tid)
    requires Ledger(s) && Enabled(s, WriterStep(w)) && !s.writers[w].Flagging?
    ensures Ledger(WriterNext(s, w))
  {
  }

  lemma WriterKeepsLedger(s: State, w: Tid)
    requires Inv(s) && Ledger(s) && Enabled(s, WriterStep(w))
    ensures Ledger(WriterNext(s, w))
  {
    if s.writers[w].Flagging? {
      FlagKeepsLedger(s, w);
    } else {
      FillKeepsLedger(s, w);
    }
  }

  lemma ReaderKeepsLedger(s: State, r: Tid)
    requires Inv(s) && Ledger(s) && Enabled(s, ReaderStep(r))
    ensures Ledger(ReaderNext(s, r))
  {
  }

  lemma NextKeepsLedger(s: State, a: Action)
    requires Inv(s) && Ledger(s) && Enabled(s, a)
    ensures Ledger(Next(s, a))
  {
    match a
    case WriterStep(w) => WriterKeepsLedger(s, w);
    case ReaderStep(r) => ReaderKeepsLedger(s, r);
    case _ =>
  }

  /** With any number of readers, a delivery repeats the previous one exactly when its
      reader lowered a flag that was already down. */
  lemma DeliveryRepeatsIff(s: State, r: Tid)
    requires Inv(s) && Ledger(s) && r in s.readers && s.readers[r].Copying?
    ensures var p := ReaderNext(s, r).picks;
            s.picks != [] && p[|s.picks|] == s.picks[|s.picks| - 1] <==> !s.readers[r].wasUp
  {
  }

  // ------------------------------------------------------------ one reader

  /** Only reader `only` ever calls. */
  predicate OneReader(run: seq<Action>, only: Tid)
  {
    forall i :: 0 <= i < |run| ==> (run[i].SendCmd? || run[i].ReaderStep? || run[i].Interrupt? ==> run[i].r == only)
  }

  ghost predicate Increasing(picks: seq<nat>)
  {
    forall i, j :: 0 <= i < j < |picks| ==> picks[i] < picks[j]
  }

  /** A single reader past its wait finds the flag still up. */
  ghost predicate Fresh(s: State, only: Tid)
  {
    && Ledger(s)
    && Increasing(s.picks)
    && (forall r :: r in s.readers ==> r == only)
    && (only in s.readers && (s.readers[only].AtTake? || s.readers[only].Lowering?) ==> s.dataOk)
    && (only in s.readers && s.readers[only].Copying? ==> s.readers[only].wasUp)
  }

  /** A writer touches no reader and no pick, and never lowers the flag. */
  lemma WriterFrame(s: State, w: Tid)
    requires w in s.writers
    ensures var s' := WriterNext(s, w);
            s'.readers == s.readers && s'.picks == s.picks && (s.dataOk ==> s'.dataOk)
  {
  }

  lemma ReaderKeepsFresh(s: State, only: Tid)
    requires Inv(s) && Fresh(s, only) && Enabled(s, ReaderStep(only)) && Ledger(ReaderNext(s, only))
    ensures Fresh(ReaderNext(s, only), only)
  {
    if s.readers[only].Copying? {
      assert s.dataLock == ByReader(only);
      assert Unpicked(s);
    }
  }

  lemma NextKeepsFresh(s: State, a: Action, only: Tid)
    requires Inv(s) && Fresh(s, only) && Enabled(s, a) && OneReader([a], only)
    ensures Fresh(Next(s, a), only)
  {
    assert [a][0] == a;
    NextKeepsLedger(s, a);
    match a
    case WriterStep(w) => WriterFrame(s, w);
    case ReaderStep(_) => ReaderKeepsFresh(s, only);
    case _ =>
  }

  /** Main theorem: with one reader and any number of writers, under every
      interleaving and whatever times out, the deliveries are a strictly increasing
      selection of the postings, each exactly as posted; so none is delivered twice. */
  lemma {:induction false} DeliveriesAreSubsequence(s: State, run: seq<Action>, only: Tid)
    requires Inv(s) && Fresh(s, only) && Possible(s, run) && OneReader(run, only)
    ensures var s' := Run(s, run);
            Inv(s') && Fresh(s', only) && Increasing(s'.picks) && DeliveredPosted(s')
    decreases run
  {
    if run != [] {
      assert OneReader([run[0]], only);
      NextKeepsInv(s, run[0]);
      NextKeepsFresh(s, run[0], only);
      DeliveriesAreSubsequence(Next(s, run[0]), run[1..], only);
    }
  }

  // --------------------------------------- what is posted is what was asked

  /** The writer still has this command to post. */
  predicate Carries(pc: Writer, c: Command)
  {
    !pc.Waiting? && |pc.payload| <= CHG_CMD_DATA_LEN && Posted(pc.cmd, pc.payload) == c
  }

  function Carriers(writers: map<Tid, Writer>, c: Command): set<Tid>
  {
    set w | w in writers && Carries(writers[w], c)
  }

  /** Every request is accounted for: posted once, or still carried by its writer. */
  ghost predicate Accounted(s: State, asked: multiset<Command>)
  {
    forall c :: multiset(s.posted)[c] + |Carriers(s.writers, c)| == asked[c]
  }

  lemma CarriersWith(writers: map<Tid, Writer>, w: Tid, pc: Writer, c: Command)
    ensures Carriers(writers[w := pc], c) == (Carriers(writers, c) - {w}) + (if Carries(pc, c) then {w} else {})
  {
  }

  lemma CarriersWithout(writers: map<Tid, Writer>, w: Tid, c: Command)
    ensures Carriers(writers - {w}, c) == Carriers(writers, c) - {w}
  {
  }

  /** A writer about to raise the flag has filled the slot with its own command. */
  lemma FilledBeforeFlag(s: State, w: Tid)
    requires Inv(s) && w in s.writers && s.writers[w].Flagging?
    ensures Carries(s.writers[w], s.slot)
  {
    assert s.dataLock == ByWriter(w);
  }

  lemma CarrierLeaves(writers: map<Tid, Writer>, w: Tid, x: Command, c: Command)
    requires w in writers && Carries(writers[w], x)
    ensures |Carriers(writers, c)| == |Carriers(writers[w := Waiting], c)| + if c == x then 1 else 0
  {
    CarriersWith(writers, w, Waiting, c);
    assert w in Carriers(writers, c) <==> c == x;
  }

  lemma FlagStep(s: State, w: Tid)
    requires w in s.writers && s.writers[w].Flagging?
    ensures var s' := WriterNext(s, w);
            s'.posted == s.posted + [s.slot] && s'.writers == s.writers[w := Waiting]
  {
  }

  lemma FlagAccounts(s: State, w: Tid, c: Command)
    requires w in s.writers && s.writers[w].Flagging? && Carries(s.writers[w], s.slot)
    ensures var s' := WriterNext(s, w);
            multiset(s'.posted)[c] + |Carriers(s'.writers, c)| == multiset(s.posted)[c] + |Carriers(s.writers, c)|
  {
    FlagStep(s, w);
    CarrierLeaves(s.writers, w, s.slot, c);
    assert multiset(s.posted + [s.slot]) == multiset(s.posted) + multiset{s.slot};
  }

  /** Between entry and the flag a writer's command does not change. */
  lemma FillKeepsCommand(s: State, w: Tid)
    requires w in s.writers && !s.writers[w].Flagging?
    ensures var s' := WriterNext(s, w);
            && s'.posted == s.posted && w in s'.writers && s'.writers == s.writers[w := s'.writers[w]]
            && (s'.writers[w].Waiting? <==> s.writers[w].Waiting?)
            && (!s.writers[w].Waiting? ==>
                  s'.writers[w].cmd == s.writers[w].cmd && s'.writers[w].payload == s.writers[w].payload)
  {
  }

  lemma FillAccounts(s: State, w: Tid, c: Command)
    requires w in s.writers && !s.writers[w].Flagging?
    ensures WriterNext(s, w).posted == s.posted && Carriers(WriterNext(s, w).writers, c) == Carriers(s.writers, c)
  {
    FillKeepsCommand(s, w);
    CarriersWith(s.writers, w, WriterNext(s, w).writers[w], c);
  }

  lemma EntryAccounts(s: State, a: Action, c: Command)
    requires a.SetCmd? && Enabled(s, a)
    ensures Next(s, a).posted == s.posted
    ensures |Carriers(Next(s, a).writers, c)| == |Carriers(s.writers, c)| + AskedBy(s, a)[c]
  {
    CarriersWith(s.writers, a.w, AtAckLock(a.cmd, a.payload), c);
    assert a.w !in Carriers(s.writers, c);
  }

  lemma OtherAccounts(s: State, a: Action, c: Command)
    requires Enabled(s, a) && !a.SetCmd? && !a.WriterStep?
    ensures Next(s, a).posted == s.posted && Carriers(Next(s, a).writers, c) == Carriers(s.writers, c)
  {
    if a.Finish? {
      CarriersWithout(s.writers, a.w, c);
      assert a.w !in Carriers(s.writers, c);
    }
  }

  lemma NextAccounts(s: State, a: Action, asked: multiset<Command>)
    requires Inv(s) && Enabled(s, a) && Accounted(s, asked)
    ensures Accounted(Next(s, a), asked + AskedBy(s, a))
  {
    var s' := Next(s, a);
    forall c ensures multiset(s'.posted)[c] + |Carriers(s'.writers, c)| == (asked + AskedBy(s, a))[c] {
      match a
      case SetCmd(_, _, _) => EntryAccounts(s, a, c);
      case WriterStep(w) =>
        if s.writers[w].Flagging? {
          FilledBeforeFlag(s, w);
          FlagAccounts(s, w, c);
        } else {
          FillAccounts(s, w, c);
        }
      case _ => OtherAccounts(s, a, c);
    }
  }

  /** Main theorem: with any number of writers and readers, every request is posted at
      most once, byte for byte, and nothing is posted or delivered that no writer of the
      run asked for. */
  lemma {:induction false} DeliveredWereAsked(s: State, run: seq<Action>, asked: multiset<Command>)
    requires Inv(s) && Accounted(s, asked) && Possible(s, run)
    ensures Inv(Run(s, run)) && Accounted(Run(s, run), asked + Asked(s, run))
    ensures multiset(Run(s, run).posted) <= asked + Asked(s, run)
    ensures var d := Run(s, run).delivered;
            forall k :: 0 <= k < |d| ==> d[k] in asked + Asked(s, run)
    decreases run
  {
    if run == [] {
      assert asked + Asked(s, run) == asked;
      forall k | 0 <= k < |s.delivered| ensures s.delivered[k] in asked {
        assert s.delivered[k] in multiset(s.posted);
      }
    } else {
      var a := run[0];
      NextKeepsInv(s, a);
      NextAccounts(s, a, asked);
      DeliveredWereAsked(Next(s, a), run[1..], asked + AskedBy(s, a));
      assert asked + AskedBy(s, a) + Asked(Next(s, a), run[1..]) == asked + Asked(s, run);
    }
  }

  /** A strictly increasing selection repeats nothing. */
  lemma {:induction false} SelectionIsWithin(posted: seq<Command>, picks: seq<nat>, delivered: seq<Command>)
    requires |picks| == |delivered| && Increasing(picks)
    requires forall k :: 0 <= k < |picks| ==> picks[k] < |posted| && delivered[k] == posted[picks[k]]
    ensures multiset(delivered) <= multiset(posted)
    decreases picks
  {
    if picks != [] {
      var n := |picks| - 1;
      var p := picks[n];
      SelectionIsWithin(posted[..p], picks[..n], delivered[..n]);
      TakeOne(delivered, n);
      TakeOne(posted, p);
    }
  }

  /** A prefix and the next element are part of the whole. */
  lemma TakeOne(s: seq<Command>, n: nat)
    requires n < |s|
    ensures multiset(s[..n]) + multiset{s[n]} <= multiset(s)
    ensures n == |s| - 1 ==> multiset(s[..n]) + multiset{s[n]} == multiset(s)
  {
    assert s == s[..n] + ([s[n]] + s[n + 1..]);
  }

  /** Main theorem: with one reader, from the start, no request is delivered more often
      than it was made. */
  lemma DeliveredAtMostOnce(run: seq<Action>, only: Tid)
    requires Possible(START, run) && OneReader(run, only)
    ensures multiset(Run(START, run).delivered) <= Asked(START, run)
  {
    StartInv(only);
    DeliveriesAreSubsequence(START, run, only);
    DeliveredWereAsked(START, run, multiset{});
    var s := Run(START, run);
    SelectionIsWithin(s.posted, s.picks, s.delivered);
  }

  // ------------------------------------------------- two readers can repeat

  lemma RunCons(s: State, a: Action, rest: seq<Action>)
    requires Enabled(s, a) && Possible(Next(s, a), rest)
    ensures Possible(s, [a] + rest) && Run(s, [a] + rest) == Run(Next(s, a), rest)
  {
    assert ([a] + rest)[1..] == rest;
  }

  lemma {:induction false} RunConcat(s: State, a: seq<Action>, b: seq<Action>)
    requires Possible(s, a) && Possible(Run(s, a), b)
    ensures Possible(s, a + b) && Run(s, a + b) == Run(Run(s, a), b)
    decreases a
  {
    if a == [] {
      assert a + b == b;
    } else {
      RunConcat(Next(s, a[0]), a[1..], b);
      assert a + b == [a[0]] + (a[1..] + b);
      RunCons(s, a[0], a[1..] + b);
    }
  }

  /** A reader that finds the data lock free delivers the slot in three steps. */
  lemma OneDelivery(s: State, r: Tid) returns (run: seq<Action>)
    requires s.dataLock == Free && r in s.readers && s.readers[r].AtTake? && s.posted != []
    ensures Possible(s, run)
    ensures Run(s, run) ==
            s.(dataOk := false, readers := s.readers - {r},
               delivered := s.delivered + [s.slot], picks := s.picks + [|s.posted| - 1])
  {
    var a := ReaderStep(r);
    var s1 := Next(s, a);
    var s2 := Next(s1, a);
    var s3 := Next(s2, a);
    assert s3.readers == s.readers - {r};
    RunCons(s2, a, []);
    RunCons(s1, a, [a] + []);
    RunCons(s, a, [a] + ([a] + []));
    run := [a] + ([a] + ([a] + []));
  }

  /** The wait and the copy are under different locks, so two readers that both woke for
      one posting both deliver it. */
  lemma TwoReadersDeliverTwice(s: State, r: Tid, q: Tid) returns (run: seq<Action>)
    requires Inv(s) && r != q && s.dataLock == Free
    requires r in s.readers && q in s.readers && s.readers[r].AtTake? && s.readers[q].AtTake?
    ensures Possible(s, run)
    ensures var s' := Run(s, run);
            && s'.posted == s.posted
            && s'.picks == s.picks + [|s.posted| - 1, |s.posted| - 1]
            && s'.delivered == s.delivered + [s.slot, s.slot]
  {
    var first := OneDelivery(s, r);
    var second := OneDelivery(Run(s, first), q);
    RunConcat(s, first, second);
    run := first + second;
  }

  /** A writer that finds both locks free takes them in two steps. */
  lemma WriterEnters(s: State, w: Tid) returns (run: seq<Action>)
    requires w in s.writers && s.writers[w].AtAckLock? && s.ackLock == Free && s.dataLock == Free
    ensures Possible(s, run)
    ensures Run(s, run) ==
            SetWriter(s.(ackLock := ByWriter(w), dataLock := ByWriter(w)),
                      w, Clearing(s.writers[w].cmd, s.writers[w].payload))
  {
    var a := WriterStep(w);
    var s1 := Next(s, a);
    var s2 := Next(s1, a);
    assert s2.writers == s.writers[w := Clearing(s.writers[w].cmd, s.writers[w].payload)];
    RunCons(s1, a, []);
    RunCons(s, a, [a] + []);
    run := [a] + ([a] + []);
  }

  /** From there four steps fill the slot and raise the flag. */
  lemma WriterFills(s: State, w: Tid) returns (run: seq<Action>)
    requires w in s.writers && s.writers[w].Clearing? && |s.writers[w].payload| <= CHG_CMD_DATA_LEN
    ensures Possible(s, run)
    ensures var c := Posted(s.writers[w].cmd, s.writers[w].payload);
            Run(s, run) ==
            SetWriter(s.(slot := c, dataOk := true, dataLock := Free, posted := s.posted + [c]), w, Waiting)
  {
    var a := WriterStep(w);
    var cmd, p := s.writers[w].cmd, s.writers[w].payload;
    var s1 := Next(s, a);
    var s2 := Next(s1, a);
    var s3 := Next(s2, a);
    var s4 := Next(s3, a);
    assert s3.slot == Posted(cmd, p);
    assert s4.writers == s.writers[w := Waiting];
    RunCons(s3, a, []);
    RunCons(s2, a, [a] + []);
    RunCons(s1, a, [a] + ([a] + []));
    RunCons(s, a, [a] + ([a] + ([a] + [])));
    run := [a] + ([a] + ([a] + ([a] + [])));
  }

  /** Two readers wait, a writer posts, and both wake. */
  lemma BothWake(w: Tid, r: Tid, q: Tid, cmd: nat, payload: seq<Byte>) returns (run: seq<Action>)
    requires r != q && |payload| <= CHG_CMD_DATA_LEN
    ensures Possible(START, run)
    ensures var s, c := Run(START, run), Posted(cmd, payload);
            && s.dataLock == Free && s.slot == c && s.posted == [c] && s.delivered == []
            && r in s.readers && q in s.readers && s.readers[r].AtTake? && s.readers[q].AtTake?
  {
    var enter := [SendCmd(r)] + ([SendCmd(q)] + ([SetCmd(w, cmd, payload)] + []));
    var s1 := Next(START, SendCmd(r));
    var s2 := Next(s1, SendCmd(q));
    var s3 := Next(s2, SetCmd(w, cmd, payload));
    RunCons(s2, SetCmd(w, cmd, payload), []);
    RunCons(s1, SendCmd(q), [SetCmd(w, cmd, payload)] + []);
    RunCons(START, SendCmd(r), [SendCmd(q)] + ([SetCmd(w, cmd, payload)] + []));
    var lock := WriterEnters(s3, w);
    var fill := WriterFills(Run(s3, lock), w);
    RunConcat(s3, lock, fill);
    var wake := TwoWake(Run(s3, lock + fill), r, q);
    RunConcat(s3, lock + fill, wake);
    RunConcat(START, enter, lock + fill + wake);
    run := enter + (lock + fill + wake);
  }

  lemma TwoWake(s: State, r: Tid, q: Tid) returns (run: seq<Action>)
    requires r != q && r in s.readers && q in s.readers && s.readers[r].AtWait? && s.readers[q].AtWait? && s.dataOk
    ensures Possible(s, run) && Run(s, run) == s.(readers := s.readers[r := AtTake][q := AtTake])
  {
    var s1 := Next(s, ReaderStep(r));
    RunCons(s1, ReaderStep(q), []);
    RunCons(s, ReaderStep(r), [ReaderStep(q)] + []);
    run := [ReaderStep(r)] + ([ReaderStep(q)] + []);
  }

  /** So with two readers delivery at most once fails from the start: for every command
      there is a run that posts it once and delivers it twice. */
  lemma OneRequestTwoDeliveries(w: Tid, r: Tid, q: Tid, cmd: nat, payload: seq<Byte>) returns (run: seq<Action>)
    requires r != q && |payload| <= CHG_CMD_DATA_LEN
    ensures Possible(START, run)
    ensures var c := Posted(cmd, payload);
            Run(START, run).posted == [c] && Run(START, run).delivered == [c, c]
  {
    var before := BothWake(w, r, q, cmd, payload);
    StartInv(r);
    DeliveredWereAsked(START, before, multiset{});
    var twice := TwoReadersDeliverTwice(Run(START, before), r, q);
    RunConcat(START, before, twice);
    run := before + twice;
  }

  // ------------------------------------------------ deliveries, from the actions

  /** Everything asked for was asked by an action that some reader's call precedes. */
  lemma {:induction false} AskedByAction(s: State, run: seq<Action>, d: Command) returns (i: nat)
    requires Possible(s, run) && d in Asked(s, run)
    ensures i < |run| && run[i].SetCmd? && |run[i].payload| <= 256 && Posted(run[i].cmd, run[i].payload) == d
    ensures s.ready || exists j :: 0 <= j < i && run[j].SendCmd?
    decreases run
  {
    if d in AskedBy(s, run[0]) {
      i := 0;
    } else {
      var k := AskedByAction(Next(s, run[0]), run[1..], d);
      i := k + 1;
      ReadyNeedsSend(s, run[0]);
      if !s.ready && !run[0].SendCmd? {
        var j :| 0 <= j < k && run[1..][j].SendCmd?;
        assert run[j + 1].SendCmd?;
      }
    }
  }

  lemma ReadyNeedsSend(s: State, a: Action)
    requires Enabled(s, a)
    ensures Next(s, a).ready <==> s.ready || a.SendCmd?
  {
  }

  /** The command is delivered as the writer set it: number, size, bytes, and zeros after. */
  predicate AsSet(d: Command, a: Action)
  {
    && a.SetCmd? && d.cmd == a.cmd && d.size == |a.payload| <= |d.data| == 256
    && d.data[..d.size] == a.payload
    && forall i :: d.size <= i < 256 ==> d.data[i] == 0
  }

  /** Main theorem, on the actions alone: over every run from the start, with any readers
      and writers, each delivered command is one that an action of the run set, and some
      reader had called before that action. */
  lemma DeliveredAsSet(run: seq<Action>, k: nat)
    requires Possible(START, run) && k < |Run(START, run).delivered|
    ensures exists i, j :: 0 <= j < i < |run| && run[j].SendCmd? && AsSet(Run(START, run).delivered[k], run[i])
  {
    var d := Run(START, run).delivered[k];
    StartInv(0);
    DeliveredWereAsked(START, run, multiset{});
    assert multiset{} + Asked(START, run) == Asked(START, run);
    var i := AskedByAction(START, run, d);
    PostedAsSet(run[i]);
    var j :| 0 <= j < i && run[j].SendCmd?;
    assert AsSet(d, run[i]);
  }

  lemma PostedAsSet(a: Action)
    requires a.SetCmd? && |a.payload| <= 256
    ensures AsSet(Posted(a.cmd, a.payload), a)
  {
  }

  /** The gate: a call is accepted exactly when its payload fits and some reader called
      before; until then nothing is posted. */
  lemma {:induction false} ReadyIff(s: State, run: seq<Action>)
    requires Possible(s, run)
    ensures Run(s, run).ready <==> s.ready || exists j :: 0 <= j < |run| && run[j].SendCmd?
    decreases run
  {
    if run != [] {
      ReadyNeedsSend(s, run[0]);
      ReadyIff(Next(s, run[0]), run[1..]);
      if j :| 0 <= j < |run| && run[j].SendCmd? {
        assert j > 0 ==> run[1..][j - 1].SendCmd?;
      }
      if j :| 0 <= j < |run[1..]| && run[1..][j].SendCmd? {
        assert run[j + 1].SendCmd?;
      }
    }
  }

  lemma AcceptedIff(run: seq<Action>, a: Action)
    requires Possible(START, run) && a.SetCmd? && Enabled(Run(START, run), a)
    ensures var s := Run(START, run);
            if |a.payload| <= 256 && exists j :: 0 <= j < |run| && run[j].SendCmd?
            then Next(s, a).writers == s.writers[a.w := AtAckLock(a.cmd, a.payload)]
            else Next(s, a) == s
  {
    ReadyIff(START, run);
  }
}
