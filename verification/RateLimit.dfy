/** The upload limiter of the tracker's abnormal-event reports: a counter that is
    cleared when the last upload is more than a period ago, and blocks above a maximum. */
module RateLimit {

  const TRACK_SOFT_ABNORMAL_UPLOAD_PERIOD := 24 * 3600

  /** One work run: the clock at its start, the clock when it would upload, and
      whether the report passes the remaining guards. */
  datatype Request = Request(now: int, later: int, ready: bool)

  datatype State = State(count: int, lastUpload: int)

  const IDLE := State(0, 0)

  /** One work run and whether it uploads. */
  function Step(max: nat, s: State, q: Request): (State, bool)
  {
    var count := if q.now - s.lastUpload > TRACK_SOFT_ABNORMAL_UPLOAD_PERIOD then 0 else s.count;
    if count > max || !q.ready then (s.(count := count), false)
    else (State(count + 1, q.later), true)
  }

  class Limiter {
    const max: nat
    var uploadCount: int
    var preUploadTime: int

    ghost function Value(): State
      reads this
    {
      State(uploadCount, preUploadTime)
    }

    constructor (max: nat)
      ensures this.max == max && Value() == IDLE
    {
      this.max := max;
      uploadCount, preUploadTime := 0, 0;
    }

    method TryUpload(q: Request) returns (uploaded: bool)
      modifies this
      ensures (Value(), uploaded) == Step(max, old(Value()), q)
    {
      if q.now - preUploadTime > TRACK_SOFT_ABNORMAL_UPLOAD_PERIOD {
        uploadCount := 0;
      }
      if uploadCount > max {
        return false;
      }
      if !q.ready {
        return false;
      }
      uploadCount := uploadCount + 1;
      preUploadTime := q.later;
      return true;
    }
  }

  // --------------------------------------------------------- sliding windows

  /** Requests arrive one after another on a clock that does not run backwards. */
  ghost predicate ClockForward(qs: seq<Request>)
  {
    && (forall i :: 0 <= i < |qs| ==> qs[i].now <= qs[i].later)
    && (forall i :: 0 < i < |qs| ==> qs[i - 1].later <= qs[i].now)
  }

  function Run(max: nat, qs: seq<Request>): State
  {
    if qs == [] then IDLE else Step(max, Run(max, qs[..|qs| - 1]), qs[|qs| - 1]).0
  }

  /** The requests of a run that were uploaded. */
  function Uploads(max: nat, qs: seq<Request>): seq<Request>
  {
    if qs == [] then []
    else
      var n := |qs| - 1;
      Uploads(max, qs[..n]) + if Step(max, Run(max, qs[..n]), qs[n]).1 then [qs[n]] else []
  }

  /** How many uploads lead up to the last one without a gap of more than a period,
      from the previous upload to the start of the next work run. */
  function ChainBefore(ups: seq<Request>): (c: nat)
    requires ups != []
    ensures c < |ups|
  {
    var n := |ups| - 1;
    if n == 0 || ups[n].now - ups[n - 1].later > TRACK_SOFT_ABNORMAL_UPLOAD_PERIOD then 0
    else 1 + ChainBefore(ups[..n])
  }

  /** How many uploads lead up to `now` in this way. */
  function Chain(ups: seq<Request>, now: int): nat
  {
    if ups == [] || now - ups[|ups| - 1].later > TRACK_SOFT_ABNORMAL_UPLOAD_PERIOD then 0
    else 1 + ChainBefore(ups)
  }

  lemma ChainSnoc(ups: seq<Request>, q: Request)
    ensures ChainBefore(ups + [q]) == Chain(ups, q.now)
  {
    assert (ups + [q])[..|ups|] == ups;
  }

  /** The counter a work run sees, after its own clearing. */
  function SeenCount(s: State, now: int): int
  {
    if now - s.lastUpload > TRACK_SOFT_ABNORMAL_UPLOAD_PERIOD then 0 else s.count
  }

  lemma ClockPrefix(qs: seq<Request>, n: nat)
    requires ClockForward(qs) && n <= |qs|
    ensures ClockForward(qs[..n])
  {
  }

  /** The counter a later work run sees is the chain of uploads that leads up to it. */
  lemma {:induction false} CounterIsChain(max: nat, qs: seq<Request>, now: int)
    requires ClockForward(qs) && (qs != [] ==> qs[|qs| - 1].later <= now)
    ensures SeenCount(Run(max, qs), now) == Chain(Uploads(max, qs), now)
    ensures var ups := Uploads(max, qs); ups != [] ==> Run(max, qs).lastUpload == ups[|ups| - 1].later
    ensures Uploads(max, qs) == [] ==> Run(max, qs).count == 0
    decreases qs
  {
    if qs != [] {
      var n := |qs| - 1;
      var q, before := qs[n], Run(max, qs[..n]);
      ClockPrefix(qs, n);
      CounterIsChain(max, qs[..n], q.now);
      if Step(max, before, q).1 {
        ChainSnoc(Uploads(max, qs[..n]), q);
      } else {
        CounterIsChain(max, qs[..n], now);
        assert Uploads(max, qs) == Uploads(max, qs[..n]);
      }
    }
  }

  /** Main theorem: a request is uploaded exactly when it is ready and the chain of
      uploads leading up to it, each within a period of the next, is at most `max` long. */
  lemma UploadIff(max: nat, qs: seq<Request>, q: Request)
    requires ClockForward(qs) && (qs != [] ==> qs[|qs| - 1].later <= q.now)
    ensures Step(max, Run(max, qs), q).1 <==> q.ready && Chain(Uploads(max, qs), q.now) <= max
  {
    CounterIsChain(max, qs, q.now);
  }

  ghost predicate InOrder(ups: seq<Request>)
  {
    && (forall i :: 0 <= i < |ups| ==> ups[i].now <= ups[i].later)
    && (forall i, j :: 0 <= i < j < |ups| ==> ups[i].later <= ups[j].now)
  }

  /** Any two uploads more than `max` apart in the list are more than a period apart in time. */
  ghost predicate SpreadOut(max: nat, ups: seq<Request>)
  {
    forall i, j :: 0 <= i && i + max < j < |ups| ==>
      ups[j].later - ups[i].later > TRACK_SOFT_ABNORMAL_UPLOAD_PERIOD
  }

  lemma {:induction false} ChainBreak(ups: seq<Request>, i: nat)
    requires InOrder(ups) && ups != [] && i + ChainBefore(ups) < |ups| - 1
    ensures ups[|ups| - 1].later - ups[i].later > TRACK_SOFT_ABNORMAL_UPLOAD_PERIOD
    decreases |ups|
  {
    var n := |ups| - 1;
    if ups[n].now - ups[n - 1].later > TRACK_SOFT_ABNORMAL_UPLOAD_PERIOD {
      assert i < n - 1 ==> ups[i].later <= ups[n - 1].now;
    } else {
      ChainBreak(ups[..n], i);
    }
  }

  lemma {:induction false} UploadsSpread(max: nat, qs: seq<Request>)
    requires ClockForward(qs)
    ensures InOrder(Uploads(max, qs)) && SpreadOut(max, Uploads(max, qs))
    ensures var ups := Uploads(max, qs); ups != [] ==> qs != [] && ups[|ups| - 1].later <= qs[|qs| - 1].later
    decreases qs
  {
    if qs != [] {
      var n := |qs| - 1;
      ClockPrefix(qs, n);
      UploadsSpread(max, qs[..n]);
      var ups := Uploads(max, qs[..n]);
      if Step(max, Run(max, qs[..n]), qs[n]).1 {
        UploadIff(max, qs[..n], qs[n]);
        SpreadSnoc(max, ups, qs[n]);
      }
    }
  }

  lemma OrderSnoc(ups: seq<Request>, q: Request)
    requires InOrder(ups) && q.now <= q.later
    requires ups != [] ==> ups[|ups| - 1].later <= q.now
    ensures InOrder(ups + [q])
  {
    var more, n := ups + [q], |ups|;
    forall i | 0 <= i < n ensures more[i].later <= more[n].now {
      assert i < n - 1 ==> ups[i].later <= ups[n - 1].now;
    }
  }

  lemma SpreadSnoc(max: nat, ups: seq<Request>, q: Request)
    requires InOrder(ups) && SpreadOut(max, ups) && q.now <= q.later
    requires ups != [] ==> ups[|ups| - 1].later <= q.now
    requires Chain(ups, q.now) <= max
    ensures InOrder(ups + [q]) && SpreadOut(max, ups + [q])
  {
    var more := ups + [q];
    ChainSnoc(ups, q);
    OrderSnoc(ups, q);
    forall i | 0 <= i && i + max < |ups|
      ensures more[|ups|].later - more[i].later > TRACK_SOFT_ABNORMAL_UPLOAD_PERIOD
    {
      ChainBreak(more, i);
    }
  }

  /** The number of uploads from `start` up to a period later. */
  function InWindow(ups: seq<Request>, start: int): nat
  {
    if ups == [] then 0
    else
      var n := |ups| - 1;
      InWindow(ups[..n], start)
      + if start <= ups[n].later <= start + 86400 then 1 else 0
  }

  lemma {:induction false} NoneInWindow(ups: seq<Request>, start: int)
    requires forall i :: 0 <= i < |ups| ==> ups[i].later < start
    ensures InWindow(ups, start) == 0
  {
    if ups != [] {
      NoneInWindow(ups[..|ups| - 1], start);
    }
  }

  lemma {:induction false} WindowGrowsByOne(ups: seq<Request>, k: nat, start: int)
    requires k <= |ups|
    ensures InWindow(ups, start) <= InWindow(ups[..k], start) + (|ups| - k)
    decreases ups
  {
    if k == |ups| {
      assert ups[..k] == ups;
    } else {
      var n := |ups| - 1;
      assert ups[..n][..k] == ups[..k];
      WindowGrowsByOne(ups[..n], k, start);
    }
  }

  lemma {:induction false} WindowBound(max: nat, ups: seq<Request>, start: int)
    requires SpreadOut(max, ups)
    ensures InWindow(ups, start) <= max + 1
    decreases ups
  {
    if ups != [] {
      var n := |ups| - 1;
      if start <= ups[n].later <= start + TRACK_SOFT_ABNORMAL_UPLOAD_PERIOD {
        var k := if n <= max then 0 else n - max;
        NoneInWindow(ups[..k], start);
        WindowGrowsByOne(ups, k, start);
      } else {
        WindowBound(max, ups[..n], start);
      }
    }
  }

  /** Main theorem: any 24-hour window of any run holds at most max + 1 uploads,
      although the counter is cleared relative to the last upload. */
  lemma SlidingWindow(max: nat, qs: seq<Request>, start: int)
    requires ClockForward(qs)
    ensures InWindow(Uploads(max, qs), start) <= max + 1
  {
    UploadsSpread(max, qs);
    WindowBound(max, Uploads(max, qs), start);
  }

  /** `n` ready requests at one moment. */
  function Burst(n: nat, t: int): (qs: seq<Request>)
    ensures |qs| == n && forall i :: 0 <= i < n ==> qs[i] == Request(t, t, true)
  {
    if n == 0 then [] else Burst(n - 1, t) + [Request(t, t, true)]
  }

  lemma {:induction false} BurstUploads(max: nat, n: nat, t: int)
    requires n <= max + 1
    ensures Uploads(max, Burst(n, t)) == Burst(n, t)
    ensures n > 0 ==> Run(max, Burst(n, t)) == State(n, t)
  {
    if n > 0 {
      BurstUploads(max, n - 1, t);
      assert Burst(n, t)[..n - 1] == Burst(n - 1, t);
    }
  }

  lemma {:induction false} BurstInWindow(n: nat, t: int)
    ensures InWindow(Burst(n, t), t) == n
  {
    if n > 0 {
      BurstInWindow(n - 1, t);
      WindowSnoc(Burst(n - 1, t), Request(t, t, true), t);
    }
  }

  lemma WindowSnoc(ups: seq<Request>, q: Request, start: int)
    requires start <= q.later <= start + TRACK_SOFT_ABNORMAL_UPLOAD_PERIOD
    ensures InWindow(ups + [q], start) == InWindow(ups, start) + 1
  {
    assert (ups + [q])[..|ups|] == ups;
  }

  /** The bound is reached: for every limit and moment some run uploads max + 1 times
      in one window. */
  lemma BoundIsReached(max: nat, t: int) returns (qs: seq<Request>)
    ensures ClockForward(qs) && InWindow(Uploads(max, qs), t) == max + 1
  {
    qs := Burst(max + 1, t);
    BurstUploads(max, max + 1, t);
    BurstInWindow(max + 1, t);
  }
}
