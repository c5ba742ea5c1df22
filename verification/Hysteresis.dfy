/** Temperature regions with self-modifying thresholds. A region change rewrites the
    dynamic thresholds: all return to their configured values except the one just
    crossed, which moves by BATT_TEMP_HYST away from the temperature. The battery and
    the fast-charge region share this; they differ only in how the first sample enters. */
module Hysteresis {

  const BATT_TEMP_HYST := 20

  /** Configured thresholds, dynamic thresholds and the current region; with n
      thresholds the regions are 0..n and n + 1 stands for "no region yet". */
  datatype Tracker = Tracker(thr: seq<int>, dyn: seq<int>, region: nat)

  function Invalid(thr: seq<int>): nat
  {
    |thr| + 1
  }

  /** As the status initialisation leaves it. */
  function Initial(thr: seq<int>): Tracker
  {
    Tracker(thr, thr, Invalid(thr))
  }

  /** The first region whose upper threshold is above the temperature. */
  function RegionOf(dyn: seq<int>, temp: int): (r: nat)
    ensures r <= |dyn|
    ensures forall i :: 0 <= i < r ==> dyn[i] <= temp
    ensures r < |dyn| ==> temp < dyn[r]
  {
    if dyn == [] || temp < dyn[0] then 0 else 1 + RegionOf(dyn[1..], temp)
  }

  lemma RegionIs(dyn: seq<int>, temp: int, r: nat)
    requires r <= |dyn|
    requires forall i :: 0 <= i < r ==> dyn[i] <= temp
    requires r < |dyn| ==> temp < dyn[r]
    ensures RegionOf(dyn, temp) == r
  {
  }

  /** Every threshold back to its configured value, except that threshold `k` moves by `shift`. */
  function Rewritten(thr: seq<int>, dyn: seq<int>, k: int, shift: int): (d: seq<int>)
    requires |thr| == |dyn|
    ensures |d| == |thr|
    ensures forall i :: 0 <= i < |thr| ==> d[i] == if i == k then dyn[i] + shift else thr[i]
  {
    seq(|thr|, i requires 0 <= i < |thr| => if i == k then dyn[i] + shift else thr[i])
  }

  function Move(t: Tracker, r: nat): (t': Tracker)
    requires |t.thr| == |t.dyn|
    ensures |t'.thr| == |t'.dyn| && t'.thr == t.thr
  {
    if t.region > r then Tracker(t.thr, Rewritten(t.thr, t.dyn, r, BATT_TEMP_HYST), r)
    else if t.region < r then Tracker(t.thr, Rewritten(t.thr, t.dyn, r - 1, -BATT_TEMP_HYST), r)
    else t
  }

  /** The battery region: a first sample only records its region. */
  function BattStep(t: Tracker, temp: int): (t': Tracker)
    requires |t.thr| == |t.dyn|
    ensures |t'.thr| == |t'.dyn| && t'.thr == t.thr
  {
    var r := RegionOf(t.dyn, temp);
    Move(if t.region == Invalid(t.thr) then t.(region := r) else t, r)
  }

  /** The fast-charge region: a first sample counts as a fall from the invalid region. */
  function FfcStep(t: Tracker, temp: int): (t': Tracker)
    requires |t.thr| == |t.dyn|
    ensures |t'.thr| == |t'.dyn| && t'.thr == t.thr
  {
    Move(t, RegionOf(t.dyn, temp))
  }

  function Step(battery: bool, t: Tracker, temp: int): (t': Tracker)
    requires |t.thr| == |t.dyn|
    ensures |t'.thr| == |t'.dyn| && t'.thr == t.thr
  {
    if battery then BattStep(t, temp) else FfcStep(t, temp)
  }

  function Run(battery: bool, t: Tracker, temps: seq<int>): (t': Tracker)
    requires |t.thr| == |t.dyn|
    ensures |t'.thr| == |t'.dyn| && t'.thr == t.thr
  {
    if temps == [] then t else Step(battery, Run(battery, t, temps[..|temps| - 1]), temps[|temps| - 1])
  }

  // ------------------------------------------------------------ the object

  class ThermalTracker {
    const thr: array<int>
    const dyn: array<int>
    var region: nat

    ghost predicate Valid()
      reads this
    {
      thr.Length == dyn.Length && thr != dyn
    }

    ghost function Abs(): Tracker
      reads this, thr, dyn
    {
      Tracker(thr[..], dyn[..], region)
    }

    constructor (configured: seq<int>)
      ensures Valid() && fresh(thr) && fresh(dyn)
      ensures Abs() == Initial(configured)
    {
      var n := |configured|;
      thr := new int[n](i requires 0 <= i < n => configured[i]);
      dyn := new int[n](i requires 0 <= i < n => configured[i]);
      region := n + 1;
      new;
      assert thr[..] == configured && dyn[..] == configured;
    }

    /** The status initialisation's part: no region, and all thresholds as configured. */
    method Reset()
      requires Valid()
      modifies this, dyn
      ensures Valid() && Abs() == Initial(old(thr[..]))
    {
      region := thr.Length + 1;
      for i := 0 to dyn.Length
        invariant region == thr.Length + 1 && dyn[..i] == thr[..i] && thr[..] == old(thr[..])
      {
        dyn[i] := thr[i];
      }
      assert dyn[..] == thr[..];
    }

    method GetRegion(temp: int) returns (r: nat)
      requires Valid()
      ensures r == RegionOf(dyn[..], temp)
    {
      r := dyn.Length;
      for i := 0 to dyn.Length
        invariant forall j :: 0 <= j < i ==> dyn[j] <= temp
      {
        if temp < dyn[i] {
          RegionIs(dyn[..], temp, i);
          return i;
        }
      }
      RegionIs(dyn[..], temp, dyn.Length);
    }

    method Rewrite(k: int, shift: int)
      requires Valid()
      modifies dyn
      ensures Valid() && dyn[..] == Rewritten(old(thr[..]), old(dyn[..]), k, shift)
    {
      for i := 0 to dyn.Length
        invariant forall j :: 0 <= j < i ==> dyn[j] == if j == k then old(dyn[j]) + shift else thr[j]
        invariant forall j :: i <= j < dyn.Length ==> dyn[j] == old(dyn[j])
      {
        if i == k {
          dyn[i] := dyn[i] + shift;
        } else {
          dyn[i] := thr[i];
        }
      }
    }

    method CheckBattTemp(temp: int)
      requires Valid()
      modifies this, dyn
      ensures Valid() && Abs() == BattStep(old(Abs()), temp)
    {
      var r := GetRegion(temp);
      if region == thr.Length + 1 {
        region := r;
      }
      if region > r {
        Rewrite(r, BATT_TEMP_HYST);
        region := r;
      } else if region < r {
        Rewrite(r - 1, -BATT_TEMP_HYST);
        region := r;
      }
    }

    method GetFfcTempRegion(temp: int) returns (r: nat)
      requires Valid()
      modifies this, dyn
      ensures Valid() && Abs() == FfcStep(old(Abs()), temp)
      ensures r == region
    {
      r := GetRegion(temp);
      if region > r {
        Rewrite(r, BATT_TEMP_HYST);
        region := r;
      } else if region < r {
        Rewrite(r - 1, -BATT_TEMP_HYST);
        region := r;
      }
    }
  }

  // ------------------------------------------------------- thresholds never drift

  /** At most one dynamic threshold is off its configured value: the upper bound of
      the current region, raised, or its lower bound, lowered, by exactly the hysteresis. */
  ghost predicate NoDrift(t: Tracker)
  {
    && |t.thr| == |t.dyn|
    && t.region <= Invalid(t.thr)
    && (t.region == Invalid(t.thr) ==> t.dyn == t.thr)
    && (|| t.dyn == t.thr
        || (t.region < |t.thr| && t.dyn == t.thr[t.region := t.thr[t.region] + BATT_TEMP_HYST])
        || (1 <= t.region <= |t.thr|
            && t.dyn == t.thr[t.region - 1 := t.thr[t.region - 1] - BATT_TEMP_HYST]))
  }

  lemma FallKeepsNoDrift(t: Tracker, r: nat)
    requires NoDrift(t) && r < t.region && r <= |t.thr|
    ensures NoDrift(Move(t, r))
  {
    var d := Rewritten(t.thr, t.dyn, r, BATT_TEMP_HYST);
    if r == |t.thr| {
      assert d == t.thr;
    } else {
      assert t.dyn[r] == t.thr[r] || t.dyn[r] == t.thr[r] - BATT_TEMP_HYST;
      assert d == t.thr[r := t.dyn[r] + BATT_TEMP_HYST];
      assert t.thr[r := t.thr[r]] == t.thr;
    }
  }

  lemma RiseKeepsNoDrift(t: Tracker, r: nat)
    requires NoDrift(t) && t.region < r <= |t.thr|
    ensures NoDrift(Move(t, r))
  {
    var d := Rewritten(t.thr, t.dyn, r - 1, -BATT_TEMP_HYST);
    assert t.dyn[r - 1] == t.thr[r - 1] || t.dyn[r - 1] == t.thr[r - 1] + BATT_TEMP_HYST;
    assert d == t.thr[r - 1 := t.dyn[r - 1] - BATT_TEMP_HYST];
    assert t.thr[r - 1 := t.thr[r - 1]] == t.thr;
  }

  lemma StepKeepsNoDrift(battery: bool, t: Tracker, temp: int)
    requires NoDrift(t)
    ensures NoDrift(Step(battery, t, temp))
  {
    var r := RegionOf(t.dyn, temp);
    if t.region > r && !(battery && t.region == Invalid(t.thr)) {
      FallKeepsNoDrift(t, r);
    } else if t.region < r {
      RiseKeepsNoDrift(t, r);
    }
  }

  /** Main theorem: after any temperature sequence, in either loop, at most one
      dynamic threshold is off its configured value, by 20, at the current region's edge. */
  lemma {:induction false} ThresholdsNeverDrift(battery: bool, thr: seq<int>, temps: seq<int>)
    ensures NoDrift(Run(battery, Initial(thr), temps))
  {
    if temps != [] {
      var n := |temps| - 1;
      ThresholdsNeverDrift(battery, thr, temps[..n]);
      StepKeepsNoDrift(battery, Run(battery, Initial(thr), temps[..n]), temps[n]);
    }
  }

  ghost predicate Ordered(thr: seq<int>)
  {
    forall i, j :: 0 <= i < j < |thr| ==> thr[i] <= thr[j]
  }

  lemma SameTemperatureRegion(battery: bool, t: Tracker, temp: int)
    requires NoDrift(t) && Ordered(t.thr)
    ensures RegionOf(Step(battery, t, temp).dyn, temp) == Step(battery, t, temp).region
  {
    var r := RegionOf(t.dyn, temp);
    if t.region < r {
      RiseKeepsRegion(t, temp);
    } else {
      RegionIs(Step(battery, t, temp).dyn, temp, r);
    }
  }

  lemma RiseKeepsRegion(t: Tracker, temp: int)
    requires NoDrift(t) && Ordered(t.thr) && t.region < RegionOf(t.dyn, temp)
    ensures RegionOf(Move(t, RegionOf(t.dyn, temp)).dyn, temp) == RegionOf(t.dyn, temp)
  {
    var r, c := RegionOf(t.dyn, temp), t.region;
    var d := Move(t, r).dyn;
    forall i | 0 <= i < r ensures d[i] <= temp {
      assert t.dyn[i] <= temp;
      if c >= 1 && i == c - 1 {
        assert t.thr[i] <= t.thr[c] <= t.dyn[c] <= temp;
      }
    }
    RegionIs(d, temp, r);
  }

  /** With ordered thresholds, evaluating again at the same temperature changes nothing. */
  lemma ReevaluationIsIdle(battery: bool, t: Tracker, temp: int)
    requires NoDrift(t) && Ordered(t.thr)
    ensures Step(battery, Step(battery, t, temp), temp) == Step(battery, t, temp)
  {
    SameTemperatureRegion(battery, t, temp);
  }

  // ------------------------------------------------------------- no chatter

  /** Sample `k` of a run changes the region; a battery tracker's first sample does not. */
  ghost predicate Rises(battery: bool, thr: seq<int>, temps: seq<int>, k: nat)
    requires k < |temps|
  {
    var before := Run(battery, Initial(thr), temps[..k]);
    before.region < Run(battery, Initial(thr), temps[..k + 1]).region
  }

  ghost predicate Falls(battery: bool, thr: seq<int>, temps: seq<int>, k: nat)
    requires k < |temps|
  {
    var before := Run(battery, Initial(thr), temps[..k]);
    && Run(battery, Initial(thr), temps[..k + 1]).region < before.region
    && (battery ==> before.region != Invalid(thr))
  }

  /** Two successive region changes in opposite directions. */
  ghost predicate Reversal(battery: bool, thr: seq<int>, temps: seq<int>, a: nat, b: nat)
    requires a < b < |temps|
  {
    && (forall k :: a < k < b ==> !Rises(battery, thr, temps, k) && !Falls(battery, thr, temps, k))
    && (|| (Rises(battery, thr, temps, a) && Falls(battery, thr, temps, b))
        || (Falls(battery, thr, temps, a) && Rises(battery, thr, temps, b)))
  }

  /** In no temperature sequence do two such changes happen within the hysteresis. */
  ghost predicate NeverChatters(battery: bool, thr: seq<int>)
  {
    forall temps: seq<int>, a: nat, b: nat ::
      a < b < |temps| && Reversal(battery, thr, temps, a, b) ==>
        temps[a] - temps[b] > 20 || temps[b] - temps[a] > 20
  }

  ghost predicate Spaced(thr: seq<int>)
  {
    forall i, j :: 0 <= i < j < |thr| ==> thr[i] + 20 <= thr[j]
  }

  /** A rise at x leaves every threshold below the one it crossed last 20 or more behind. */
  ghost predicate ClearBelow(t: Tracker, x: int)
    requires |t.thr| == |t.dyn|
  {
    forall i :: 0 <= i < RegionOf(t.dyn, x) - 1 ==> t.thr[i] + BATT_TEMP_HYST <= x
  }

  /** A rise at x followed by a fall at y, with nothing in between. */
  lemma RiseThenFall(t: Tracker, x: int, y: int)
    requires |t.thr| == |t.dyn| && ClearBelow(t, x)
    requires t.region < RegionOf(t.dyn, x)
    requires RegionOf(Move(t, RegionOf(t.dyn, x)).dyn, y) < RegionOf(t.dyn, x)
    ensures x - y > BATT_TEMP_HYST
  {
    var r := RegionOf(t.dyn, x);
    var d := Move(t, r).dyn;
    var r' := RegionOf(d, y);
    assert d[r'] == if r' == r - 1 then t.dyn[r'] - BATT_TEMP_HYST else t.thr[r'];
  }

  /** A fall at x followed by a rise at y, with nothing in between. */
  lemma FallThenRise(t: Tracker, x: int, y: int)
    requires |t.thr| == |t.dyn|
    requires RegionOf(t.dyn, x) < t.region
    requires RegionOf(t.dyn, x) < RegionOf(Move(t, RegionOf(t.dyn, x)).dyn, y)
    ensures y - x > BATT_TEMP_HYST
  {
    var r := RegionOf(t.dyn, x);
    var d := Move(t, r).dyn;
    assert d[r] == t.dyn[r] + BATT_TEMP_HYST;
  }

  lemma RunSnoc(battery: bool, t: Tracker, temps: seq<int>, k: nat)
    requires |t.thr| == |t.dyn| && k < |temps|
    ensures Run(battery, t, temps[..k + 1]) == Step(battery, Run(battery, t, temps[..k]), temps[k])
  {
    assert temps[..k + 1][..k] == temps[..k];
  }

  /** Samples that change no region leave the whole tracker as it was. */
  lemma {:induction false} QuietSamples(battery: bool, thr: seq<int>, temps: seq<int>, a: nat, b: nat)
    requires 1 <= a <= b <= |temps|
    requires forall k :: a <= k < b ==> !Rises(battery, thr, temps, k) && !Falls(battery, thr, temps, k)
    ensures Run(battery, Initial(thr), temps[..b]) == Run(battery, Initial(thr), temps[..a])
    decreases b - a
  {
    if a < b {
      QuietSamples(battery, thr, temps, a, b - 1);
      RunSnoc(battery, Initial(thr), temps, b - 1);
      StartedRegionValid(battery, thr, temps[..b - 1]);
      assert !Rises(battery, thr, temps, b - 1) && !Falls(battery, thr, temps, b - 1);
      QuietStep(battery, Run(battery, Initial(thr), temps[..b - 1]), temps[b - 1]);
    }
  }

  lemma QuietStep(battery: bool, t: Tracker, temp: int)
    requires |t.thr| == |t.dyn| && t.region <= |t.thr| && Step(battery, t, temp).region == t.region
    ensures Step(battery, t, temp) == t
  {
  }

  /** Once a sample was taken, the region is a proper one. */
  lemma StartedRegionValid(battery: bool, thr: seq<int>, temps: seq<int>)
    requires temps != []
    ensures Run(battery, Initial(thr), temps).region <= |thr|
  {
  }

  /** A fall then a rise is always wide; a rise then a fall is when the rise is clear. */
  lemma ReversalIsWide(battery: bool, thr: seq<int>, temps: seq<int>, a: nat, b: nat)
    requires a < b < |temps| && Reversal(battery, thr, temps, a, b)
    requires var t := Run(battery, Initial(thr), temps[..a]);
             t.region < RegionOf(t.dyn, temps[a]) ==> ClearBelow(t, temps[a])
    ensures temps[a] - temps[b] > BATT_TEMP_HYST || temps[b] - temps[a] > BATT_TEMP_HYST
  {
    ReversalIsTwoMoves(battery, thr, temps, a, b);
    var t := Run(battery, Initial(thr), temps[..a]);
    if t.region < RegionOf(t.dyn, temps[a]) {
      RiseThenFall(t, temps[a], temps[b]);
    } else {
      FallThenRise(t, temps[a], temps[b]);
    }
  }

  /** A reversal is two moves in a row from the state before it, whatever lies between. */
  lemma ReversalIsTwoMoves(battery: bool, thr: seq<int>, temps: seq<int>, a: nat, b: nat)
    requires a < b < |temps| && Reversal(battery, thr, temps, a, b)
    ensures var t := Run(battery, Initial(thr), temps[..a]);
            var r := RegionOf(t.dyn, temps[a]);
            var r' := RegionOf(Move(t, r).dyn, temps[b]);
            (t.region < r && r' < r) || (r < t.region && r < r')
  {
    var t := Run(battery, Initial(thr), temps[..a]);
    var t1 := Run(battery, Initial(thr), temps[..b]);
    RunSnoc(battery, Initial(thr), temps, a);
    QuietSamples(battery, thr, temps, a + 1, b);
    StartedRegionValid(battery, thr, temps[..a + 1]);
    RunSnoc(battery, Initial(thr), temps, b);
    StepMoves(battery, t, temps[a]);
    StepMoves(battery, t1, temps[b]);
  }

  /** A step into another region is a move into the region of the temperature. */
  lemma StepMoves(battery: bool, t: Tracker, temp: int)
    requires |t.thr| == |t.dyn|
    ensures var t', r := Step(battery, t, temp), RegionOf(t.dyn, temp);
            && t'.region == r
            && (t.region != Invalid(t.thr) || !battery ==> t' == Move(t, r))
            && (t.region == Invalid(t.thr) && battery ==> t' == t.(region := r))
  {
  }

  lemma SpacedIsClear(t: Tracker, x: int)
    requires NoDrift(t) && Spaced(t.thr) && t.region < RegionOf(t.dyn, x)
    ensures ClearBelow(t, x)
  {
    var r := RegionOf(t.dyn, x);
    assert t.thr[r - 1] <= t.dyn[r - 1] <= x;
  }

  /** The fast-charge loop leaves a region only 20 above the first threshold: its first
      sample, unlike the battery's, already moves the threshold above it. */
  ghost predicate FirstEdge(t: Tracker)
  {
    && |t.thr| == |t.dyn|
    && (t.region < |t.thr| ==> t.dyn[t.region] >= t.thr[0] + BATT_TEMP_HYST)
    && (t.region != 0 && |t.thr| > 0 ==> t.dyn[0] == t.thr[0])
  }

  lemma StepKeepsFirstEdge(t: Tracker, temp: int)
    requires NoDrift(t) && FirstEdge(t)
    ensures FirstEdge(FfcStep(t, temp))
  {
    var r := RegionOf(t.dyn, temp);
    var d := FfcStep(t, temp).dyn;
    if r < t.region && r < |t.thr| {
      assert r > 0 ==> t.dyn[0] <= temp < t.dyn[r];
      assert d[r] == t.dyn[r] + BATT_TEMP_HYST;
    } else if t.region < r {
      assert t.dyn[t.region] <= temp;
      assert r < |t.thr| ==> d[r] == t.thr[r] == t.dyn[r];
    }
  }

  lemma {:induction false} FirstEdgeHolds(thr: seq<int>, temps: seq<int>)
    ensures FirstEdge(Run(false, Initial(thr), temps))
  {
    if temps != [] {
      var n := |temps| - 1;
      FirstEdgeHolds(thr, temps[..n]);
      ThresholdsNeverDrift(false, thr, temps[..n]);
      StepKeepsFirstEdge(Run(false, Initial(thr), temps[..n]), temps[n]);
    }
  }

  /** The thresholds above the first rise by at least 20, leaving out those no sample
      can tell from the first. */
  ghost predicate SpacedAboveFirst(thr: seq<int>)
  {
    forall i, j :: 0 < i < j < |thr| && thr[0] < thr[i] ==> thr[i] + 20 <= thr[j]
  }

  lemma SpacedAboveFirstIsClear(t: Tracker, x: int)
    requires NoDrift(t) && FirstEdge(t) && SpacedAboveFirst(t.thr) && t.region < RegionOf(t.dyn, x)
    ensures ClearBelow(t, x)
  {
    var r := RegionOf(t.dyn, x);
    assert t.thr[0] + BATT_TEMP_HYST <= t.dyn[t.region] <= x;
    assert t.thr[r - 1] <= t.dyn[r - 1] <= x;
  }

  // -------------------------------------------- spacing is also necessary

  function Top(s: seq<int>): (m: int)
    requires s != []
    ensures m in s && forall i :: 0 <= i < |s| ==> s[i] <= m
  {
    if |s| == 1 then s[0] else
      var m := Top(s[..|s| - 1]);
      if m < s[|s| - 1] then s[|s| - 1] else m
  }

  function Bottom(s: seq<int>): (m: int)
    requires s != []
    ensures m in s && forall i :: 0 <= i < |s| ==> m <= s[i]
  {
    if |s| == 1 then s[0] else
      var m := Bottom(s[..|s| - 1]);
      if m > s[|s| - 1] then s[|s| - 1] else m
  }

  /** Threshold `j` sits too close above (or below) an earlier one. */
  ghost predicate Crowded(thr: seq<int>, j: nat)
    requires j < |thr|
  {
    exists i :: 0 <= i < j && thr[i] + BATT_TEMP_HYST > thr[j]
  }

  /** The last crowded threshold among the first `n`. */
  lemma {:induction false} LastCrowded(thr: seq<int>, n: nat) returns (j: nat)
    requires n <= |thr|
    requires exists k :: 0 <= k < n && Crowded(thr, k)
    ensures j < n && Crowded(thr, j)
    ensures forall k :: j < k < n ==> !Crowded(thr, k)
  {
    if Crowded(thr, n - 1) {
      j := n - 1;
    } else {
      j := LastCrowded(thr, n - 1);
    }
  }

  /** Three samples whose last two reverse within the hysteresis. */
  ghost predicate Flips(battery: bool, thr: seq<int>, temps: seq<int>)
  {
    |temps| == 3 && Reversal(battery, thr, temps, 1, 2) && 0 <= temps[1] - temps[2] <= BATT_TEMP_HYST
  }

  lemma FlipsIsChatter(battery: bool, thr: seq<int>, temps: seq<int>)
    requires Flips(battery, thr, temps)
    ensures !NeverChatters(battery, thr)
  {
  }

  /** A battery table that is not spaced chatters: from cold, rise just past its crowded
      threshold, then drop just below the one it crowds. */
  lemma UnspacedChatters(thr: seq<int>) returns (temps: seq<int>)
    requires !Spaced(thr)
    ensures Flips(true, thr, temps)
  {
    assert exists k :: 0 <= k < |thr| && Crowded(thr, k) by {
      var i, j :| 0 <= i < j < |thr| && thr[i] + BATT_TEMP_HYST > thr[j];
      assert Crowded(thr, j);
    }
    var j := LastCrowded(thr, |thr|);
    CrowdedSpan(thr, j);
    var i :| 0 <= i < j && Top(thr[..j]) - 1 < thr[i];
    temps := Samples(Bottom(thr) - 1, Top(thr[..j + 1]), Top(thr[..j]) - 1);
    RegionIs(thr, temps[0], 0);
    RiseAndDrop(thr, j, i, temps);
  }

  function Samples(x: int, y: int, z: int): (s: seq<int>)
    ensures |s| == 3 && s[0] == x && s[1] == y && s[2] == z
  {
    [x, y, z]
  }

  /** Around the last crowded threshold: the highest of the first j + 1 thresholds is
      within the hysteresis of the highest of the first j, and below the next one. */
  lemma CrowdedSpan(thr: seq<int>, j: nat)
    requires j < |thr| && Crowded(thr, j)
    requires forall k :: j < k < |thr| ==> !Crowded(thr, k)
    ensures j >= 1
    ensures var x, p := Top(thr[..j + 1]), Top(thr[..j]);
            && 0 <= x - p < BATT_TEMP_HYST
            && (j + 1 < |thr| ==> x < thr[j + 1])
            && (forall i :: 0 <= i <= j ==> thr[i] <= x)
            && (exists i :: 0 <= i < j && p - 1 < thr[i])
  {
    var i :| 0 <= i < j && thr[i] + BATT_TEMP_HYST > thr[j];
    var x, p := Top(thr[..j + 1]), Top(thr[..j]);
    assert thr[..j + 1][..j] == thr[..j];
    assert thr[..j][i] <= p;
    var k :| 0 <= k < j && thr[..j][k] == p;
    assert p - 1 < thr[k];
    forall m | 0 <= m <= j ensures thr[m] <= x {
      assert thr[..j + 1][m] <= x;
    }
    if j + 1 < |thr| {
      assert !Crowded(thr, j + 1);
      var m :| 0 <= m <= j && thr[..j + 1][m] == x;
      assert thr[m] + BATT_TEMP_HYST <= thr[j + 1];
    }
  }

  /** The three-sample run behind `UnspacedChatters`: start in region `c`, rise past
      threshold `j`, drop below an earlier threshold. */
  lemma RiseAndDrop(thr: seq<int>, j: nat, i: nat, temps: seq<int>)
    requires i < j < |thr| && |temps| == 3
    requires RegionOf(thr, temps[0]) <= j
    requires forall k :: 0 <= k <= j ==> thr[k] <= temps[1]
    requires j + 1 < |thr| ==> temps[1] < thr[j + 1]
    requires temps[2] < thr[i] && 0 <= temps[1] - temps[2] <= BATT_TEMP_HYST
    ensures Flips(true, thr, temps)
  {
    RiseLeg(thr, j, temps);
    DropLeg(true, thr, i, temps);
  }

  /** A drop below a threshold that the rise before it put back. */
  lemma DropLeg(battery: bool, thr: seq<int>, i: nat, temps: seq<int>)
    requires |temps| == 3 && i < |thr| && Rises(battery, thr, temps, 1)
    requires var t := Run(battery, Initial(thr), temps[..2]);
             i + 1 < t.region <= |thr| && t.dyn[i] == thr[i]
    requires temps[2] < thr[i] && 0 <= temps[1] - temps[2] <= BATT_TEMP_HYST
    ensures Flips(battery, thr, temps)
  {
    DropFalls(battery, thr, i, temps);
    AdjacentReversal(battery, thr, temps);
  }

  lemma DropFalls(battery: bool, thr: seq<int>, i: nat, temps: seq<int>)
    requires |temps| == 3 && i < |thr| && temps[2] < thr[i]
    requires var t := Run(battery, Initial(thr), temps[..2]);
             i + 1 < t.region <= |thr| && t.dyn[i] == thr[i]
    ensures Falls(battery, thr, temps, 2)
  {
    RunSnoc(battery, Initial(thr), temps, 2);
    StepDrops(battery, Run(battery, Initial(thr), temps[..2]), i, temps[2]);
  }

  lemma StepDrops(battery: bool, t: Tracker, i: nat, y: int)
    requires |t.thr| == |t.dyn| && i + 1 < t.region <= |t.thr| && y < t.dyn[i]
    ensures Step(battery, t, y).region < t.region
  {
    assert RegionOf(t.dyn, y) <= i;
  }

  lemma AdjacentReversal(battery: bool, thr: seq<int>, temps: seq<int>)
    requires |temps| == 3 && Rises(battery, thr, temps, 1) && Falls(battery, thr, temps, 2)
    ensures Reversal(battery, thr, temps, 1, 2)
  {
  }

  lemma RiseLeg(thr: seq<int>, j: nat, temps: seq<int>)
    requires j < |thr| && |temps| >= 2
    requires RegionOf(thr, temps[0]) <= j
    requires forall k :: 0 <= k <= j ==> thr[k] <= temps[1]
    requires j + 1 < |thr| ==> temps[1] < thr[j + 1]
    ensures Run(true, Initial(thr), temps[..2]) == Tracker(thr, thr[j := thr[j] - BATT_TEMP_HYST], j + 1)
    ensures Rises(true, thr, temps, 1)
  {
    FirstSample(thr, temps);
    RiseFrom(thr, RegionOf(thr, temps[0]), j, temps[1]);
    RunSnoc(true, Initial(thr), temps, 1);
  }

  lemma FirstSample(thr: seq<int>, temps: seq<int>)
    requires temps != []
    ensures Run(true, Initial(thr), temps[..1]) == Tracker(thr, thr, RegionOf(thr, temps[0]))
  {
    assert temps[..0] == [];
    RunSnoc(true, Initial(thr), temps, 0);
  }

  lemma RiseFrom(thr: seq<int>, c: nat, j: nat, x: int)
    requires c <= j < |thr|
    requires forall i :: 0 <= i <= j ==> thr[i] <= x
    requires j + 1 < |thr| ==> x < thr[j + 1]
    ensures BattStep(Tracker(thr, thr, c), x) == Tracker(thr, thr[j := thr[j] - BATT_TEMP_HYST], j + 1)
  {
    RegionIs(thr, x, j + 1);
    assert Rewritten(thr, thr, j, -BATT_TEMP_HYST) == thr[j := thr[j] - BATT_TEMP_HYST];
  }

  /** Main theorem: the battery loop never reverses within 20 decidegrees, in any
      temperature sequence, exactly when the configured thresholds rise by at least 20. */
  lemma BatteryNeverChattersIff(thr: seq<int>)
    ensures NeverChatters(true, thr) <==> Spaced(thr)
  {
    if Spaced(thr) {
      forall temps: seq<int>, a: nat, b: nat | a < b < |temps| && Reversal(true, thr, temps, a, b)
        ensures temps[a] - temps[b] > BATT_TEMP_HYST || temps[b] - temps[a] > BATT_TEMP_HYST
      {
        BatteryReversalIsWide(thr, temps, a, b);
      }
    } else {
      var temps := UnspacedChatters(thr);
      FlipsIsChatter(true, thr, temps);
    }
  }

  lemma BatteryReversalIsWide(thr: seq<int>, temps: seq<int>, a: nat, b: nat)
    requires Spaced(thr) && a < b < |temps| && Reversal(true, thr, temps, a, b)
    ensures temps[a] - temps[b] > BATT_TEMP_HYST || temps[b] - temps[a] > BATT_TEMP_HYST
  {
    var t := Run(true, Initial(thr), temps[..a]);
    ThresholdsNeverDrift(true, thr, temps[..a]);
    if t.region < RegionOf(t.dyn, temps[a]) {
      SpacedIsClear(t, temps[a]);
    }
    ReversalIsWide(true, thr, temps, a, b);
  }

  /** Main theorem: the fast-charge loop, first sample included, keeps the same distance
      exactly when its thresholds above the first rise by at least 20: less than the
      battery loop needs. */
  lemma FfcNeverChattersIff(thr: seq<int>)
    ensures NeverChatters(false, thr) <==> SpacedAboveFirst(thr)
  {
    if SpacedAboveFirst(thr) {
      forall temps: seq<int>, a: nat, b: nat | a < b < |temps| && Reversal(false, thr, temps, a, b)
        ensures temps[a] - temps[b] > BATT_TEMP_HYST || temps[b] - temps[a] > BATT_TEMP_HYST
      {
        FfcReversalIsWide(thr, temps, a, b);
      }
    } else {
      var temps := FfcUnspacedChatters(thr);
      FlipsIsChatter(false, thr, temps);
    }
  }

  lemma FfcReversalIsWide(thr: seq<int>, temps: seq<int>, a: nat, b: nat)
    requires SpacedAboveFirst(thr) && a < b < |temps| && Reversal(false, thr, temps, a, b)
    ensures temps[a] - temps[b] > BATT_TEMP_HYST || temps[b] - temps[a] > BATT_TEMP_HYST
  {
    var t := Run(false, Initial(thr), temps[..a]);
    ThresholdsNeverDrift(false, thr, temps[..a]);
    FirstEdgeHolds(thr, temps[..a]);
    if t.region < RegionOf(t.dyn, temps[a]) {
      SpacedAboveFirstIsClear(t, temps[a]);
    }
    ReversalIsWide(false, thr, temps, a, b);
  }

  /** Otherwise: from below the first threshold, rise past a crowded pair at once, then
      drop below its higher-reaching neighbour. */
  lemma FfcUnspacedChatters(thr: seq<int>) returns (temps: seq<int>)
    requires !SpacedAboveFirst(thr)
    ensures Flips(false, thr, temps)
  {
    var i, j :| 0 < i < j < |thr| && thr[0] < thr[i] && thr[j] < thr[i] + BATT_TEMP_HYST;
    var m := Highest(thr, i, j);
    var past := if thr[m] < thr[j] then thr[j] else thr[m];
    var x := if past < thr[0] + BATT_TEMP_HYST then thr[0] + BATT_TEMP_HYST else past;
    temps := Samples(thr[0] - 1, x, thr[m] - 1);
    FfcRiseLeg(thr, m, j, temps);
    DropLeg(false, thr, m, temps);
  }

  /** Among thresholds 1 to j - 1, one that none exceeds. */
  lemma Highest(thr: seq<int>, i: nat, j: nat) returns (m: nat)
    requires 0 < i < j < |thr|
    ensures 0 < m < j && thr[i] <= thr[m] && forall k :: 0 < k < j ==> thr[k] <= thr[m]
  {
    var inner := thr[1..j];
    var k :| 0 <= k < |inner| && inner[k] == Top(inner);
    m := k + 1;
    forall l | 0 < l < j ensures thr[l] <= thr[m] {
      assert inner[l - 1] <= Top(inner);
    }
  }

  lemma FfcRiseLeg(thr: seq<int>, m: nat, j: nat, temps: seq<int>)
    requires 0 < m < j < |thr| && |temps| >= 2
    requires temps[0] < thr[0] && thr[0] + BATT_TEMP_HYST <= temps[1]
    requires forall k :: 0 < k <= j ==> thr[k] <= temps[1]
    ensures Rises(false, thr, temps, 1)
    ensures var t := Run(false, Initial(thr), temps[..2]);
            m + 1 < t.region <= |thr| && t.dyn[m] == thr[m]
  {
    FfcFirstSample(thr, temps);
    RunSnoc(false, Initial(thr), temps, 1);
    var d := thr[0 := thr[0] + BATT_TEMP_HYST];
    var s := RegionOf(d, temps[1]);
    assert forall k :: 0 <= k <= j ==> d[k] <= temps[1];
    assert s > j;
  }

  lemma FfcFirstSample(thr: seq<int>, temps: seq<int>)
    requires thr != [] && temps != [] && temps[0] < thr[0]
    ensures Run(false, Initial(thr), temps[..1]) == Tracker(thr, thr[0 := thr[0] + BATT_TEMP_HYST], 0)
  {
    assert temps[..0] == [];
    RunSnoc(false, Initial(thr), temps, 0);
    RegionIs(thr, temps[0], 0);
    assert Rewritten(thr, thr, 0, BATT_TEMP_HYST) == thr[0 := thr[0] + BATT_TEMP_HYST];
  }

  /** The built-in battery table lists seven of eight thresholds, so the eighth is 0. */
  const DEFAULT_BATT_TEMP_THR: seq<int> := [-20, 0, 50, 120, 160, 450, 500, 0]

  /** It therefore chatters at its hot edge: one decidegree at 50 degrees flips the region. */
  lemma DefaultTableChatters(temps: seq<int>)
    requires |temps| == 3 && temps[0] < 500 && temps[1] == 500 && temps[2] == 499
    ensures Flips(true, DEFAULT_BATT_TEMP_THR, temps)
    ensures !NeverChatters(true, DEFAULT_BATT_TEMP_THR)
  {
    var thr := DEFAULT_BATT_TEMP_THR;
    assert |thr| == 8 && thr[6] == 500;
    assert RegionOf(thr, temps[0]) <= 6;
    RiseAndDrop(thr, 7, 6, temps);
    FlipsIsChatter(true, thr, temps);
  }
}
