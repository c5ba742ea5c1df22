/** Charge accounting per state-of-charge section: how long, and for how much
    capacity, the battery charged in the low, medium and high section. */
module SectionAccounting {

  const TRACK_REF_SOC_50 := 50
  const TRACK_REF_SOC_75 := 75
  const TRACK_REF_SOC_90 := 90

  datatype Section = Default | Low | Medium | High | Over

  /** A clock reading with a remaining-capacity reading, or an amount of each. */
  datatype Amount = Amount(time: int, rm: int)

  function Minus(a: Amount, b: Amount): Amount
  {
    Amount(a.time - b.time, a.rm - b.rm)
  }

  function Plus(a: Amount, b: Amount): Amount
  {
    Amount(a.time + b.time, a.rm + b.rm)
  }

  const NOTHING := Amount(0, 0)

  datatype Sample = Sample(now: Amount, soc: int, charging: bool)

  /** One amount for each section that is accounted. */
  datatype Totals = Totals(low: Amount, medium: Amount, high: Amount)

  const EMPTY := Totals(NOTHING, NOTHING, NOTHING)

  predicate Counted(x: Section)
  {
    x == Low || x == Medium || x == High
  }

  function At(t: Totals, x: Section): Amount
    requires Counted(x)
  {
    if x == Low then t.low else if x == Medium then t.medium else t.high
  }

  function With(t: Totals, x: Section, a: Amount): (t': Totals)
    requires Counted(x)
    ensures forall y :: Counted(y) ==> At(t', y) == if y == x then a else At(t, y)
  {
    if x == Low then t.(low := a) else if x == Medium then t.(medium := a) else t.(high := a)
  }

  /** The section, the running totals, their values when the section was entered, and
      the readings at that moment. */
  datatype State = State(section: Section, totals: Totals, pre: Totals, entered: Amount)

  function SectionOfSoc(soc: int): (x: Section)
    ensures x != Default
  {
    if soc <= TRACK_REF_SOC_50 then Low
    else if soc <= TRACK_REF_SOC_75 then Medium
    else if soc <= TRACK_REF_SOC_90 then High
    else Over
  }

  /** The first sample after a reset clears every total. */
  function Opened(s: State, x: Sample): State
  {
    if s.section == Default then State(SectionOfSoc(x.soc), EMPTY, EMPTY, x.now) else s
  }

  /** The section a charging sample moves to: one section at a time. */
  function NextSection(x: Section, soc: int): (y: Section)
    ensures x != Default ==> y != Default
    ensures soc <= TRACK_REF_SOC_90 && x != Over ==> y != Over
  {
    match x
    case Low => if soc > TRACK_REF_SOC_50 then Medium else Low
    case Medium => if soc <= TRACK_REF_SOC_50 then Low else if soc > TRACK_REF_SOC_75 then High else Medium
    case High => if soc <= TRACK_REF_SOC_75 then Medium else if soc > TRACK_REF_SOC_90 then Over else High
    case Over => if soc < TRACK_REF_SOC_90 then High else Over
    case Default => Default
  }

  function Charged(s: State, x: Sample): State
  {
    var next := NextSection(s.section, x.soc);
    var entered := if next != s.section then x.now else s.entered;
    if !Counted(s.section) then s.(section := next, entered := entered)
    else
      var total := Plus(Minus(x.now, s.entered), At(s.pre, s.section));
      State(next,
            With(s.totals, s.section, total),
            if next != s.section then With(s.pre, s.section, total) else s.pre,
            entered)
  }

  function Step(s: State, x: Sample): State
  {
    var s1 := Opened(s, x);
    if x.charging then Charged(s1, x) else State(SectionOfSoc(x.soc), s1.totals, s1.totals, x.now)
  }

  // ------------------------------------------------------------ the object

  class SectionTracker {
    var section: Section
    var low: Amount
    var medium: Amount
    var high: Amount
    var preLow: Amount
    var preMedium: Amount
    var preHigh: Amount
    var entered: Amount

    ghost function Value(): State
      reads this
    {
      State(section, Totals(low, medium, high), Totals(preLow, preMedium, preHigh), entered)
    }

    constructor ()
      ensures Value() == State(Default, EMPTY, EMPTY, NOTHING)
    {
      section := Default;
      low, medium, high := NOTHING, NOTHING, NOTHING;
      preLow, preMedium, preHigh, entered := NOTHING, NOTHING, NOTHING, NOTHING;
    }

    method Open(x: Sample)
      modifies this
      ensures Value() == Opened(old(Value()), x)
    {
      if section == Default {
        low, medium, high := NOTHING, NOTHING, NOTHING;
        preLow, preMedium, preHigh := NOTHING, NOTHING, NOTHING;
        section := SectionOfSoc(x.soc);
        entered := x.now;
      }
    }

    method Record(x: Sample)
      modifies this
      ensures Value() == Step(old(Value()), x)
    {
      Open(x);
      if !x.charging {
        section := SectionOfSoc(x.soc);
        preLow := low;
        preMedium := medium;
        preHigh := high;
        entered := x.now;
        return;
      }
      match section {
        case Low =>
          low := Plus(Minus(x.now, entered), preLow);
          if x.soc > TRACK_REF_SOC_50 {
            preLow, entered, section := low, x.now, Medium;
          }
        case Medium =>
          medium := Plus(Minus(x.now, entered), preMedium);
          if x.soc <= TRACK_REF_SOC_50 {
            preMedium, entered, section := medium, x.now, Low;
          } else if x.soc > TRACK_REF_SOC_75 {
            preMedium, entered, section := medium, x.now, High;
          }
        case High =>
          high := Plus(Minus(x.now, entered), preHigh);
          if x.soc <= TRACK_REF_SOC_75 {
            preHigh, entered, section := high, x.now, Medium;
          } else if x.soc > TRACK_REF_SOC_90 {
            preHigh, entered, section := high, x.now, Over;
          }
        case Over =>
          if x.soc < TRACK_REF_SOC_90 {
            entered, section := x.now, High;
          }
        case Default =>
      }
    }
  }

  // ------------------------------------------------------------ conservation

  function Run(s: State, h: seq<Sample>): State
  {
    if h == [] then s else Step(Run(s, h[..|h| - 1]), h[|h| - 1])
  }

  /** What really happened in a section: the sum of the sampling intervals that began
      in it and ended in a charging sample. */
  function Spent(s: State, h: seq<Sample>, x: Section): Amount
  {
    if |h| < 2 then NOTHING
    else
      var n := |h| - 1;
      var before := Spent(s, h[..n], x);
      if h[n].charging && Run(s, h[..n]).section == x then Plus(before, Minus(h[n].now, h[n - 1].now)) else before
  }

  /** The bookkeeping between samples, the last of which read `now`. */
  ghost predicate Balanced(s: State, now: Amount)
  {
    && s.section != Default
    && forall x :: Counted(x) ==>
         At(s.totals, x) == if s.section == x then Plus(Minus(now, s.entered), At(s.pre, x)) else At(s.pre, x)
  }

  lemma OpeningBalances(s: State, x: Sample)
    requires s.section == Default
    ensures Balanced(Step(s, x), x.now) && Step(s, x).totals == EMPTY
  {
  }

  lemma StepBalanced(s: State, x: Sample, now: Amount)
    requires Balanced(s, now)
    ensures Balanced(Step(s, x), x.now)
    ensures forall y :: Counted(y) ==>
              At(Step(s, x).totals, y)
              == if x.charging && s.section == y then Plus(At(s.totals, y), Minus(x.now, now)) else At(s.totals, y)
  {
  }

  lemma {:induction false} RunBalanced(s: State, h: seq<Sample>)
    requires s.section == Default && h != []
    ensures Balanced(Run(s, h), h[|h| - 1].now)
    ensures |h| == 1 ==> Run(s, h).totals == EMPTY
    decreases h
  {
    var n := |h| - 1;
    if n == 0 {
      OpeningBalances(s, h[0]);
      assert h[..0] == [];
    } else {
      RunBalanced(s, h[..n]);
      StepBalanced(Run(s, h[..n]), h[n], h[n - 1].now);
    }
  }

  /** Main theorem: since the last reset, whatever was left over from before it, each
      section's total is exactly the charging intervals that began in that section. */
  lemma {:induction false} SectionIsExact(s: State, h: seq<Sample>, x: Section)
    requires s.section == Default && h != [] && Counted(x)
    ensures At(Run(s, h).totals, x) == Spent(s, h, x)
    decreases h
  {
    var n := |h| - 1;
    RunBalanced(s, h);
    if n > 0 {
      SectionIsExact(s, h[..n], x);
      RunBalanced(s, h[..n]);
      StepBalanced(Run(s, h[..n]), h[n], h[n - 1].now);
    }
  }

  /** All charging time and capacity outside the section above 90 percent. */
  function Total(t: Totals): Amount
  {
    Plus(t.low, Plus(t.medium, t.high))
  }

  /** The total of the intervals that began below the OVER section and ended charging. */
  function SpentBelowOver(s: State, h: seq<Sample>): Amount
  {
    if |h| < 2 then NOTHING
    else
      var n := |h| - 1;
      var before := SpentBelowOver(s, h[..n]);
      if h[n].charging && Run(s, h[..n]).section != Over then Plus(before, Minus(h[n].now, h[n - 1].now)) else before
  }

  lemma StepTotal(s: State, x: Sample, now: Amount)
    requires Balanced(s, now)
    ensures Total(Step(s, x).totals)
         == if x.charging && s.section != Over then Plus(Total(s.totals), Minus(x.now, now)) else Total(s.totals)
  {
    StepBalanced(s, x, now);
    var t, t' := s.totals, Step(s, x).totals;
    assert At(t', Low) == t'.low && At(t', Medium) == t'.medium && At(t', High) == t'.high;
    assert At(t, Low) == t.low && At(t, Medium) == t.medium && At(t, High) == t.high;
  }

  /** Main theorem: low, medium and high together conserve the charged intervals. */
  lemma {:induction false} TotalIsConserved(s: State, h: seq<Sample>)
    requires s.section == Default && h != []
    ensures Total(Run(s, h).totals) == SpentBelowOver(s, h)
    decreases h
  {
    var n := |h| - 1;
    RunBalanced(s, h);
    if n > 0 {
      TotalIsConserved(s, h[..n]);
      RunBalanced(s, h[..n]);
      StepTotal(Run(s, h[..n]), h[n], h[n - 1].now);
    }
  }

  lemma StepNotOver(s: State, x: Sample)
    requires s.section != Over && x.soc <= TRACK_REF_SOC_90
    ensures Step(s, x).section != Over
  {
  }

  lemma {:induction false} NeverOver(s: State, h: seq<Sample>)
    requires s.section == Default
    requires forall i :: 0 <= i < |h| ==> h[i].soc <= TRACK_REF_SOC_90
    ensures Run(s, h).section != Over
    decreases h
  {
    if h != [] {
      NeverOver(s, h[..|h| - 1]);
      StepNotOver(Run(s, h[..|h| - 1]), h[|h| - 1]);
    }
  }

  /** No interval of the history begins in the OVER section. */
  ghost predicate StaysBelowOver(s: State, h: seq<Sample>)
  {
    forall n :: 0 < n < |h| ==> Run(s, h[..n]).section != Over
  }

  /** As when no reading exceeds 90 percent. */
  lemma LowSocStaysBelow(s: State, h: seq<Sample>)
    requires s.section == Default
    requires forall i :: 0 <= i < |h| ==> h[i].soc <= TRACK_REF_SOC_90
    ensures StaysBelowOver(s, h)
  {
    forall n | 0 < n < |h| ensures Run(s, h[..n]).section != Over {
      NeverOver(s, h[..n]);
    }
  }

  /** Charging throughout with no interval begun in the OVER section, the total
      telescopes to the last reading minus the first. */
  lemma TotalTelescopes(s: State, h: seq<Sample>)
    requires s.section == Default && h != [] && StaysBelowOver(s, h)
    requires forall i :: 0 < i < |h| ==> h[i].charging
    ensures Total(Run(s, h).totals) == Minus(h[|h| - 1].now, h[0].now)
  {
    TotalIsConserved(s, h);
    SpentTelescopes(s, h);
  }

  lemma {:induction false} SpentTelescopes(s: State, h: seq<Sample>)
    requires s.section == Default && h != [] && StaysBelowOver(s, h)
    requires forall i :: 0 < i < |h| ==> h[i].charging
    ensures SpentBelowOver(s, h) == Minus(h[|h| - 1].now, h[0].now)
    decreases h
  {
    var n := |h| - 1;
    if n > 0 {
      forall k | 0 < k < n ensures Run(s, h[..n][..k]).section != Over {
        assert h[..n][..k] == h[..k];
      }
      SpentTelescopes(s, h[..n]);
    }
  }

  // ------------------------------------------------------- the section, in numbers

  function Rank(x: Section): int
  {
    match x case Low => 0 case Medium => 1 case High => 2 case Over => 3 case Default => -1
  }

  /** How many of the marks 50, 75 and 90 a state of charge is above. */
  function MarksPassed(soc: int): nat
  {
    (if soc > 50 then 1 else 0) + (if soc > 75 then 1 else 0) + (if soc > 90 then 1 else 0)
  }

  /** The section after one sample: the first sample, or one that is not charging, goes
      straight to the section of its state of charge; a charging sample moves one section
      towards it, except that exactly 90 percent does not leave the OVER section. */
  lemma SectionAfter(s: State, x: Sample)
    ensures var before, after, goal := Rank(s.section), Rank(Step(s, x).section), MarksPassed(x.soc);
            if s.section == Default || !x.charging then after == goal
            else if before == 3 && x.soc == 90 then after == 3
            else after == if before < goal then before + 1 else if before > goal then before - 1 else before
  {
  }

  /** Main theorem: whatever came before, three charging samples in a row between the same
      marks, none at exactly 90 percent, end in the section between those marks. */
  lemma ThreeSamplesSettle(s: State, h: seq<Sample>, goal: nat)
    requires |h| >= 3
    requires forall i :: |h| - 3 <= i < |h| ==> h[i].charging && h[i].soc != 90 && MarksPassed(h[i].soc) == goal
    ensures Rank(Run(s, h).section) == goal
  {
    var n := |h|;
    assert h[..n - 1][..n - 2] == h[..n - 2] && h[..n - 2][..n - 3] == h[..n - 3];
    SectionAfter(Run(s, h[..n - 3]), h[n - 3]);
    SectionAfter(Run(s, h[..n - 2]), h[n - 2]);
    SectionAfter(Run(s, h[..n - 1]), h[n - 1]);
  }
}
