/**
  The rest of `main`: once the arguments pass, each given measurement is worked
  out in the fixed order weight, length, head circumference, each against the
  table for its indicator and the child's gender.
*/
module GrowthRun {
  import opened Wrappers
  import opened AgeNormalizer
  import opened UnitDispatch
  import opened Calculator
  import opened Validation

  datatype Gender = Boy | Girl

  /** The three reference indicators, in the order `main` works them out. */
  datatype Indicator = WeightForAge | LengthForAge | HeadCircumferenceForAge

  /** One of the six reference tables (indicator by gender). */
  datatype ChartId = ChartId(indicator: Indicator, gender: Gender)

  /** One call of `calc_value`: the kind, the value, the imperial flag and the table. */
  datatype Call = Call(kind: string, value: real, imperial: bool, chart: ChartId)

  /** What a run ends with: the first failing check, or one result per requested measurement. */
  datatype RunOutcome =
    | Rejected(error: ValidationError)
    | Reported(results: seq<Result<Lookup, CalcError>>)

  /** The girls' tables are read for "girl" and the boys' tables otherwise. */
  function GenderOf(args: Arguments): (g: Gender)
    ensures g == Girl <==> args.gender == Some("girl")
    ensures Passes(args, InvalidGender) ==> (g == Boy <==> args.gender == Some("boy"))
  {
    if args.gender == Some("girl") then Girl else Boy
  }

  function IndicatorOrder(i: Indicator): nat
  {
    match i
    case WeightForAge => 0
    case LengthForAge => 1
    case HeadCircumferenceForAge => 2
  }

  /** The measurement that `main` reads for an indicator. */
  function MeasurementFor(args: Arguments, i: Indicator): Option<real>
  {
    match i
    case WeightForAge => args.weight
    case LengthForAge => args.length
    case HeadCircumferenceForAge => args.head
  }

  /**
    `c` is the call for its indicator: the measurement given for it, the kind
    name `calc_value` expects, the pounds flag for weight and the inches flag for
    both length and head circumference, and the table for the child's gender.
  */
  predicate IsCallFor(args: Arguments, c: Call)
  {
    && MeasurementFor(args, c.chart.indicator) == Some(c.value)
    && c.chart.gender == GenderOf(args)
    && match c.chart.indicator
       case WeightForAge => c.kind == WeightKind && c.imperial == args.pounds
       case LengthForAge => c.kind == LengthKind && c.imperial == args.inches
       case HeadCircumferenceForAge => c.kind == HeadKind && c.imperial == args.inches
  }

  /** The call for indicator `i`, when its measurement is given. */
  function CallFor(args: Arguments, i: Indicator): (calls: seq<Call>)
    ensures |calls| <= 1
    ensures calls == [] <==> MeasurementFor(args, i).None?
    ensures calls != [] ==> calls[0].chart.indicator == i && IsCallFor(args, calls[0])
  {
    match MeasurementFor(args, i)
    case None => []
    case Some(v) =>
      var (kind, imperial) := match i
        case WeightForAge => (WeightKind, args.pounds)
        case LengthForAge => (LengthKind, args.inches)
        case HeadCircumferenceForAge => (HeadKind, args.inches);
      [Call(kind, v, imperial, ChartId(i, GenderOf(args)))]
  }

  /**
    The calls `main` makes: one per given measurement, each the right call for its
    indicator, in the order weight, length, head circumference.
  */
  function PlannedCalls(args: Arguments): (calls: seq<Call>)
    ensures forall k :: 0 <= k < |calls| ==> IsCallFor(args, calls[k])
    ensures forall k, l :: 0 <= k < l < |calls| ==>
      IndicatorOrder(calls[k].chart.indicator) < IndicatorOrder(calls[l].chart.indicator)
    ensures forall i :: MeasurementFor(args, i).Some? <==>
      exists k :: 0 <= k < |calls| && calls[k].chart.indicator == i
  {
    var w, l, h := CallFor(args, WeightForAge), CallFor(args, LengthForAge), CallFor(args, HeadCircumferenceForAge);
    var calls := w + l + h;
    forall i | MeasurementFor(args, i).Some?
      ensures exists k :: 0 <= k < |calls| && calls[k].chart.indicator == i
    {
      var k := match i
        case WeightForAge => 0
        case LengthForAge => |w|
        case HeadCircumferenceForAge => |w| + |l|;
      assert calls[k].chart.indicator == i;
    }
    calls
  }

  /** The result of one call of `calc_value`, for the rolled-over age. */
  function Evaluate(c: Call, months: int, days: int, load: ChartId -> Chart): Result<Lookup, CalcError>
  {
    CalcValue(months, days, c.value, load(c.chart), c.kind, c.imperial)
  }

  /** The result is the table's missing-row error, which `main` does not catch. */
  predicate IsMissingRow(r: Result<Lookup, CalcError>)
  {
    r.Failure? && r.error.MissingAge?
  }

  /**
    The results of `calls` made one after another, up to and including the first
    whose table has no row at the age key: that lookup raises, and nothing after
    it runs. An unknown kind only ends its own call.
  */
  function RunUntilMissing(calls: seq<Call>, months: int, days: int, load: ChartId -> Chart)
    : (results: seq<Result<Lookup, CalcError>>)
    ensures |results| <= |calls|
    ensures forall k :: 0 <= k < |results| ==> results[k] == Evaluate(calls[k], months, days, load)
    ensures forall k :: 0 <= k < |results| - 1 ==> !IsMissingRow(results[k])
    ensures |results| < |calls| ==> 0 < |results| && IsMissingRow(results[|results| - 1])
    decreases |calls|
  {
    if calls == [] then []
    else
      var r := Evaluate(calls[0], months, days, load);
      if IsMissingRow(r) then [r]
      else [r] + RunUntilMissing(calls[1..], months, days, load)
  }

  /**
    `main`: check the arguments, then compute the requested measurements against
    the tables that `load` supplies, stopping at the first missing row. A rejected
    run reads no table. When every table covers the ages 0..MaxAgeDays, every
    requested measurement is computed and reaches the percentile formula with a
    tabulated age and a positive value.
  */
  method RunCalculator(args: Arguments, load: ChartId -> Chart) returns (outcome: RunOutcome)
    ensures outcome.Rejected? <==> !Admissible(args)
    ensures outcome.Rejected? ==> IsFirstFailure(args, outcome.error)
    ensures outcome.Reported? ==>
      var p := RollOver(args.months.value, args.days);
      outcome.results == RunUntilMissing(PlannedCalls(args), p.0, p.1, load)
    ensures outcome.Reported? && (forall id :: Covers(load(id))) ==>
      && |outcome.results| == |PlannedCalls(args)|
      && forall k :: 0 <= k < |outcome.results| ==>
        && outcome.results[k].Success?
        && 0 <= outcome.results[k].value.age <= MaxAgeDays
        && outcome.results[k].value.measurement > 0.0
  {
    var checked := Validate(args);
    if checked.Failure? {
      return Rejected(checked.error);
    }
    var a := checked.value;
    var results := ComputeRequested(a, load);
    PlannedCallsIgnoreAge(args, a.months, a.days);
    outcome := Reported(results);
    if forall id :: Covers(load(id)) {
      RunMakesEveryCall(args, a.months.value, a.days.value, load);
    }
  }

  /**
    The measurement part of `main`: weight, then length, then head circumference,
    each only when given, each against the table for its indicator and gender;
    a missing table row ends the run.
  */
  method ComputeRequested(a: Arguments, load: ChartId -> Chart) returns (results: seq<Result<Lookup, CalcError>>)
    requires a.months.Some? && a.days.Some?
    ensures results == RunUntilMissing(PlannedCalls(a), a.months.value, a.days.value, load)
  {
    RunShape(a, a.months.value, a.days.value, load);
    results := ComputeOne(a, WeightForAge, load);
    if results != [] && IsMissingRow(results[0]) {
      return;
    }
    var length := ComputeOne(a, LengthForAge, load);
    results := results + length;
    if length != [] && IsMissingRow(length[0]) {
      return;
    }
    var head := ComputeOne(a, HeadCircumferenceForAge, load);
    results := results + head;
  }

  /**
    One block of `main`: if the measurement for `i` is given, read the table for
    `i` and the child's gender and call `calc_value` on it.
  */
  method ComputeOne(a: Arguments, i: Indicator, load: ChartId -> Chart) returns (r: seq<Result<Lookup, CalcError>>)
    requires a.months.Some? && a.days.Some?
    ensures r == [] <==> MeasurementFor(a, i).None?
    ensures r != [] ==>
      exists c: Call :: && c.chart.indicator == i && IsCallFor(a, c)
                        && r == [CalcValue(a.months.value, a.days.value, c.value, load(c.chart), c.kind, c.imperial)]
    ensures r == Given(a, i, a.months.value, a.days.value, load)
  {
    var calls := CallFor(a, i);
    if calls == [] {
      return [];
    }
    var c := calls[0];
    var chart := load(c.chart);
    var value := CalcValue(a.months.value, a.days.value, c.value, chart, c.kind, c.imperial);
    r := [value];
  }

  /** The result of the call for indicator `i`, if its measurement is given. */
  function Given(a: Arguments, i: Indicator, months: int, days: int, load: ChartId -> Chart)
    : seq<Result<Lookup, CalcError>>
  {
    FirstResult(CallFor(a, i), months, days, load)
  }

  /** The result of the first of `calls`, if there is one. */
  function FirstResult(calls: seq<Call>, months: int, days: int, load: ChartId -> Chart)
    : seq<Result<Lookup, CalcError>>
  {
    if calls == [] then [] else [Evaluate(calls[0], months, days, load)]
  }

  /** The run of the planned calls, written out for the three indicators. */
  lemma RunShape(a: Arguments, months: int, days: int, load: ChartId -> Chart)
    ensures
      var w := Given(a, WeightForAge, months, days, load);
      var l := Given(a, LengthForAge, months, days, load);
      var h := Given(a, HeadCircumferenceForAge, months, days, load);
      RunUntilMissing(PlannedCalls(a), months, days, load) ==
        if w != [] && IsMissingRow(w[0]) then w
        else w + if l != [] && IsMissingRow(l[0]) then l else l + h
  {
    var cw, cl, ch := CallFor(a, WeightForAge), CallFor(a, LengthForAge), CallFor(a, HeadCircumferenceForAge);
    assert PlannedCalls(a) == cw + (cl + ch);
    RunOfThree(cw, cl, ch, months, days, load);
  }

  /**
    A run over three groups of at most one call each: it stops inside the first
    group whose call meets a missing row, and otherwise takes all three.
  */
  lemma RunOfThree(cw: seq<Call>, cl: seq<Call>, ch: seq<Call>, months: int, days: int, load: ChartId -> Chart)
    requires |cw| <= 1 && |cl| <= 1 && |ch| <= 1
    ensures
      var w := FirstResult(cw, months, days, load);
      var l := FirstResult(cl, months, days, load);
      var h := FirstResult(ch, months, days, load);
      RunUntilMissing(cw + (cl + ch), months, days, load) ==
        if w != [] && IsMissingRow(w[0]) then w
        else w + if l != [] && IsMissingRow(l[0]) then l else l + h
  {
    RunUntilMissingPrefix(cw, cl + ch, months, days, load);
    RunUntilMissingPrefix(cl, ch, months, days, load);
    RunUntilMissingPrefix(ch, [], months, days, load);
    assert ch + [] == ch;
  }

  /**
    A run over at most one call followed by more calls: it stops after the first
    call if that call meets a missing row, and otherwise goes on with the rest.
  */
  lemma RunUntilMissingPrefix(first: seq<Call>, more: seq<Call>, months: int, days: int, load: ChartId -> Chart)
    requires |first| <= 1
    ensures var f := FirstResult(first, months, days, load);
      RunUntilMissing(first + more, months, days, load) ==
        if f != [] && IsMissingRow(f[0]) then f else f + RunUntilMissing(more, months, days, load)
  {
    if first != [] {
      RunUntilMissingStep(first + more, months, days, load);
      assert (first + more)[1..] == more;
    } else {
      assert first + more == more;
    }
  }

  /** The calls do not depend on the age, so rolling the age over leaves them alone. */
  lemma PlannedCallsIgnoreAge(args: Arguments, months: Option<int>, days: Option<int>)
    ensures PlannedCalls(args.(months := months, days := days)) == PlannedCalls(args)
  {
    var a := args.(months := months, days := days);
    assert CallFor(a, WeightForAge) == CallFor(args, WeightForAge);
    assert CallFor(a, LengthForAge) == CallFor(args, LengthForAge);
    assert CallFor(a, HeadCircumferenceForAge) == CallFor(args, HeadCircumferenceForAge);
  }

  /** One call taken off the front of a run. */
  lemma RunUntilMissingStep(calls: seq<Call>, months: int, days: int, load: ChartId -> Chart)
    requires calls != []
    ensures var r := Evaluate(calls[0], months, days, load);
      RunUntilMissing(calls, months, days, load) ==
        if IsMissingRow(r) then [r] else [r] + RunUntilMissing(calls[1..], months, days, load)
  {
  }

  /**
    With admissible arguments, a non-negative age and tables covering every
    tabulated day, the run makes every planned call.
  */
  lemma RunMakesEveryCall(args: Arguments, months: int, days: int, load: ChartId -> Chart)
    requires Admissible(args)
    requires months >= 0 && days >= 0
    requires forall id :: Covers(load(id))
    ensures var results := RunUntilMissing(PlannedCalls(args), months, days, load);
      && |results| == |PlannedCalls(args)|
      && forall k :: 0 <= k < |results| ==>
        && results[k].Success?
        && 0 <= results[k].value.age <= MaxAgeDays
        && results[k].value.measurement > 0.0
  {
    var calls := PlannedCalls(args);
    var results := RunUntilMissing(calls, months, days, load);
    // a shorter run would end on a missing row, but every call succeeds
    PlannedCallsSucceed(args, months, days, load);
  }

  /**
    For admissible arguments, an age of no negative months or days and tables that
    cover every tabulated day, every planned call finds its row and passes a
    positive value on.
  */
  lemma PlannedCallsSucceed(args: Arguments, months: int, days: int, load: ChartId -> Chart)
    requires Admissible(args)
    requires months >= 0 && days >= 0
    requires forall id :: Covers(load(id))
    ensures forall k :: 0 <= k < |PlannedCalls(args)| ==>
      var r := Evaluate(PlannedCalls(args)[k], months, days, load);
      && r.Success?
      && 0 <= r.value.age <= MaxAgeDays
      && r.value.measurement > 0.0
  {
  }

  /**
    Arguments that pass every check give a rolled-over age of 0..62 months and
    0..29 days whose table day lies in 0..MaxAgeDays; 62 months is reached exactly
    from 61 months with 30 or 31 days, and the cap brings it back to the last
    tabulated day.
  */
  lemma AdmittedAgeInRange(args: Arguments)
    requires Admissible(args)
    ensures var p := RollOver(args.months.value, args.days);
      && 0 <= p.0 <= MaxMonths + 1 && 0 <= p.1 < DaysPerMonth
      && 0 <= AgeInDays(p.0, p.1) <= MaxAgeDays
      && (p.0 == MaxMonths + 1 <==>
            args.months.value == MaxMonths && args.days.Some? && args.days.value >= DaysPerMonth)
      && (p.0 == MaxMonths + 1 ==> AgeInDays(p.0, p.1) == MaxAgeDays)
  {
  }
}
