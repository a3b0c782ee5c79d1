/**
  The argument checks at the top of `main`: a chain of checks where the first that
  fails ends the run, followed by the folding of a full month of days into the
  month count.
*/
module Validation {
  import opened Wrappers

  /**
    The parsed command line. Every option may be absent; `pounds` and `inches`
    are the flags that mark the weight and the lengths as imperial.
  */
  datatype Arguments = Arguments(
    pounds: bool, inches: bool,
    head: Option<real>, length: Option<real>, weight: Option<real>,
    months: Option<int>, days: Option<int>, gender: Option<string>)

  const MaxMonths := 61
  const MaxDays := 31

  /** Months are counted as 30 days when extra days are folded into them. */
  const DaysPerMonth := 30

  /** One error per check, in the order the checks run. */
  datatype ValidationError =
    | InvalidGender
    | MonthsOutOfRange
    | DaysOutOfRange
    | NonPositiveHead
    | NonPositiveLength
    | NonPositiveWeight

  /** The position of the check that reports `e`. */
  function CheckOrder(e: ValidationError): nat
  {
    match e
    case InvalidGender => 0
    case MonthsOutOfRange => 1
    case DaysOutOfRange => 2
    case NonPositiveHead => 3
    case NonPositiveLength => 4
    case NonPositiveWeight => 5
  }

  /** The check that would report `e` accepts `args`. */
  predicate Passes(args: Arguments, e: ValidationError)
  {
    match e
    case InvalidGender => args.gender == Some("boy") || args.gender == Some("girl")
    case MonthsOutOfRange => args.months.Some? && 0 <= args.months.value <= MaxMonths
    case DaysOutOfRange => args.days.None? || 0 <= args.days.value <= MaxDays
    case NonPositiveHead => args.head.None? || args.head.value > 0.0
    case NonPositiveLength => args.length.None? || args.length.value > 0.0
    case NonPositiveWeight => args.weight.None? || args.weight.value > 0.0
  }

  /** Every check accepts `args`. */
  predicate Admissible(args: Arguments)
  {
    && Passes(args, InvalidGender)
    && Passes(args, MonthsOutOfRange)
    && Passes(args, DaysOutOfRange)
    && Passes(args, NonPositiveHead)
    && Passes(args, NonPositiveLength)
    && Passes(args, NonPositiveWeight)
  }

  /** `e` is reported: its check fails and every check before it passes. */
  predicate IsFirstFailure(args: Arguments, e: ValidationError)
  {
    && !Passes(args, e)
    && forall earlier :: CheckOrder(earlier) < CheckOrder(e) ==> Passes(args, earlier)
  }

  /**
    Days are folded into months: 31 counts as 30, and 30 days become one more
    month with no days left over. Absent days count as 0.
  */
  function RollOver(months: int, days: Option<int>): (p: (int, int))
    requires days.None? || 0 <= days.value <= MaxDays
    ensures 0 <= p.1 < DaysPerMonth
    ensures DaysPerMonth * p.0 + p.1 ==
      DaysPerMonth * months + (if days.None? then 0 else Min(days.value, DaysPerMonth))
  {
    if days.None? then (months, 0)
    else
      var d := Min(DaysPerMonth, days.value);
      if d == DaysPerMonth then (months + 1, 0) else (months, d)
  }

  function Min(a: int, b: int): int
  {
    if a < b then a else b
  }

  /**
    Runs the checks in order and stops at the first that fails; when all pass,
    returns the arguments with months and days replaced by their rolled-over values
    and nothing else changed.
  */
  method Validate(args: Arguments) returns (r: Result<Arguments, ValidationError>)
    ensures r.Success? <==> Admissible(args)
    ensures r.Failure? ==> IsFirstFailure(args, r.error)
    ensures r.Success? ==>
      var p := RollOver(args.months.value, args.days);
      r.value == args.(months := Some(p.0), days := Some(p.1))
  {
    if args.gender.None? || (args.gender.value != "boy" && args.gender.value != "girl") {
      return Failure(InvalidGender);
    }
    if args.months.None? || args.months.value < 0 || args.months.value > MaxMonths {
      return Failure(MonthsOutOfRange);
    }
    var months := args.months.value;
    var days: int;
    if args.days.Some? {
      days := args.days.value;
      if days < 0 || days > MaxDays {
        return Failure(DaysOutOfRange);
      }
      days := Min(DaysPerMonth, days);
      if days == DaysPerMonth {
        months := months + 1;
        days := 0;
      }
    } else {
      days := 0;
    }
    if args.head.Some? && args.head.value <= 0.0 {
      return Failure(NonPositiveHead);
    }
    if args.length.Some? && args.length.value <= 0.0 {
      return Failure(NonPositiveLength);
    }
    if args.weight.Some? && args.weight.value <= 0.0 {
      return Failure(NonPositiveWeight);
    }
    return Success(args.(months := Some(months), days := Some(days)));
  }

  /** At most one check is the first to fail. */
  lemma FirstFailureUnique(args: Arguments, e1: ValidationError, e2: ValidationError)
    requires IsFirstFailure(args, e1) && IsFirstFailure(args, e2)
    ensures e1 == e2
  {
  }

  /** Arguments that some check rejects have a first failing check. */
  lemma SomeCheckFailsFirst(args: Arguments)
    requires !Admissible(args)
    ensures exists e :: IsFirstFailure(args, e)
  {
    if !Passes(args, InvalidGender) {
      assert IsFirstFailure(args, InvalidGender);
    } else if !Passes(args, MonthsOutOfRange) {
      assert IsFirstFailure(args, MonthsOutOfRange);
    } else if !Passes(args, DaysOutOfRange) {
      assert IsFirstFailure(args, DaysOutOfRange);
    } else if !Passes(args, NonPositiveHead) {
      assert IsFirstFailure(args, NonPositiveHead);
    } else if !Passes(args, NonPositiveLength) {
      assert IsFirstFailure(args, NonPositiveLength);
    } else {
      assert IsFirstFailure(args, NonPositiveWeight);
    }
  }

  /** 30 and 31 days both mean the start of the next month; absent days mean none. */
  lemma RollOverEquivalence(months: int)
    ensures RollOver(months, Some(30)) == RollOver(months, Some(31)) == RollOver(months + 1, Some(0))
    ensures RollOver(months, Some(30)) == (months + 1, 0)
    ensures RollOver(months, None) == RollOver(months, Some(0)) == (months, 0)
  {
  }
}
