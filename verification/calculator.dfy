/**
  `calc_value` up to the call of the percentile formula: the age key, the unit
  dispatch and the table row that the formula reads.
*/
module Calculator {
  import opened Wrappers
  import opened AgeNormalizer
  import opened UnitDispatch

  /** The three parameters of one table row. */
  datatype Lms = Lms(l: real, m: real, s: real)

  /** A reference table: age in days to its row. */
  type Chart = map<int, Lms>

  /** The table has a row for every age the normaliser can produce. */
  predicate Covers(chart: Chart)
  {
    forall age :: 0 <= age <= MaxAgeDays ==> age in chart
  }

  /**
    Everything `calc_value` prepares for one measurement: the kind and the value
    as given, its unit, the age it is reported for, the table key, the value in the
    tables' unit and the row the percentile is computed from.
  */
  datatype Lookup = Lookup(
    kind: string, given: real, unit: Unit,
    months: int, days: int,
    age: int, measurement: real, row: Lms)

  datatype CalcError =
    | UnknownKind(kind: string)  // no unit for this kind: nothing is computed
    | MissingAge(age: int)       // the table has no row for the age key

  /**
    The age key is computed first; an unknown kind then stops before any row is
    read; otherwise the value is converted and the row at the age key is read.
  */
  function CalcValue(months: int, days: int, val: real, chart: Chart, kind: string, imperial: bool)
    : (r: Result<Lookup, CalcError>)
    ensures r.Failure? && r.error.UnknownKind? <==> UnitFor(kind, imperial).None?
    ensures r.Failure? && r.error.MissingAge? <==>
      UnitFor(kind, imperial).Some? && AgeInDays(months, days) !in chart
    ensures r.Failure? && r.error.UnknownKind? ==> r.error.kind == kind
    ensures r.Failure? && r.error.MissingAge? ==> r.error.age == AgeInDays(months, days)
    ensures r.Success? ==>
      && r.value.age == AgeInDays(months, days)
      && r.value.age in chart && r.value.row == chart[r.value.age]
      && UnitFor(kind, imperial) == Some(r.value.unit)
      && r.value.measurement == ToTableUnit(r.value.unit, val)
      && r.value.kind == kind && r.value.given == val
      && r.value.months == months && r.value.days == days
  {
    var age := AgeInDays(months, days);
    match UnitFor(kind, imperial)
    case None => Failure(UnknownKind(kind))
    case Some(unit) =>
      if age in chart then
        Success(Lookup(kind, val, unit, months, days, age, ToTableUnit(unit, val), chart[age]))
      else
        Failure(MissingAge(age))
  }

  /**
    With a table that covers every day up to MaxAgeDays, a known kind and an age
    of no negative months or days, the lookup succeeds, its key is a tabulated day,
    and a positive value stays positive after conversion, so the formula's
    logarithm and division are defined.
  */
  lemma CalcValueSucceeds(months: int, days: int, val: real, chart: Chart, kind: string, imperial: bool)
    requires Covers(chart)
    requires months >= 0 && days >= 0
    requires kind == WeightKind || kind == LengthKind || kind == HeadKind
    ensures CalcValue(months, days, val, chart, kind, imperial).Success?
    ensures 0 <= CalcValue(months, days, val, chart, kind, imperial).value.age <= MaxAgeDays
    ensures val > 0.0 ==> CalcValue(months, days, val, chart, kind, imperial).value.measurement > 0.0
  {
  }
}
