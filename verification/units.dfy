/**
  The measurement-kind dispatch of `calc_value`: the kind of measurement and the
  caller's imperial flag select the unit the value was given in; imperial values
  are converted to the reference tables' metric unit.
*/
module UnitDispatch {
  import opened Wrappers

  const WeightKind := "weight"
  const LengthKind := "length"
  const HeadKind := "head circumference"

  /** Kilograms per pound and centimeters per inch, both exact by definition. */
  const KilogramsPerPound: real := 0.45359237
  const CentimetersPerInch: real := 2.54

  datatype Unit = Kilograms | Pounds | Centimeters | Inches

  predicate IsImperial(u: Unit) { u == Pounds || u == Inches }

  predicate IsMass(u: Unit) { u == Kilograms || u == Pounds }

  /** The word printed after the measurement. */
  function Label(u: Unit): (s: string)
    ensures s in {"kilograms", "pounds", "centimeters", "inches"}
    ensures IsMass(u) <==> s == "kilograms" || s == "pounds"
    ensures IsImperial(u) <==> s == "pounds" || s == "inches"
  {
    match u
    case Kilograms => "kilograms"
    case Pounds => "pounds"
    case Centimeters => "centimeters"
    case Inches => "inches"
  }

  /** How many table units one unit of `u` is. */
  function Factor(u: Unit): (f: real)
    ensures f > 0.0
    ensures !IsImperial(u) <==> f == 1.0
  {
    match u
    case Pounds => KilogramsPerPound
    case Inches => CentimetersPerInch
    case _ => 1.0
  }

  /**
    The unit a measurement of `kind` is read in: pounds or kilograms for a weight,
    inches or centimeters for a length or a head circumference, and nothing for
    any other kind.
  */
  function UnitFor(kind: string, imperial: bool): (u: Option<Unit>)
    ensures u.None? <==> kind != WeightKind && kind != LengthKind && kind != HeadKind
    ensures u.Some? ==> (IsImperial(u.value) <==> imperial)
    ensures u.Some? ==> (IsMass(u.value) <==> kind == WeightKind)
  {
    if kind == WeightKind then
      Some(if imperial then Pounds else Kilograms)
    else if kind == LengthKind || kind == HeadKind then
      Some(if imperial then Inches else Centimeters)
    else
      None
  }

  /** A value in unit `u` expressed in the tables' unit (kilograms or centimeters). */
  function ToTableUnit(u: Unit, v: real): (c: real)
    ensures v > 0.0 ==> c > 0.0
    ensures !IsImperial(u) ==> c == v
  {
    if u == Pounds then v * KilogramsPerPound
    else if u == Inches then v * CentimetersPerInch
    else v
  }

  /** Converting to the tables' unit and dividing by the same factor gives the value back. */
  lemma ToTableUnitRoundTrip(u: Unit, v: real)
    ensures ToTableUnit(u, v) / Factor(u) == v
  {
  }

  /** The printed label names the unit unambiguously. */
  lemma LabelDeterminesUnit(u1: Unit, u2: Unit)
    requires Label(u1) == Label(u2)
    ensures u1 == u2
  {
  }

  /** The three known kinds, read with and without the imperial flag. */
  lemma UnitTable()
    ensures UnitFor(WeightKind, true) == Some(Pounds) && UnitFor(WeightKind, false) == Some(Kilograms)
    ensures UnitFor(LengthKind, true) == Some(Inches) && UnitFor(LengthKind, false) == Some(Centimeters)
    ensures UnitFor(HeadKind, true) == Some(Inches) && UnitFor(HeadKind, false) == Some(Centimeters)
  {
  }
}
