/** Partially known calendar dates (`user_data::Date` and its twin
    `anime_data::AnilistDate`) and their comparator `cmp`, which both files
    implement with the same code. */
module Dates {
  import opened Wrappers

  datatype Date = Date(year: Option<int>, month: Option<int>, day: Option<int>)

  datatype Ordering = Less | Equal | Greater

  const Empty := Date(None, None, None)

  /** One field of `cmp`: `None` before `Some`, then numeric order; `None`
      means "undecided, look at the next field". The reverse test of the
      month and day fields compares a date with itself (`self.month.is_some()
      && self.month.is_none()`), so it can never decide `Greater`; the flag
      `selfCompare` reproduces that. */
  function CompareField(a: Option<int>, b: Option<int>, selfCompare: bool): Option<Ordering>
  {
    if a.None? && b.Some? then Some(Less)
    else if a.Some? && (if selfCompare then a.None? else b.None?) then Some(Greater)
    else if a.Some? && b.Some? then
      (if a.value < b.value then Some(Less)
       else if a.value > b.value then Some(Greater)
       else None)
    else None
  }

  /** `Date::cmp`: year, then month, then day. */
  function Compare(a: Date, b: Date): Ordering
  {
    match CompareField(a.year, b.year, false)
    case Some(o) => o
    case None =>
      match CompareField(a.month, b.month, true)
      case Some(o) => o
      case None => CompareField(a.day, b.day, true).GetOr(Equal)
  }

  /** A date with no year sorts before any date with a year, and the reverse. */
  lemma CompareMissingYear(a: Date, b: Date)
    requires a.year.None? && b.year.Some?
    ensures Compare(a, b) == Less && Compare(b, a) == Greater
  {
  }

  /** Known years decide first. */
  lemma CompareByYear(a: Date, b: Date)
    requires a.year.Some? && b.year.Some? && a.year.value != b.year.value
    ensures Compare(a, b) == (if a.year.value < b.year.value then Less else Greater)
  {
  }

  /** Identical dates compare `Equal`. */
  lemma CompareReflexive(a: Date)
    ensures Compare(a, a) == Equal
  {
  }

  /** `Greater` is only ever answered when the reverse question answers `Less`. */
  lemma CompareGreaterReverse(a: Date, b: Date)
    requires Compare(a, b) == Greater
    ensures Compare(b, a) == Less
  {
    if CompareField(a.year, b.year, false).None? {
      if CompareField(a.month, b.month, true).None? {
        assert a.month.None? ==> b.month.None?;
      }
    }
  }

  /** The month "Greater" test never fires: a date whose month is known, against
      one of the same year whose month is not, falls through to the days. */
  lemma MonthGreaterBranchIsDead(a: Date, b: Date)
    requires a.year == b.year && a.month.Some? && b.month.None?
    ensures Compare(a, b) == CompareField(a.day, b.day, true).GetOr(Equal)
    ensures Compare(b, a) == Less
  {
  }

  /** The comparator is therefore not antisymmetric: two different dates that
      each answer `Less`/`Equal` one way and `Less` the other. */
  lemma NotAntisymmetric()
    ensures var a, b := Date(Some(2020), Some(5), None), Date(Some(2020), None, None);
      a != b && Compare(a, b) == Equal && Compare(b, a) == Less
  {
  }

  /** On fully known dates the comparator is the lexicographic order of
      (year, month, day). */
  lemma CompareComplete(a: Date, b: Date)
    requires a.year.Some? && a.month.Some? && a.day.Some?
    requires b.year.Some? && b.month.Some? && b.day.Some?
    ensures Compare(a, b) == Less <==> LexLess(a, b)
    ensures Compare(a, b) == Equal <==> a == b
  {
  }

  predicate LexLess(a: Date, b: Date)
    requires a.year.Some? && a.month.Some? && a.day.Some?
    requires b.year.Some? && b.month.Some? && b.day.Some?
  {
    a.year.value < b.year.value
    || (a.year.value == b.year.value && a.month.value < b.month.value)
    || (a.year.value == b.year.value && a.month.value == b.month.value && a.day.value < b.day.value)
  }
}
