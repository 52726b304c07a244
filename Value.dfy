/**
 * The ordinal rating scale.  The four levels carry the integers 0, 1, 3 and 4;
 * 2 is reserved for a middle level that does not exist.  Levels are compared
 * by `<` on those integers; `<=`, `>` and `>=` are derived from `<` the way
 * `functools.total_ordering` derives them.
 */
module Values {
  import opened Wrappers

  datatype Value = VeryBad | Bad | Good | VeryGood

  /** The underlying integer of a level. */
  function Rank(v: Value): (r: int)
    ensures 0 <= r <= 4 && r != 2
  {
    match v
    case VeryBad => 0
    case Bad => 1
    case Good => 3
    case VeryGood => 4
  }

  /** The right operand of a comparison: another level, or anything else (such as None). */
  datatype Operand = Level(v: Value) | NotALevel

  /** `Value.__lt__`: compares two levels; yields NotImplemented (None here) for a foreign operand. */
  function LessThan(self: Value, other: Operand): (r: Option<bool>)
    ensures r.None? <==> other.NotALevel?
    ensures other.Level? ==> r == Some(Rank(self) < Rank(other.v))
  {
    if other.Level? then Some(Rank(self) < Rank(other.v)) else None
  }

  /** `a < b` between two levels. */
  predicate Less(a: Value, b: Value)
    ensures Less(a, b) <==> LessThan(a, Level(b)) == Some(true)
  {
    Rank(a) < Rank(b)
  }

  /** `a <= b` as total_ordering derives it: `a < b or a == b`. */
  predicate LessOrEqual(a: Value, b: Value)
    ensures LessOrEqual(a, b) <==> Rank(a) <= Rank(b)
  {
    Less(a, b) || a == b
  }

  /** `a > b` as total_ordering derives it: `not a < b and a != b`. */
  predicate Greater(a: Value, b: Value)
    ensures Greater(a, b) <==> Rank(a) > Rank(b)
  {
    !Less(a, b) && a != b
  }

  /** `a >= b` as total_ordering derives it: `not a < b`. */
  predicate GreaterOrEqual(a: Value, b: Value)
    ensures GreaterOrEqual(a, b) <==> Rank(a) >= Rank(b)
  {
    !Less(a, b)
  }

  /** The levels in increasing order, and the module's own check VERY_BAD < GOOD. */
  lemma LevelsAscend()
    ensures Less(VeryBad, Bad) && Less(Bad, Good) && Less(Good, VeryGood)
    ensures Less(VeryBad, Good)
  {
  }

  /** Exactly four levels, none of them the middle one. */
  lemma FourLevels(v: Value)
    ensures v == VeryBad || v == Bad || v == Good || v == VeryGood
    ensures Rank(v) != 2
  {
  }

  /** `<` on levels is a strict total order. */
  lemma LessIsStrictTotalOrder()
    ensures forall a: Value :: !Less(a, a)
    ensures forall a: Value, b: Value, c: Value :: Less(a, b) && Less(b, c) ==> Less(a, c)
    ensures forall a: Value, b: Value :: a != b ==> Less(a, b) || Less(b, a)
  {
  }

  /** The derived operators agree with the order of the underlying integers. */
  lemma DerivedOperatorsAgree(a: Value, b: Value)
    ensures LessOrEqual(a, b) <==> Rank(a) <= Rank(b)
    ensures Greater(a, b) <==> Less(b, a)
    ensures GreaterOrEqual(a, b) <==> LessOrEqual(b, a)
  {
  }
}
