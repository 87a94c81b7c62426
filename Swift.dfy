/** The few Swift standard-library and Foundation values the model needs. */
module Swift {

  /** Swift's `T?`. */
  datatype Option<+T> = None | Some(value: T) {

    /** Swift's `x ?? fallback`. */
    function GetOr(fallback: T): T {
      match this
      case Some(v) => v
      case None => fallback
    }
  }

  /** A `UUID`. Fresh values from `UUID()` are passed in as parameters. */
  type Uuid = nat

  /** `CLLocationCoordinate2D`: stored and compared, never computed with. */
  datatype Coordinate = Coordinate(latitude: real, longitude: real)

  /** The SwiftUI colours the day cells choose between. */
  datatype Color = Red | Blue | Gray | FadedGray | Primary | Secondary

  /** A `ClosedRange<Bound>` built by `a...b`; Swift traps unless `a <= b`. */
  datatype ClosedRange = ClosedRange(lower: int, upper: int) {

    predicate Valid() {
      lower <= upper
    }

    /** `ClosedRange.contains(_:)`. */
    predicate Contains(x: int) {
      lower <= x <= upper
    }

    /** `ClosedRange.overlaps(_:)`: the ranges share at least one value. */
    predicate Overlaps(other: ClosedRange) {
      lower <= other.upper && other.lower <= upper
    }
  }

  /** `a...b`, defined only where Swift does not trap. */
  function Through(a: int, b: int): (r: ClosedRange)
    requires a <= b
    ensures r.Valid() && r.lower == a && r.upper == b
  {
    ClosedRange(a, b)
  }

  /** Two valid closed ranges overlap exactly when some value lies in both. */
  lemma OverlapsIffCommonValue(a: ClosedRange, b: ClosedRange)
    requires a.Valid() && b.Valid()
    ensures a.Overlaps(b) <==> exists x :: a.Contains(x) && b.Contains(x)
  {
    if a.Overlaps(b) {
      var x := if a.lower <= b.lower then b.lower else a.lower;
      assert a.Contains(x) && b.Contains(x);
    }
  }
}
