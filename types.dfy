/** why-data's `types` module: a copyable 2D point. */
module Types {

  /** `Point<T>`: a pair of coordinates; the fields are private in the source and read through `x()` and `y()`. */
  datatype Point<T> = Point(x: T, y: T) {

    /** `Point::new`: the point whose accessors give back the two arguments. */
    static function New(x: T, y: T): (p: Point<T>)
      ensures p.X() == x && p.Y() == y
    {
      Point(x, y)
    }

    /** `Point::x`. */
    function X(): T { x }

    /** `Point::y`. */
    function Y(): T { y }
  }

  /** The derived `PartialEq`: two points are equal exactly when both coordinates are. */
  lemma PointEquality<T>(p: Point<T>, q: Point<T>)
    ensures p == q <==> p.X() == q.X() && p.Y() == q.Y()
  {
  }

  /** A point is determined by its coordinates: rebuilding it from its accessors gives it back. */
  lemma NewOfAccessors<T>(p: Point<T>)
    ensures Point.New(p.X(), p.Y()) == p
  {
  }
}
