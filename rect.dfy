/** Points and rectangles (sdl2hl/rect.py): mutable records over a native
    `SDL_Point` / `SDL_Rect`, whose properties read and write the native
    fields in place, with structural equality.

    The native structs hold C `int` fields, so every coordinate is a 32-bit
    signed integer. */
module Rectangles {
  import opened CTypes

  /** A point on a 2D plane. */
  class Point {
    var x: Int32
    var y: Int32

    /** Point(x=0, y=0): the new point holds exactly its arguments. */
    constructor (x: Int32 := 0, y: Int32 := 0)
      ensures this.x == x && this.y == y
    {
      this.x := x;
      this.y := y;
    }

    /** The `x` setter: changes x only. */
    method SetX(value: Int32)
      modifies this`x
      ensures x == value && y == old(y)
    {
      x := value;
    }

    /** The `y` setter: changes y only. */
    method SetY(value: Int32)
      modifies this`y
      ensures y == value && x == old(x)
    {
      y := value;
    }

    /** __eq__: the other object is a Point with the same coordinates, as
        they are at the moment of the comparison. */
    predicate Equals(other: object?)
      reads this, other
    {
      other is Point && x == (other as Point).x && y == (other as Point).y
    }

    /** __ne__: the negation of __eq__. */
    predicate NotEquals(other: object?)
      reads this, other
    {
      !Equals(other)
    }
  }

  /** A point equals itself, equality between points is symmetric and
      transitive, and nothing that is not a Point (None included) equals a
      point. `!=` is exactly the negation of `==`. */
  lemma PointEquality(p: Point, q: Point, s: Point, other: object?)
    ensures p.Equals(p) && !p.NotEquals(p)
    ensures p.Equals(q) <==> q.Equals(p)
    ensures p.Equals(q) && q.Equals(s) ==> p.Equals(s)
    ensures !(other is Point) ==> !p.Equals(other) && p.NotEquals(other)
    ensures p.NotEquals(other) <==> !p.Equals(other)
  {
  }

  /** Two points are equal exactly when they were built from the same
      coordinates (or set to them since). */
  lemma PointEqualsIffSameCoordinates(p: Point, q: Point)
    ensures p.Equals(q) <==> p.x == q.x && p.y == q.y
  {
  }

  /** A rectangle, with the origin at the upper left. */
  class Rect {
    var x: Int32
    var y: Int32
    var w: Int32
    var h: Int32

    /** Rect(x=0, y=0, w=0, h=0): the new rectangle holds exactly its
        arguments. */
    constructor (x: Int32 := 0, y: Int32 := 0, w: Int32 := 0, h: Int32 := 0)
      ensures this.x == x && this.y == y && this.w == w && this.h == h
    {
      this.x := x;
      this.y := y;
      this.w := w;
      this.h := h;
    }

    /** The `x` setter: changes x only. */
    method SetX(value: Int32)
      modifies this`x
      ensures x == value && y == old(y) && w == old(w) && h == old(h)
    {
      x := value;
    }

    /** The `y` setter: changes y only. */
    method SetY(value: Int32)
      modifies this`y
      ensures y == value && x == old(x) && w == old(w) && h == old(h)
    {
      y := value;
    }

    /** The `w` setter: changes w only. */
    method SetW(value: Int32)
      modifies this`w
      ensures w == value && x == old(x) && y == old(y) && h == old(h)
    {
      w := value;
    }

    /** The `h` setter: changes h only. */
    method SetH(value: Int32)
      modifies this`h
      ensures h == value && x == old(x) && y == old(y) && w == old(w)
    {
      h := value;
    }

    /** __eq__: the other object is a Rect, and only then is the native
        comparison asked; the `and` short-circuits, so it never sees anything
        but two rectangles. */
    predicate Equals(other: object?)
      reads this, other
    {
      other is Rect && NativeRectEquals(this, other as Rect)
    }

    /** __ne__: the negation of __eq__. */
    predicate NotEquals(other: object?)
      reads this, other
    {
      !Equals(other)
    }
  }

  /** The binding's `lib.RectEquals`, taken to be SDL_RectEquals from
      SDL_rect.h: for two non-null rectangles, all four fields agree. */
  predicate NativeRectEquals(a: Rect, b: Rect)
    reads a, b
  {
    a.x == b.x && a.y == b.y && a.w == b.w && a.h == b.h
  }

  /** A rectangle equals itself, equality between rectangles is symmetric
      and transitive, and nothing that is not a Rect (None included) equals
      a rectangle. `!=` is exactly the negation of `==`. */
  lemma RectEquality(a: Rect, b: Rect, c: Rect, other: object?)
    ensures a.Equals(a) && !a.NotEquals(a)
    ensures a.Equals(b) <==> b.Equals(a)
    ensures a.Equals(b) && b.Equals(c) ==> a.Equals(c)
    ensures !(other is Rect) ==> !a.Equals(other) && a.NotEquals(other)
    ensures a.NotEquals(other) <==> !a.Equals(other)
  {
  }

  /** Two rectangles are equal exactly when all four fields agree. */
  lemma RectEqualsIffSameFields(a: Rect, b: Rect)
    ensures a.Equals(b) <==> a.x == b.x && a.y == b.y && a.w == b.w && a.h == b.h
  {
  }

  /** A point never equals a rectangle, and a rectangle never equals a
      point, whatever their coordinates. */
  lemma PointsAreNotRects(p: Point, r: Rect)
    ensures !p.Equals(r) && !r.Equals(p)
  {
  }
}
