/** The eight symmetries of a square (the `Transformations` enum of
    Helpers/Vector2i.h, with Invert, WillSwapAxes, IsReflection and
    Vector2i::Transform from Vector2i.cpp). The positive Y axis points
    down, so "clockwise" is as seen on screen. */
module Transform2D {
  import opened Vectors

  datatype Transformation =
    | None | Rotate90CW | Rotate180 | Rotate270CW
    | FlipX | FlipY | FlipDiag1 | FlipDiag2

  /** The enum's numeric value, the bit index used by TransformationFlags. */
  function Ordinal(t: Transformation): (n: nat)
    ensures n < 8
  {
    match t
    case None => 0
    case Rotate90CW => 1
    case Rotate180 => 2
    case Rotate270CW => 3
    case FlipX => 4
    case FlipY => 5
    case FlipDiag1 => 6
    case FlipDiag2 => 7
  }

  function FromOrdinal(n: nat): (t: Transformation)
    requires n < 8
    ensures Ordinal(t) == n
  {
    if n == 0 then None else if n == 1 then Rotate90CW else if n == 2 then Rotate180
    else if n == 3 then Rotate270CW else if n == 4 then FlipX else if n == 5 then FlipY
    else if n == 6 then FlipDiag1 else FlipDiag2
  }

  lemma OrdinalRoundTrip(t: Transformation)
    ensures FromOrdinal(Ordinal(t)) == t
  {
  }

  /** Invert: the transformation that undoes t. */
  function Invert(t: Transformation): Transformation
  {
    match t
    case Rotate90CW => Rotate270CW
    case Rotate270CW => Rotate90CW
    case _ => t
  }

  /** WillSwapAxes: whether the width and the height trade places. */
  predicate WillSwapAxes(t: Transformation)
  {
    t.Rotate90CW? || t.Rotate270CW? || t.FlipDiag1? || t.FlipDiag2?
  }

  predicate IsReflection(t: Transformation)
  {
    t.FlipX? || t.FlipY? || t.FlipDiag1? || t.FlipDiag2?
  }

  /** The size of the transformed grid. */
  function SizeAfter(t: Transformation, size: Vector2i): Vector2i
  {
    if WillSwapAxes(t) then Vector2i(size.y, size.x) else size
  }

  /** Vector2i::Transform: where position p of a grid of the given size
      lands under t. */
  function Transform(t: Transformation, p: Vector2i, size: Vector2i): Vector2i
  {
    match t
    case Rotate90CW => Vector2i(size.y - p.y - 1, p.x)
    case Rotate270CW => Vector2i(p.y, size.x - p.x - 1)
    case Rotate180 => Vector2i(size.x - p.x - 1, size.y - p.y - 1)
    case FlipX => Vector2i(size.x - p.x - 1, p.y)
    case FlipY => Vector2i(p.x, size.y - p.y - 1)
    case FlipDiag1 => Vector2i(p.y, p.x)
    case FlipDiag2 => Vector2i(size.y - p.y - 1, size.x - p.x - 1)
    case None => p
  }

  /** A position inside the grid lands inside the transformed grid. */
  lemma TransformInBounds(t: Transformation, p: Vector2i, size: Vector2i)
    requires FromSize2(size).Contains(p)
    ensures FromSize2(SizeAfter(t, size)).Contains(Transform(t, p, size))
  {
  }

  /** Invert(t), applied on the transformed grid, brings every position
      back: Rotate90CW and Rotate270CW undo each other, and Rotate180 and
      the four flips are involutions. */
  lemma InvertUndoes(t: Transformation, p: Vector2i, size: Vector2i)
    ensures SizeAfter(Invert(t), SizeAfter(t, size)) == size
    ensures Transform(Invert(t), Transform(t, p, size), SizeAfter(t, size)) == p
  {
  }

  lemma InvertIsInvolution(t: Transformation)
    ensures Invert(Invert(t)) == t
    ensures IsReflection(Invert(t)) == IsReflection(t)
    ensures WillSwapAxes(Invert(t)) == WillSwapAxes(t)
  {
  }

  /** Where a unit step along x, and along y, from the origin is taken. */
  function StepX(t: Transformation, size: Vector2i): Vector2i
  {
    Transform(t, Vector2i(1, 0), size).Minus(Transform(t, Vector2i(0, 0), size))
  }

  function StepY(t: Transformation, size: Vector2i): Vector2i
  {
    Transform(t, Vector2i(0, 1), size).Minus(Transform(t, Vector2i(0, 0), size))
  }

  /** The linear part of t, tabulated: the images of the unit steps. */
  function LinearPart(t: Transformation): (Vector2i, Vector2i)
  {
    match t
    case None => (Vector2i(1, 0), Vector2i(0, 1))
    case Rotate90CW => (Vector2i(0, 1), Vector2i(-1, 0))
    case Rotate180 => (Vector2i(-1, 0), Vector2i(0, -1))
    case Rotate270CW => (Vector2i(0, -1), Vector2i(1, 0))
    case FlipX => (Vector2i(-1, 0), Vector2i(0, 1))
    case FlipY => (Vector2i(1, 0), Vector2i(0, -1))
    case FlipDiag1 => (Vector2i(0, 1), Vector2i(1, 0))
    case FlipDiag2 => (Vector2i(0, -1), Vector2i(-1, 0))
  }

  /** Every transformation is affine: the image of p is the image of the
      origin plus p.x and p.y times the tabulated steps. */
  lemma TransformIsAffine(t: Transformation, p: Vector2i, size: Vector2i)
    ensures var o, l := Transform(t, Vector2i(0, 0), size), LinearPart(t);
            Transform(t, p, size) == Vector2i(o.x + p.x * l.0.x + p.y * l.1.x, o.y + p.x * l.0.y + p.y * l.1.y)
  {
  }

  lemma StepsAreLinearPart(t: Transformation, size: Vector2i)
    ensures StepX(t, size) == LinearPart(t).0
    ensures StepY(t, size) == LinearPart(t).1
  {
    StepXIsLinearPart(t, size);
    StepYIsLinearPart(t, size);
  }

  lemma StepXIsLinearPart(t: Transformation, size: Vector2i)
    ensures StepX(t, size) == LinearPart(t).0
  {
  }

  lemma StepYIsLinearPart(t: Transformation, size: Vector2i)
    ensures StepY(t, size) == LinearPart(t).1
  {
  }

  /** A quarter turn of a step, (x, y) to (-y, x): on a y-down grid the
      clockwise turn. */
  function QuarterTurn(v: Vector2i): Vector2i
  {
    Vector2i(-v.y, v.x)
  }

  /** The opposite quarter turn, (x, y) to (y, -x). */
  function QuarterTurnBack(v: Vector2i): Vector2i
  {
    Vector2i(v.y, -v.x)
  }

  /** An independent characterisation of the two predicates on the linear
      part (which StepsAreLinearPart ties to the geometry of Transform):
      the rotations are the transforms whose y step is the clockwise
      quarter turn of their x step (orientation is kept), the reflections
      turn it the other way, and the axes are swapped exactly when the x
      step lands on the y axis. */
  lemma PredicatesFromGeometry(t: Transformation)
    ensures !IsReflection(t) <==> LinearPart(t).1 == QuarterTurn(LinearPart(t).0)
    ensures IsReflection(t) <==> LinearPart(t).1 == QuarterTurnBack(LinearPart(t).0)
    ensures WillSwapAxes(t) <==> LinearPart(t).0.x == 0
  {
    match t
    case None =>
    case Rotate90CW =>
    case Rotate180 =>
    case Rotate270CW =>
    case FlipX =>
    case FlipY =>
    case FlipDiag1 =>
    case FlipDiag2 =>
  }
}
