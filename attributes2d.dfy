/** Thor's 2D attribute classes `Positionable`, `Rotatable` and `Scalable`: a position, a rotation
    angle in degrees and a scale, each set absolutely or changed relative to its current value.
    Every setter changes its own field and nothing else. */
module Attributes2D {
  import opened VectorAlgebra

  class Positionable {
    /** `mPosition`. */
    var position: Vector2

    constructor (position: Vector2)
      ensures this.position == position
    {
      this.position := position;
    }

    /** `SetPosition(x, y)`. */
    method SetPosition(x: real, y: real)
      modifies this
      ensures position == Vector2(x, y)
    {
      position := position.(x := x);
      position := position.(y := y);
    }

    /** `SetPosition(position)`: the same as `SetPosition(position.x, position.y)`. */
    method SetPositionVector(p: Vector2)
      modifies this
      ensures position == p
    {
      SetPosition(p.x, p.y);
    }

    /** `Move(offsetX, offsetY)`: adds the offsets to the coordinates. */
    method Move(offsetX: real, offsetY: real)
      modifies this
      ensures position == Vector2(old(position).x + offsetX, old(position).y + offsetY)
    {
      position := position.(x := position.x + offsetX);
      position := position.(y := position.y + offsetY);
    }

    /** `Move(offset)`: the vector sum of position and offset. */
    method MoveVector(offset: Vector2)
      modifies this
      ensures position == Add(old(position), offset)
    {
      Move(offset.x, offset.y);
    }

    /** `GetPosition()`. */
    function GetPosition(): (p: Vector2)
      reads this
      ensures p == position
    {
      position
    }
  }

  /** Two moves add up: moving by `a` and then by `b` is moving by `a + b`, in either order. */
  method MoveTwice(target: Positionable, a: Vector2, b: Vector2)
    modifies target
    ensures target.position == Add(old(target.position), Add(a, b))
    ensures target.position == Add(old(target.position), Add(b, a))
  {
    target.MoveVector(a);
    target.MoveVector(b);
  }

  class Rotatable {
    /** `mRotation`, in degrees. */
    var rotation: real

    constructor (rotation: real)
      ensures this.rotation == rotation
    {
      this.rotation := rotation;
    }

    /** `SetRotation(rotation)`. */
    method SetRotation(angle: real)
      modifies this
      ensures rotation == angle
    {
      rotation := angle;
    }

    /** `Rotate(angle)`: adds the angle to the rotation. */
    method Rotate(angle: real)
      modifies this
      ensures rotation == old(rotation) + angle
    {
      rotation := rotation + angle;
    }

    /** `GetRotation()`. */
    function GetRotation(): (r: real)
      reads this
      ensures r == rotation
    {
      rotation
    }
  }

  class Scalable {
    /** `mScale`. */
    var scale: Vector2

    constructor (scale: Vector2)
      ensures this.scale == scale
    {
      this.scale := scale;
    }

    /** `SetScale(scaleX, scaleY)`. */
    method SetScale(scaleX: real, scaleY: real)
      modifies this
      ensures scale == Vector2(scaleX, scaleY)
    {
      scale := scale.(x := scaleX);
      scale := scale.(y := scaleY);
    }

    /** `SetScale(scale)`: the same as `SetScale(scale.x, scale.y)`. */
    method SetScaleVector(s: Vector2)
      modifies this
      ensures scale == s
    {
      SetScale(s.x, s.y);
    }

    /** `Scale(factorX, factorY)`: multiplies each factor into its coordinate. */
    method Scale(factorX: real, factorY: real)
      modifies this
      ensures scale == Vector2(old(scale).x * factorX, old(scale).y * factorY)
    {
      scale := scale.(x := scale.x * factorX);
      scale := scale.(y := scale.y * factorY);
    }

    /** `Scale(factor)`: the componentwise product of scale and factor. */
    method ScaleVector(factor: Vector2)
      modifies this
      ensures scale == ComponentwiseProduct(old(scale), factor)
    {
      Scale(factor.x, factor.y);
    }

    /** `GetScale()`. */
    function GetScale(): (s: Vector2)
      reads this
      ensures s == scale
    {
      scale
    }
  }

  /** Scaling by a factor without zero component and then by its componentwise inverse restores
      the scale. */
  method ScaleAndUndo(target: Scalable, factor: Vector2)
    requires factor.x != 0.0 && factor.y != 0.0
    modifies target
    ensures target.scale == old(target.scale)
  {
    target.ScaleVector(factor);
    var inverse := ComponentwiseQuotient(Vector2(1.0, 1.0), factor);
    target.ScaleVector(inverse);
    assert ComponentwiseProduct(inverse, factor) == Vector2(1.0, 1.0);
  }
}
