/** Points of the plane, and the path commands that the outline builders emit. */
module Vectors {

  datatype Vector = Vector(x: real, y: real)

  datatype PathCommand = MoveTo(p: Vector) | LineTo(p: Vector) | CurveTo(c1: Vector, c2: Vector, p: Vector) | Close

  function Lesser(x: real, y: real): real {
    if x < y then x else y
  }

  function Greater(x: real, y: real): real {
    if x > y then x else y
  }
}
