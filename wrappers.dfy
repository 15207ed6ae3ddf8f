/** Small value types shared by every game: an optional value (a pointer
  * that may be null, a lookup that may fail) and two-dimensional vectors and
  * rectangles (Vector2 / sf::Vector2f / sf::FloatRect). */
module Wrappers {

  datatype Option<T> = None | Some(value: T)

  datatype Vec2 = Vec2(x: real, y: real)

  const Origin := Vec2(0.0, 0.0)

  function Add(a: Vec2, b: Vec2): Vec2 {
    Vec2(a.x + b.x, a.y + b.y)
  }

  function Scale(a: Vec2, k: real): Vec2 {
    Vec2(a.x * k, a.y * k)
  }

  /** An axis-aligned rectangle: position of the top-left corner and size. */
  datatype Rect = Rect(left: real, top: real, width: real, height: real)
}
