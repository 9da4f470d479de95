/*
 * One particle of the circle field: its state, the per-frame step, and the
 * class whose `Update` changes that state in place.
 *
 * All numbers are exact reals; the browser's IEEE doubles are not modelled.
 * The window size and the global pointer position that the component reads
 * inside `update` are passed in explicitly as a `Frame`.
 */
module Circles {

  datatype Option<T> = None | Some(value: T)

  /** A position or a velocity: the `Position` and `Velocity` records. */
  datatype Point = Point(x: real, y: real)

  /** What one call of `update` observes from outside the particle:
      `innerWidth`, `innerHeight` and the last pointer position, if any. */
  datatype Frame = Frame(width: real, height: real, mouse: Option<Point>)

  /** The shared upper radius (`Circle.maxRadius`). The class also declares a
      static minimum radius of 2, which nothing reads; each particle uses its
      own `minRadius` instead. */
  const MaxRadius: real := 40.0

  /** Half the side of the square around a particle in which the pointer makes it grow. */
  const Reach: real := 50.0

  /** `colorsArray`. */
  const Palette: seq<string> := ["#520120", "#08403E", "#706513", "#B57114", "#962B09"]

  /** The observable fields of a `Circle` (everything but the drawing context). */
  datatype CircleState = CircleState(
    x: real, y: real,
    dx: real, dy: real,
    radius: real, minRadius: real,
    color: string)

  function Abs(v: real): real { if v < 0.0 then -v else v }

  predicate IsWhole(v: real) { v == v.Floor as real }

  /** What the step keeps: the radius lies between the particle's own minimum
      and one past the shared maximum, a whole number of steps above the minimum. */
  predicate Inv(s: CircleState)
  {
    s.minRadius <= s.radius < MaxRadius + 1.0 && IsWhole(s.radius - s.minRadius)
  }

  /** The wall tests on the position before moving. */
  predicate OutsideX(s: CircleState, width: real)
  {
    s.x + s.radius > width || s.x - s.radius < 0.0
  }

  predicate OutsideY(s: CircleState, height: real)
  {
    s.y + s.radius > height || s.y - s.radius < 0.0
  }

  /** The pointer is known and lies strictly inside the square of half-side
      `Reach` centred on (x, y), written as the component's four differences. */
  predicate Near(mouse: Option<Point>, x: real, y: real)
  {
    match mouse
    case None => false
    case Some(m) => m.x - x < Reach && m.x - x > -Reach && m.y - y < Reach && m.y - y > -Reach
  }

  function Reflect(s: CircleState, f: Frame): CircleState
  {
    s.(dx := if OutsideX(s, f.width) then -s.dx else s.dx,
       dy := if OutsideY(s, f.height) then -s.dy else s.dy)
  }

  function Move(s: CircleState): CircleState
  {
    s.(x := s.x + s.dx, y := s.y + s.dy)
  }

  /** Grow by one towards `MaxRadius` when the pointer is near, otherwise
      shrink by one towards the particle's own minimum. */
  function Resize(radius: real, minRadius: real, near: bool): real
  {
    if near then
      if radius < MaxRadius then radius + 1.0 else radius
    else if radius > minRadius then radius - 1.0 else radius
  }

  /** One call of `update` (without drawing): reflect on the old position,
      move by the possibly flipped velocity, then resize against the new one. */
  function Step(s: CircleState, f: Frame): (r: CircleState)
    // reflection, decided on the position before moving; one flip at most per axis
    ensures OutsideX(s, f.width) ==> r.dx == -s.dx
    ensures !OutsideX(s, f.width) ==> r.dx == s.dx
    ensures OutsideY(s, f.height) ==> r.dy == -s.dy
    ensures !OutsideY(s, f.height) ==> r.dy == s.dy
    ensures Abs(r.dx) == Abs(s.dx) && Abs(r.dy) == Abs(s.dy)
    // the move uses the velocity after reflection
    ensures r.x == s.x + r.dx && r.y == s.y + r.dy
    // growth and shrinking, decided on the position after moving
    ensures Near(f.mouse, r.x, r.y) && s.radius < MaxRadius ==> r.radius == s.radius + 1.0
    ensures Near(f.mouse, r.x, r.y) && s.radius >= MaxRadius ==> r.radius == s.radius
    ensures !Near(f.mouse, r.x, r.y) && s.radius > s.minRadius ==> r.radius == s.radius - 1.0
    ensures !Near(f.mouse, r.x, r.y) && s.radius <= s.minRadius ==> r.radius == s.radius
    ensures f.mouse.None? ==> !Near(f.mouse, r.x, r.y)
    // nothing else changes
    ensures r.minRadius == s.minRadius && r.color == s.color
  {
    var m := Move(Reflect(s, f));
    m.(radius := Resize(m.radius, m.minRadius, Near(f.mouse, m.x, m.y)))
  }

  /** The step keeps the radius invariant. */
  lemma StepKeepsInv(s: CircleState, f: Frame)
    requires Inv(s)
    ensures Inv(Step(s, f))
  {
    var r := Step(s, f);
    var k := s.radius - s.minRadius;
    if r.radius == s.radius - 1.0 {
      // a positive whole difference is at least one
      assert k > 0.0 && IsWhole(k);
      assert k.Floor >= 1;
      assert (k - 1.0).Floor == k.Floor - 1;
    } else if r.radius == s.radius + 1.0 {
      assert (k + 1.0).Floor == k.Floor + 1;
    }
  }

  /** `Math.floor(Math.random() * colorsArray.length)` for a draw in [0, 1). */
  function ColorIndex(draw: real): (i: int)
    requires 0.0 <= draw < 1.0
    ensures 0 <= i < |Palette|
    ensures i as real <= draw * |Palette| as real < i as real + 1.0
  {
    (draw * |Palette| as real).Floor
  }

  /** `a * b` for a draw `a` in [0, 1) lies between 0 and `b`, and is never `b` itself unless `b` is 0. */
  lemma ScaleByDraw(a: real, b: real)
    requires 0.0 <= a < 1.0
    ensures b >= 0.0 ==> 0.0 <= a * b <= b
    ensures b > 0.0 ==> a * b < b
    ensures b < 0.0 ==> b < a * b <= 0.0
  {
  }

  /** The six random draws one iteration of the construction loop makes, in
      the order the component calls `Math.random`: radius, x, y, the two
      velocity components, and the colour inside the constructor. */
  datatype Draws = Draws(radius: real, x: real, y: real, vx: real, vy: real, color: real)

  predicate ValidDraws(d: Draws)
  {
    0.0 <= d.radius < 1.0 && 0.0 <= d.x < 1.0 && 0.0 <= d.y < 1.0 &&
    0.0 <= d.vx < 1.0 && 0.0 <= d.vy < 1.0 && 0.0 <= d.color < 1.0
  }

  /** `Math.random() * (extent - radius * 2) + radius`: a coordinate that keeps
      a circle of that radius inside [0, extent] when it fits. */
  function Place(draw: real, extent: real, radius: real): (p: real)
    requires 0.0 <= draw < 1.0
    ensures extent >= 2.0 * radius ==> radius <= p <= extent - radius
    ensures extent > 2.0 * radius ==> p < extent - radius
    ensures extent < 2.0 * radius ==> extent - radius < p <= radius
  {
    var span := extent - radius * 2.0;
    ScaleByDraw(draw, span);
    draw * span + radius
  }

  /** The state of a freshly built particle on a `width` by `height` surface. */
  function Spawn(width: real, height: real, d: Draws): (r: CircleState)
    requires ValidDraws(d)
    ensures 1.0 <= r.radius < 4.0 && r.minRadius == r.radius
    // the whole circle starts inside the surface when the surface is wide enough
    ensures width >= 2.0 * r.radius ==> r.radius <= r.x <= width - r.radius
    ensures width > 2.0 * r.radius ==> r.x < width - r.radius
    ensures width < 2.0 * r.radius ==> width - r.radius < r.x <= r.radius
    ensures height >= 2.0 * r.radius ==> r.radius <= r.y <= height - r.radius
    ensures height > 2.0 * r.radius ==> r.y < height - r.radius
    ensures height < 2.0 * r.radius ==> height - r.radius < r.y <= r.radius
    ensures -0.5 <= r.dx < 0.5 && -0.5 <= r.dy < 0.5
    ensures r.color in Palette
    ensures Inv(r)
  {
    var radius := d.radius * 3.0 + 1.0;
    CircleState(
      Place(d.x, width, radius), Place(d.y, height, radius),
      d.vx - 0.5, d.vy - 0.5,
      radius, radius,
      Palette[ColorIndex(d.color)])
  }

  class Circle {
    var x: real
    var y: real
    var dx: real
    var dy: real
    var radius: real
    var minRadius: real
    var color: string

    function State(): CircleState
      reads this
    {
      CircleState(x, y, dx, dy, radius, minRadius, color)
    }

    /** The constructor copies its arguments and picks a colour with one draw. */
    constructor (position: Point, velocity: Point, radius: real, minRadius: real, colorDraw: real)
      requires 0.0 <= colorDraw < 1.0
      ensures State() == CircleState(position.x, position.y, velocity.x, velocity.y,
                                     radius, minRadius, Palette[ColorIndex(colorDraw)])
    {
      this.x := position.x;
      this.y := position.y;
      this.radius := radius;
      this.minRadius := minRadius;
      this.dx := velocity.x;
      this.dy := velocity.y;
      this.color := Palette[ColorIndex(colorDraw)];
    }

    /** One animation step of this particle, without the drawing. */
    method Update(f: Frame)
      modifies this
      ensures State() == Step(old(State()), f)
    {
      if x + radius > f.width || x - radius < 0.0 {
        dx := -dx;
      }
      if y + radius > f.height || y - radius < 0.0 {
        dy := -dy;
      }
      x := x + dx;
      y := y + dy;
      if Near(f.mouse, x, y) {
        if radius < MaxRadius {
          radius := radius + 1.0;
        }
      } else if radius > minRadius {
        radius := radius - 1.0;
      }
    }
  }
}
