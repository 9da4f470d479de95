/*
 * The component's part of the simulation: building the 800 particles from a
 * stream of random draws, and one animation frame that updates each of them.
 */
module App {
  import opened Circles

  /** The number of particles each run builds. */
  const CircleCount: nat := 800

  /** `Math.random` calls made per particle during construction. */
  const DrawsPerCircle: nat := 6

  /** The draws particle `i` takes from the stream, in call order. */
  function DrawsAt(random: seq<real>, i: nat): Draws
    requires DrawsPerCircle * (i + 1) <= |random|
  {
    var k := DrawsPerCircle * i;
    Draws(random[k], random[k + 1], random[k + 2], random[k + 3], random[k + 4], random[k + 5])
  }

  /** Every draw of `Math.random` lies in [0, 1). */
  predicate UnitDraws(random: seq<real>)
  {
    forall k :: 0 <= k < |random| ==> 0.0 <= random[k] < 1.0
  }

  predicate Distinct(circles: seq<Circle>)
  {
    forall i, j :: 0 <= i < j < |circles| ==> circles[i] != circles[j]
  }

  /** The construction loop of `run`: 800 new particles, particle `i` built
      from the `i`-th group of six draws. */
  method Populate(width: real, height: real, random: seq<real>) returns (circles: seq<Circle>)
    requires DrawsPerCircle * CircleCount <= |random| && UnitDraws(random)
    ensures |circles| == CircleCount && Distinct(circles)
    ensures forall i :: 0 <= i < |circles| ==>
              fresh(circles[i]) && circles[i].State() == Spawn(width, height, DrawsAt(random, i))
  {
    circles := [];
    for i := 0 to CircleCount
      invariant |circles| == i && Distinct(circles)
      invariant forall j :: 0 <= j < i ==>
                  fresh(circles[j]) && circles[j].State() == Spawn(width, height, DrawsAt(random, j))
    {
      var k := DrawsPerCircle * i;
      var radius := random[k] * 3.0 + 1.0;
      var c := new Circle(
        Point(random[k + 1] * (width - radius * 2.0) + radius,
              random[k + 2] * (height - radius * 2.0) + radius),
        Point(random[k + 3] - 0.5, random[k + 4] - 0.5),
        radius, radius, random[k + 5]);
      circles := circles + [c];
    }
  }

  /** One animation frame (without clearing and drawing): every particle is
      updated once, in order, against the same window size and pointer. */
  method Animate(circles: seq<Circle>, f: Frame)
    requires Distinct(circles)
    modifies set c | c in circles
    ensures forall i :: 0 <= i < |circles| ==> circles[i].State() == Step(old(circles[i].State()), f)
  {
    for i := 0 to |circles|
      invariant forall j :: 0 <= j < i ==> circles[j].State() == Step(old(circles[j].State()), f)
      invariant forall j :: i <= j < |circles| ==> circles[j].State() == old(circles[j].State())
    {
      circles[i].Update(f);
    }
  }

  /** `run`: nothing happens without a canvas and a drawing context; otherwise
      the particles are built and the first frame is run at once. Later frames
      are driven by the host, one `Animate` each. */
  method Run(canvasReady: bool, width: real, height: real, random: seq<real>, mouse: Option<Point>)
    returns (circles: seq<Circle>)
    requires DrawsPerCircle * CircleCount <= |random| && UnitDraws(random)
    ensures !canvasReady ==> circles == []
    ensures canvasReady ==> |circles| == CircleCount && Distinct(circles)
    ensures canvasReady ==> forall i :: 0 <= i < |circles| ==>
              fresh(circles[i]) &&
              circles[i].State() == Step(Spawn(width, height, DrawsAt(random, i)), Frame(width, height, mouse))
  {
    if !canvasReady {
      return [];
    }
    circles := Populate(width, height, random);
    Animate(circles, Frame(width, height, mouse));
  }
}
