/*
 * What one particle goes through over a finite run of animation frames: the
 * state after each `update` it receives, one per frame, and what the radius
 * does when the pointer stays near it or stays away.
 */
module Trajectories {
  import opened Circles

  /** The particle's state after it has been updated once for each frame, in order. */
  function Trajectory(s: CircleState, frames: seq<Frame>): (r: CircleState)
    ensures r.minRadius == s.minRadius && r.color == s.color
    ensures Abs(r.dx) == Abs(s.dx) && Abs(r.dy) == Abs(s.dy)
    decreases |frames|
  {
    if frames == [] then s else Trajectory(Step(s, frames[0]), frames[1..])
  }

  /** The radius invariant holds after any number of frames. */
  lemma {:induction false} TrajectoryKeepsInv(s: CircleState, frames: seq<Frame>)
    requires Inv(s)
    ensures Inv(Trajectory(s, frames))
    decreases |frames|
  {
    if frames != [] {
      StepKeepsInv(s, frames[0]);
      TrajectoryKeepsInv(Step(s, frames[0]), frames[1..]);
    }
  }

  /** For each frame, whether the pointer was in the box around the moved particle. */
  function Nearness(s: CircleState, frames: seq<Frame>): (near: seq<bool>)
    ensures |near| == |frames|
    ensures forall i :: 0 <= i < |frames| && frames[i].mouse.None? ==> !near[i]
    decreases |frames|
  {
    if frames == [] then []
    else
      var next := Step(s, frames[0]);
      [Near(frames[0].mouse, next.x, next.y)] + Nearness(next, frames[1..])
  }

  /** Entry `i` of `Nearness` is the box test against the position the
      particle has after its first `i + 1` frames, with frame `i`'s pointer. */
  lemma {:induction false} NearnessIsPerFrame(s: CircleState, frames: seq<Frame>, i: nat)
    requires i < |frames|
    ensures Nearness(s, frames)[i]
         == Near(frames[i].mouse, Trajectory(s, frames[..i + 1]).x, Trajectory(s, frames[..i + 1]).y)
    decreases i
  {
    var next := Step(s, frames[0]);
    assert frames[..i + 1][0] == frames[0];
    if i == 0 {
      assert frames[..1][1..] == [];
    } else {
      NearnessIsPerFrame(next, frames[1..], i - 1);
      assert frames[..i + 1][1..] == frames[1..][..i];
    }
  }

  /** The radius after one `Resize` per entry of `near`. */
  function ResizeAll(radius: real, minRadius: real, near: seq<bool>): real
    decreases |near|
  {
    if near == [] then radius else ResizeAll(Resize(radius, minRadius, near[0]), minRadius, near[1..])
  }

  /** The radius of a trajectory depends only on whether the pointer was near in each frame. */
  lemma {:induction false} TrajectoryRadius(s: CircleState, frames: seq<Frame>)
    ensures Trajectory(s, frames).radius == ResizeAll(s.radius, s.minRadius, Nearness(s, frames))
    decreases |frames|
  {
    if frames != [] {
      var next := Step(s, frames[0]);
      TrajectoryRadius(next, frames[1..]);
      assert Nearness(s, frames)[1..] == Nearness(next, frames[1..]);
    }
  }

  function Ceil(v: real): int { -((-v).Floor) }

  function Min(a: real, b: real): real { if a <= b then a else b }

  /** The value at which steady growth stops: the radius itself once it has
      reached `MaxRadius`, otherwise the first whole step at or past it. */
  function GrowthCeiling(radius: real): (c: real)
    ensures radius >= MaxRadius ==> c == radius
    ensures radius < MaxRadius ==> MaxRadius <= c < MaxRadius + 1.0 && IsWhole(c - radius)
  {
    if radius >= MaxRadius then radius else radius + Ceil(MaxRadius - radius) as real
  }

  /** While the pointer stays near, the radius grows by exactly one per frame
      until it reaches `MaxRadius` (possibly passing it by less than one), then holds. */
  lemma {:induction false} SustainedGrowth(radius: real, minRadius: real, near: seq<bool>)
    requires forall i :: 0 <= i < |near| ==> near[i]
    ensures ResizeAll(radius, minRadius, near) == Min(radius + |near| as real, GrowthCeiling(radius))
    decreases |near|
  {
    if near != [] {
      var next := Resize(radius, minRadius, true);
      SustainedGrowth(next, minRadius, near[1..]);
      if radius < MaxRadius {
        var k := MaxRadius - radius;
        assert (-(k - 1.0)).Floor == (-k).Floor + 1;
        assert GrowthCeiling(next) == GrowthCeiling(radius);
      }
    }
  }

  /** While the pointer stays away, a radius `k` whole steps above the minimum
      shrinks by exactly one per frame and then stays on the minimum. */
  lemma {:induction false} SustainedShrink(radius: real, minRadius: real, k: nat, near: seq<bool>)
    requires radius == minRadius + k as real
    requires forall i :: 0 <= i < |near| ==> !near[i]
    ensures ResizeAll(radius, minRadius, near)
         == minRadius + (if k <= |near| then 0 else k - |near|) as real
    decreases |near|
  {
    if near != [] {
      if k == 0 {
        SustainedShrink(radius, minRadius, 0, near[1..]);
      } else {
        SustainedShrink(radius - 1.0, minRadius, k - 1, near[1..]);
      }
    }
  }

  /** Growth monotonicity for a particle: with the pointer in its box on every
      frame, the radius climbs one per frame up to the growth ceiling. */
  lemma GrowsWhileNear(s: CircleState, frames: seq<Frame>)
    requires forall i :: 0 <= i < |frames| ==> Nearness(s, frames)[i]
    ensures Trajectory(s, frames).radius == Min(s.radius + |frames| as real, GrowthCeiling(s.radius))
  {
    TrajectoryRadius(s, frames);
    SustainedGrowth(s.radius, s.minRadius, Nearness(s, frames));
  }

  /** Shrink monotonicity for a particle: with the pointer never in its box,
      the radius drops one per frame and lands exactly on `minRadius` once
      there have been at least `radius - minRadius` frames. */
  lemma ShrinksWhileAway(s: CircleState, frames: seq<Frame>)
    requires Inv(s)
    requires forall i :: 0 <= i < |frames| ==> !Nearness(s, frames)[i]
    ensures s.radius - s.minRadius <= |frames| as real ==> Trajectory(s, frames).radius == s.minRadius
    ensures s.radius - s.minRadius > |frames| as real ==> Trajectory(s, frames).radius == s.radius - |frames| as real
  {
    var k: nat := (s.radius - s.minRadius).Floor;
    assert s.radius == s.minRadius + k as real;
    TrajectoryRadius(s, frames);
    SustainedShrink(s.radius, s.minRadius, k, Nearness(s, frames));
  }

  /** The step does not keep `radius <= MaxRadius`: a radius that is not a
      whole number grows from just under the maximum to just under one past it. */
  lemma RadiusMayPassMax(s: CircleState, f: Frame)
    requires s.radius == 39.5 && s.minRadius == 1.5 && f.mouse == Some(Point(s.x, s.y))
    requires s.dx == 0.0 && s.dy == 0.0
    ensures Inv(s) && Step(s, f).radius == 40.5
  {
  }

  /** A circle growing against a wall keeps flipping its velocity every frame
      and ends up overlapping the wall by far more than one frame's motion. */
  lemma WallOverlapGrows(s: CircleState, f: Frame)
    requires f.width == 100.0 && f.height == 100.0 && f.mouse == Some(Point(95.0, 50.0))
    requires s.x == 95.0 && s.y == 50.0 && s.dx == 0.5 && s.dy == 0.0
    requires s.radius == 4.0 && s.minRadius == 4.0
    ensures Trajectory(s, [f, f, f, f]).x == 95.0
    ensures Trajectory(s, [f, f, f, f]).radius == 8.0
  {
    var s1 := Step(s, f);
    assert s1.x == 95.5 && s1.y == 50.0 && s1.dx == 0.5 && s1.dy == 0.0 && s1.radius == 5.0;
    var s2 := Step(s1, f);
    assert s2.x == 95.0 && s2.y == 50.0 && s2.dx == -0.5 && s2.dy == 0.0 && s2.radius == 6.0;
    var s3 := Step(s2, f);
    assert s3.x == 95.5 && s3.y == 50.0 && s3.dx == 0.5 && s3.dy == 0.0 && s3.radius == 7.0;
    var s4 := Step(s3, f);
    assert s4.x == 95.0 && s4.radius == 8.0;
    assert [f, f, f, f][1..] == [f, f, f] && [f, f, f][1..] == [f, f];
    assert [f, f][1..] == [f] && [f][1..] == [];
    calc {
      Trajectory(s, [f, f, f, f]);
      Trajectory(s1, [f, f, f]);
      Trajectory(s2, [f, f]);
      Trajectory(s3, [f]);
      Trajectory(s4, []);
      s4;
    }
  }
}
