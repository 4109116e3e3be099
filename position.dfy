/** The percentage-based position of animaterm: `x` and `y` are percentages
    of the drawable frame, clamped to [-100, 100] (negative values stand for
    relative deltas), and `offset` counts the lines of multi-line text placed
    below the anchor. */
module Positions {
  import opened GoInt
  import opened Outcomes

  const MinPercent: int := -100
  const MaxPercent: int := 100

  predicate InPercentRange(v: int) {
    MinPercent <= v <= MaxPercent
  }

  /** The clamping every setter applies: the point of [-100, 100] nearest to `v`. */
  function Clamp(v: int): (r: int)
    ensures InPercentRange(r)
    ensures forall w :: InPercentRange(w) ==> Abs(r - v) <= Abs(w - v)
  {
    if v > MaxPercent then MaxPercent else if v < MinPercent then MinPercent else v
  }

  /** One axis of `MultiplyWith`: the float product truncated by Go's `int()`
      conversion, then clamped by `CreatePos`. */
  function ScaleAxis(c: int, factor: real): (r: int)
    ensures InPercentRange(r)
  {
    Clamp(Trunc(c as real * factor))
  }

  class Position {
    var x: int
    var y: int
    var offset: int

    ghost predicate Valid()
      reads this
    {
      InPercentRange(x) && InPercentRange(y)
    }

    /** CreatePos: a zero position whose coordinates are then set through SetXandY. */
    constructor CreatePos(px: int, py: int)
      ensures Valid()
      ensures x == Clamp(px) && y == Clamp(py) && offset == 0
    {
      x, y, offset := 0, 0, 0;
      new;
      var _ := SetXandY(px, py);
    }

    function GetX(): (r: int)
      requires Valid()
      reads this
      ensures InPercentRange(r)
    {
      x
    }

    function GetY(): (r: int)
      requires Valid()
      reads this
      ensures InPercentRange(r)
    {
      y
    }

    function GetXandY(): (r: (int, int))
      requires Valid()
      reads this
      ensures InPercentRange(r.0) && InPercentRange(r.1)
      ensures r.0 == GetX() && r.1 == GetY()
    {
      (x, y)
    }

    function GetOffset(): int
      reads this
    {
      offset
    }

    /** Sets x to the clamped value; never fails. */
    method SetX(percentx: int) returns (err: Outcome)
      modifies this`x
      ensures x == Clamp(percentx) && err == Ok
      ensures y == old(y) && offset == old(offset)
    {
      var v := percentx;
      if v > MaxPercent {
        v := MaxPercent;
      }
      if v < MinPercent {
        v := MinPercent;
      }
      x := v;
      err := Ok;
    }

    /** Sets y to the clamped value; never fails. */
    method SetY(percenty: int) returns (err: Outcome)
      modifies this`y
      ensures y == Clamp(percenty) && err == Ok
      ensures x == old(x) && offset == old(offset)
    {
      var v := percenty;
      if v > MaxPercent {
        v := MaxPercent;
      }
      if v < MinPercent {
        v := MinPercent;
      }
      y := v;
      err := Ok;
    }

    method SetXandY(percentx: int, percenty: int) returns (err: Outcome)
      modifies this`x, this`y
      ensures Valid()
      ensures x == Clamp(percentx) && y == Clamp(percenty) && err == Ok
      ensures offset == old(offset)
    {
      var _ := SetX(percentx);
      var _ := SetY(percenty);
      err := Ok;
    }

    /** Moves one line down and returns the same object, for chaining. */
    method IncrementOffset() returns (self: Position)
      modifies this`offset
      ensures self == this
      ensures offset == old(offset) + 1 && x == old(x) && y == old(y)
    {
      offset := offset + 1;
      self := this;
    }

    method ResetOffset() returns (self: Position)
      modifies this`offset
      ensures self == this
      ensures offset == 0 && x == old(x) && y == old(y)
    {
      offset := 0;
      self := this;
    }

    method SetOffset(v: int) returns (self: Position)
      modifies this`offset
      ensures self == this
      ensures offset == v && x == old(x) && y == old(y)
    {
      offset := v;
      self := this;
    }

    /** The delta to `p2` as a new position; the delta itself is clamped and
        the new offset is 0. */
    method DistanceTo(p2: Position) returns (d: Position)
      ensures fresh(d) && d.Valid()
      ensures d.x == Clamp(p2.x - x) && d.y == Clamp(p2.y - y) && d.offset == 0
    {
      d := new Position.CreatePos(p2.x - x, p2.y - y);
    }

    /** The clamped sum as a new position that keeps this position's offset
        (the offsets are not added). */
    method AddDistance(p2: Position) returns (n: Position)
      ensures fresh(n) && n.Valid()
      ensures n.x == Clamp(x + p2.x) && n.y == Clamp(y + p2.y) && n.offset == offset
    {
      n := new Position.CreatePos(x + p2.x, y + p2.y);
      var _ := n.SetOffset(offset);
    }

    /** Scales both coordinates by `factor` (Go's float32, here a real),
        truncating toward zero, and keeps this position's offset. */
    method MultiplyWith(factor: real) returns (n: Position)
      ensures fresh(n) && n.Valid()
      ensures n.x == ScaleAxis(x, factor) && n.y == ScaleAxis(y, factor) && n.offset == offset
    {
      n := new Position.CreatePos(Trunc(x as real * factor), Trunc(y as real * factor));
      var _ := n.SetOffset(offset);
    }
  }

  /** Clamping is idempotent, so re-creating a valid position changes nothing. */
  lemma ClampIdempotent(v: int)
    ensures Clamp(Clamp(v)) == Clamp(v)
    ensures InPercentRange(v) ==> Clamp(v) == v
  {
  }

  /** The examples the position tests fix for CreatePos. */
  lemma CreatePosExamples()
    ensures Clamp(150) == 100 && Clamp(200) == 100
    ensures Clamp(-150) == -100 && Clamp(-200) == -100
    ensures Clamp(50) == 50 && Clamp(75) == 75
  {
  }

  /** DistanceTo is antisymmetric: swapping the two positions negates the
      (clamped) delta on each axis. */
  lemma DistanceAntisymmetric(a: int, b: int)
    ensures Clamp(b - a) == -Clamp(a - b)
  {
  }

  /** Adding the distance to the end position reaches it exactly when the true
      delta fits in [-100, 100]; a larger delta is clamped and falls short. */
  lemma AddDistanceReachesEnd(start: int, end: int)
    requires InPercentRange(start) && InPercentRange(end)
    ensures Clamp(start + Clamp(end - start)) == end <==> InPercentRange(end - start)
  {
  }

  /** MultiplyWith by 0 yields the zero delta, by 1 the delta itself, and the
      test's (10, 20) * 2.5 is (25, 50). */
  lemma ScaleAxisExamples(c: int)
    requires InPercentRange(c)
    ensures ScaleAxis(c, 0.0) == 0 && ScaleAxis(c, 1.0) == c
    ensures ScaleAxis(10, 2.5) == 25 && ScaleAxis(20, 2.5) == 50
  {
  }

  /** The interpolated point `start + delta * f` stays on the segment between
      start and the (clamped) end while the factor stays within [0, 1]. */
  lemma InterpolationBetween(start: int, delta: int, f: real)
    requires InPercentRange(start) && InPercentRange(delta)
    requires 0.0 <= f <= 1.0
    ensures delta >= 0 ==> start <= Clamp(start + ScaleAxis(delta, f)) <= Clamp(start + delta)
    ensures delta < 0 ==> Clamp(start + delta) <= Clamp(start + ScaleAxis(delta, f)) <= start
  {
    ScaleAxisBetween(delta, f);
  }

  /** Scaling by a factor in [0, 1] moves a coordinate toward 0 without
      changing its sign. */
  lemma ScaleAxisBetween(c: int, f: real)
    requires InPercentRange(c) && 0.0 <= f <= 1.0
    ensures c >= 0 ==> 0 <= ScaleAxis(c, f) <= c
    ensures c < 0 ==> c <= ScaleAxis(c, f) <= 0
  {
    TruncScaledBetween(c, f);
  }

  lemma TruncScaledBetween(c: int, f: real)
    requires 0.0 <= f <= 1.0
    ensures c >= 0 ==> 0 <= Trunc(c as real * f) <= c
    ensures c < 0 ==> c <= Trunc(c as real * f) <= 0
  {
    if c >= 0 {
      ScaledBounds(c, f);
      TruncBetween(c as real * f, 0, c);
    } else {
      NegativeScaledBounds(c, f);
      TruncBetween(c as real * f, c, 0);
    }
  }

  lemma ScaledBounds(c: int, f: real)
    requires c >= 0 && 0.0 <= f <= 1.0
    ensures 0 as real <= c as real * f <= c as real
  {
    RealProductBounds(c as real, f);
  }

  lemma NegativeScaledBounds(c: int, f: real)
    requires c < 0 && 0.0 <= f <= 1.0
    ensures c as real <= c as real * f <= 0 as real
  {
    NegativeProductBounds(c as real, f);
  }

  lemma TruncBetween(p: real, lo: int, hi: int)
    requires lo as real <= p <= hi as real
    ensures lo <= Trunc(p) <= hi
  {
  }

  /** Scaling a non-negative real by a factor in [0, 1] keeps it in [0, a]. */
  lemma RealProductBounds(a: real, f: real)
    requires a >= 0.0 && 0.0 <= f <= 1.0
    ensures 0.0 <= a * f <= a
  {
    assert a - a * f == a * (1.0 - f);
  }

  /** Scaling a negative real by a factor in [0, 1] keeps it in [a, 0]. */
  lemma NegativeProductBounds(a: real, f: real)
    requires a < 0.0 && 0.0 <= f <= 1.0
    ensures a <= a * f <= 0.0
  {
    var na := -a;
    RealProductBounds(na, f);
    assert na * f == -(a * f);
  }
}
