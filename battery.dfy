/**
  getBatLevel: the battery percentage published on the battery characteristic,
  computed from the raw 10-bit ADC sample of the supply voltage by a
  piecewise-linear lookup in a CR2032 discharge table. Arithmetic is over
  `real`; the firmware's single-precision floats are not modelled.
 */
module Battery {
  import opened Types

  /** One anchor of the discharge curve: a voltage and the charge percentage there. */
  datatype Point = Point(v: real, c: int)

  /** The anchor table, in decreasing voltage and decreasing percentage. */
  const VcPairs: seq<Point> := [
    Point(3.0, 100), Point(2.9, 80), Point(2.8, 60), Point(2.7, 40),
    Point(2.6, 30), Point(2.5, 20), Point(2.4, 10), Point(2.0, 0)
  ]

  lemma TableDecreasing(i: nat, j: nat)
    requires i < j < |VcPairs|
    ensures VcPairs[j].v < VcPairs[i].v && VcPairs[j].c < VcPairs[i].c
  {
  }

  lemma TableRange(i: nat)
    requires i < |VcPairs|
    ensures 0 <= VcPairs[i].c <= 100
  {
  }

  /** The voltage a raw sample stands for: full scale 3.6 V over 1024 steps. */
  function Volts(raw: uint16): (volts: real)
    ensures 0.0 <= volts
    ensures volts * 1024.0 == raw as real * 3.6
  {
    raw as real * 3.6 / 1024.0
  }

  /** The straight line through two anchors, evaluated at `volts`. */
  function Lerp(p1: Point, p2: Point, volts: real): (r: real)
    requires p2.v != p1.v
    ensures volts == p1.v ==> r == p1.c as real
    ensures volts == p2.v ==> r == p2.c as real
  {
    p1.c as real + (volts - p1.v) * (p2.c - p1.c) as real / (p2.v - p1.v)
  }

  /** On a segment of a falling curve, the line stays between the two anchors' percentages. */
  lemma LerpBetween(p1: Point, p2: Point, volts: real)
    requires p2.v < volts <= p1.v && p2.c <= p1.c
    ensures p2.c as real <= Lerp(p1, p2, volts) <= p1.c as real
  {
    var a, d, dc := volts - p1.v, p2.v - p1.v, (p2.c - p1.c) as real;
    var q := a * dc / d;
    assert Lerp(p1, p2, volts) == p1.c as real + q;
    assert q * d == a * dc;
    assert 0.0 <= a * dc;
    assert q <= 0.0;
    assert (q - dc) * d == dc * (a - d);
    assert dc * (a - d) <= 0.0;
    assert q - dc >= 0.0;
  }

  /** On a segment of a falling curve, the line rises with the voltage. */
  lemma LerpMonotone(p1: Point, p2: Point, x: real, y: real)
    requires p2.v < x <= y <= p1.v && p2.c <= p1.c
    ensures Lerp(p1, p2, x) <= Lerp(p1, p2, y)
  {
    var slope := (p2.c - p1.c) as real / (p2.v - p1.v);
    assert 0.0 <= slope;
    assert Lerp(p1, p2, x) == p1.c as real + (x - p1.v) * slope;
    assert Lerp(p1, p2, y) == p1.c as real + (y - p1.v) * slope;
    assert (x - p1.v) * slope <= (y - p1.v) * slope;
  }

  /**
    The search of the firmware's loop: the first index at or after `i` whose
    anchor voltage lies below `volts`.
   */
  function Bracket(volts: real, i: nat): (j: nat)
    requires 1 <= i < |VcPairs|
    requires volts > VcPairs[|VcPairs| - 1].v
    ensures i <= j < |VcPairs| && VcPairs[j].v < volts
    ensures forall k :: i <= k < j ==> volts <= VcPairs[k].v
    decreases |VcPairs| - i
  {
    if volts > VcPairs[i].v then i else Bracket(volts, i + 1)
  }

  /** The bracketing segment found for a voltage strictly inside the table. */
  lemma {:induction false} BracketSegment(volts: real)
    requires VcPairs[|VcPairs| - 1].v < volts < VcPairs[0].v
    ensures var j := Bracket(volts, 1); VcPairs[j].v < volts <= VcPairs[j - 1].v
  {
    var j := Bracket(volts, 1);
    if j > 1 {
      assert 1 <= j - 1 < j;
    }
  }

  /**
    The unrounded percentage: 100 at or above the first anchor, 0 at or below
    the last, otherwise the line through the bracketing pair.
   */
  function Interpolate(volts: real): (pct: real)
    ensures 0.0 <= pct <= 100.0
    ensures volts >= VcPairs[0].v ==> pct == 100.0
    ensures volts <= VcPairs[|VcPairs| - 1].v ==> pct == 0.0
  {
    if volts >= VcPairs[0].v then 100.0
    else if volts <= VcPairs[|VcPairs| - 1].v then 0.0
    else
      var j := Bracket(volts, 1);
      BracketSegment(volts);
      TableDecreasing(j - 1, j);
      LerpBetween(VcPairs[j - 1], VcPairs[j], volts);
      TableRange(j - 1);
      TableRange(j);
      Lerp(VcPairs[j - 1], VcPairs[j], volts)
  }

  /** Inside the table, the percentage lies between the bracketing anchors' percentages. */
  lemma InterpolateBracketed(volts: real)
    requires VcPairs[|VcPairs| - 1].v < volts < VcPairs[0].v
    ensures var j := Bracket(volts, 1);
      VcPairs[j].v < volts <= VcPairs[j - 1].v &&
      VcPairs[j].c as real <= Interpolate(volts) <= VcPairs[j - 1].c as real
  {
    var j := Bracket(volts, 1);
    BracketSegment(volts);
    TableDecreasing(j - 1, j);
    LerpBetween(VcPairs[j - 1], VcPairs[j], volts);
  }

  /** A higher voltage never gives a lower percentage. */
  lemma InterpolateMonotone(x: real, y: real)
    requires x <= y
    ensures Interpolate(x) <= Interpolate(y)
  {
    var lo, hi := VcPairs[|VcPairs| - 1].v, VcPairs[0].v;
    if x <= lo || y >= hi {
    } else {
      var jx, jy := Bracket(x, 1), Bracket(y, 1);
      InterpolateBracketed(x);
      InterpolateBracketed(y);
      if jx == jy {
        TableDecreasing(jx - 1, jx);
        LerpMonotone(VcPairs[jx - 1], VcPairs[jx], x, y);
      } else {
        assert jy < jx;
        if jy < jx - 1 {
          TableDecreasing(jy, jx - 1);
        }
      }
    }
  }

  /** C's round on a real: to the nearest integer, halves away from zero. */
  function Round(x: real): (n: int)
    ensures n as real - 0.5 <= x <= n as real + 0.5
    ensures 0.0 <= x ==> 0 <= n && x - 0.5 < n as real
    ensures x < 0.0 ==> n <= 0 && x + 0.5 > n as real
  {
    if 0.0 <= x then (x + 0.5).Floor else -((-x + 0.5).Floor)
  }

  lemma RoundMonotone(x: real, y: real)
    requires 0.0 <= x <= y
    ensures Round(x) <= Round(y)
  {
  }

  /** getBatLevel as a value: the rounded percentage for a raw sample. */
  function BatLevel(raw: uint16): (level: uint8)
    ensures level <= 100
    ensures Volts(raw) >= VcPairs[0].v ==> level == 100
    ensures Volts(raw) <= VcPairs[|VcPairs| - 1].v ==> level == 0
  {
    Round(Interpolate(Volts(raw))) as uint8
  }

  /** A larger raw sample never reports less charge. */
  lemma BatLevelMonotone(raw1: uint16, raw2: uint16)
    requires raw1 <= raw2
    ensures BatLevel(raw1) <= BatLevel(raw2)
  {
    assert Volts(raw1) <= Volts(raw2);
    InterpolateMonotone(Volts(raw1), Volts(raw2));
    RoundMonotone(Interpolate(Volts(raw1)), Interpolate(Volts(raw2)));
  }

  /** getBatLevel: clamp at both ends, else search the table and interpolate. */
  method GetBatLevel(raw: uint16) returns (level: uint8)
    ensures level == BatLevel(raw)
    ensures level <= 100
  {
    var volts := Volts(raw);
    if volts >= VcPairs[0].v {
      return 100;
    }
    if volts <= VcPairs[7].v {
      return 0;
    }
    for i := 1 to 8
      invariant forall k :: 1 <= k < i ==> volts <= VcPairs[k].v
    {
      if volts > VcPairs[i].v {
        var p1, p2 := VcPairs[i - 1], VcPairs[i];
        assert Bracket(volts, 1) == i;
        return Round(Lerp(p1, p2, volts)) as uint8;
      }
    }
    assert false;
  }
}
