/** Definitions shared by the two orbit widgets: the disc record, the
    constants of the layout, the geometry of the orbit, the angle walk that
    places the discs on the orbit, and the two collection operations the
    widgets take from the platform library (sorting and the maximum). */
module Orbit {

  /** One disc of the stack. `score` is fixed when the stack is built;
      `scorePct` is the disc's score relative to the reference score of the
      last gesture that touched it; `currentDegrees` is its resting angle on
      the orbit and `nextDegrees` the angle a pending gesture moves it to
      (90 degrees is straight below the center disc). */
  datatype Disc = Disc(score: real, scorePct: real, currentDegrees: real, nextDegrees: real, hidden: bool)

  /** The radii of the center disc and of the orbit path. */
  datatype Geometry = Geometry(centerDiscRadius: real, orbitPathRadius: real)

  /** Half of the angular gap between two consecutive full-size discs. */
  const BaseDistance: real := 30.0
  /** The angle of the disc being dragged: six o'clock. */
  const StartDegrees: real := 90.0
  /** A release with a smaller fraction complete reverses the gesture. */
  const CommitThreshold: real := 0.333
  /** A committed disc with a smaller relative score is hidden. */
  const HideThreshold: real := 0.01

  /** A disc as the widgets create it while rebuilding the stack. */
  function FreshDisc(score: real, pct: real): Disc
  {
    Disc(score, pct, 0.0, 0.0, false)
  }

  // ---------------------------------------------------------------- geometry

  /** The center disc spans 30% of the side of the square the widget lays out
      in (a radius of 0.15 sides), and the orbit path lies 2.15 center radii
      from the center: a
      full-size disc on the orbit clears the center disc, and it stays inside
      the square. */
  function OrbitGeometry(side: real): (g: Geometry)
    requires side >= 0.0
    ensures g.centerDiscRadius == 0.15 * side
    ensures g.orbitPathRadius == 2.15 * g.centerDiscRadius
    ensures side > 0.0 ==> 2.0 * g.centerDiscRadius < g.orbitPathRadius
    ensures g.orbitPathRadius + g.centerDiscRadius <= side / 2.0
  {
    var center := side * 0.15;
    Geometry(center, center * 2.15)
  }

  // ---------------------------------------------------------------- gesture

  /** The animator's fraction complete after a drag of `translation` points
      along an orbit of radius `radius`; the animator keeps the fraction
      within [0, 1]. */
  function FractionComplete(translation: real, radius: real): (f: real)
    requires radius > 0.0
    ensures 0.0 <= f <= 1.0
    ensures translation <= 0.0 ==> f == 0.0
    ensures radius <= translation ==> f == 1.0
  {
    var raw := translation / radius;
    if raw < 0.0 then 0.0 else if raw > 1.0 then 1.0 else raw
  }

  /** Inside the orbit the fraction is exact: the drag covers that fraction
      of the radius. */
  lemma FractionExact(translation: real, radius: real)
    requires radius > 0.0 && 0.0 <= translation <= radius
    ensures FractionComplete(translation, radius) * radius == translation
  {
  }

  /** Dragging further never lowers the fraction complete. */
  lemma FractionMonotone(near: real, far: real, radius: real)
    requires radius > 0.0 && near <= far
    ensures FractionComplete(near, radius) <= FractionComplete(far, radius)
  {
    assert far / radius - near / radius == (far - near) / radius;
  }

  /** A released gesture goes forward to its end unless it is below the
      commit threshold: a drag to the end always commits, a drag that never
      got going never does. */
  function Commits(fraction: real): (b: bool)
    ensures b <==> CommitThreshold <= fraction
    ensures fraction >= 1.0 ==> b
    ensures fraction <= 0.0 ==> !b
  {
    !(fraction < CommitThreshold)
  }

  function Abs(x: real): real
  {
    if x < 0.0 then -x else x
  }

  // ---------------------------------------------------------------- angle walk

  /** The angular distance between two adjacent discs on the orbit, each disc
      contributing in proportion to its relative score. */
  function Spacing(pct: real, prevPct: real): real
  {
    BaseDistance * pct + BaseDistance * prevPct
  }

  /** The angle of participant `i` when the participants are laid out
      outward from six o'clock, each one `Spacing` before the previous one. */
  function WalkAngle(pcts: seq<real>, i: nat): real
    requires i < |pcts|
  {
    if i == 0 then StartDegrees else WalkAngle(pcts, i - 1) - Spacing(pcts[i], pcts[i - 1])
  }

  function Sum(s: seq<real>): real
  {
    if s == [] then 0.0 else Sum(s[..|s| - 1]) + s[|s| - 1]
  }

  /** Closed form of the walk: every inner disc counts twice (once on each
      side), the first and the last disc once. */
  lemma {:induction false} WalkClosedForm(pcts: seq<real>, i: nat)
    requires i < |pcts|
    ensures WalkAngle(pcts, i) == StartDegrees - BaseDistance * (2.0 * Sum(pcts[..i + 1]) - pcts[0] - pcts[i])
  {
    if i == 0 {
      assert pcts[..1][..0] == [];
    } else {
      WalkClosedForm(pcts, i - 1);
      assert pcts[..i + 1][..i] == pcts[..i];
    }
  }

  /** Consecutive full-size discs are exactly 60 degrees apart. */
  lemma {:induction false} WalkEvenSpacing(pcts: seq<real>, i: nat)
    requires i < |pcts|
    requires forall k :: 0 <= k < |pcts| ==> pcts[k] == 1.0
    ensures WalkAngle(pcts, i) == StartDegrees - 60.0 * (i as real)
  {
    if i > 0 {
      WalkEvenSpacing(pcts, i - 1);
    }
  }

  /** With positive relative scores the walk strictly falls: no two
      participants share an angle. */
  lemma {:induction false} WalkFalls(pcts: seq<real>, i: nat, j: nat)
    requires i < j < |pcts|
    requires forall k :: 0 <= k < |pcts| ==> pcts[k] > 0.0
    ensures WalkAngle(pcts, j) < WalkAngle(pcts, i)
  {
    if j > i + 1 {
      WalkFalls(pcts, i, j - 1);
    }
  }

  /** With relative scores in (0, 1] participant `i` lies within 60·i
      degrees of six o'clock. */
  lemma {:induction false} WalkBounds(pcts: seq<real>, i: nat)
    requires i < |pcts|
    requires forall k :: 0 <= k < |pcts| ==> 0.0 < pcts[k] <= 1.0
    ensures StartDegrees - 60.0 * (i as real) <= WalkAngle(pcts, i) <= StartDegrees
  {
    if i > 0 {
      WalkBounds(pcts, i - 1);
    }
  }

  /** A resting or pending fan of discs: the first at six o'clock, each
      later one strictly before the previous one. */
  predicate Fan(angles: seq<real>)
  {
    |angles| > 0 ==>
      angles[0] == StartDegrees && forall k :: 0 < k < |angles| ==> angles[k] < angles[k - 1]
  }

  function Walk(pcts: seq<real>): seq<real>
  {
    seq(|pcts|, i requires 0 <= i < |pcts| => WalkAngle(pcts, i))
  }

  lemma WalkIsFan(pcts: seq<real>)
    requires forall k :: 0 <= k < |pcts| ==> pcts[k] > 0.0
    ensures Fan(Walk(pcts))
  {
    forall k | 0 < k < |pcts|
      ensures Walk(pcts)[k] < Walk(pcts)[k - 1]
    {
      WalkFalls(pcts, k - 1, k);
    }
  }

  // ---------------------------------------------------------------- projections

  /** Each disc's score relative to `ref`. */
  function Ratios(ds: seq<Disc>, ref: real): seq<real>
    requires ref != 0.0
  {
    seq(|ds|, k requires 0 <= k < |ds| => ds[k].score / ref)
  }

  function Scores(ds: seq<Disc>): seq<real>
  {
    seq(|ds|, k requires 0 <= k < |ds| => ds[k].score)
  }

  function Currents(ds: seq<Disc>): seq<real>
  {
    seq(|ds|, k requires 0 <= k < |ds| => ds[k].currentDegrees)
  }

  function Nexts(ds: seq<Disc>): seq<real>
  {
    seq(|ds|, k requires 0 <= k < |ds| => ds[k].nextDegrees)
  }

  /** Relative scores against a positive reference no smaller than any of
      the scores lie in (0, 1]. */
  lemma RatiosInUnitRange(ds: seq<Disc>, ref: real)
    requires ref > 0.0
    requires forall k :: 0 <= k < |ds| ==> 0.0 < ds[k].score <= ref
    ensures forall k :: 0 <= k < |ds| ==> 0.0 < Ratios(ds, ref)[k] <= 1.0
  {
    forall k | 0 <= k < |ds|
      ensures 0.0 < Ratios(ds, ref)[k] <= 1.0
    {
      RatioInUnitRange(ds[k].score, ref);
    }
  }

  lemma RatioInUnitRange(a: real, b: real)
    requires 0.0 < a <= b
    ensures 0.0 < a / b <= 1.0
  {
    assert a / b * b == a;
  }

  // ---------------------------------------------------------------- library

  predicate Descending(s: seq<real>)
  {
    forall i, j :: 0 <= i < j < |s| ==> s[i] >= s[j]
  }

  /** Inserts `x` before the first element it is at least as large as. */
  function Insert(x: real, s: seq<real>): (r: seq<real>)
    ensures |r| == |s| + 1
    ensures multiset(r) == multiset(s) + multiset{x}
    ensures r[0] == (if s == [] || x >= s[0] then x else s[0])
  {
    if s == [] then [x]
    else if x >= s[0] then [x] + s
    else
      assert s == [s[0]] + s[1..];
      [s[0]] + Insert(x, s[1..])
  }

  /** Inserting into a descending list keeps it descending. */
  lemma {:induction false} InsertKeepsDescending(x: real, s: seq<real>)
    requires Descending(s)
    ensures Descending(Insert(x, s))
  {
    if s != [] && x < s[0] {
      var rest := Insert(x, s[1..]);
      assert Descending(s[1..]);
      InsertKeepsDescending(x, s[1..]);
      assert rest[0] <= s[0];
      var r := [s[0]] + rest;
      forall i, j | 0 <= i < j < |r|
        ensures r[i] >= r[j]
      {
        if i == 0 && j > 1 {
          assert rest[0] >= rest[j - 1];
        }
      }
    }
  }

  /** The scores in descending order (a permutation of the input). */
  function SortDescending(s: seq<real>): (r: seq<real>)
    ensures |r| == |s|
    ensures multiset(r) == multiset(s)
    ensures Descending(r)
  {
    if s == [] then []
    else
      assert s == [s[0]] + s[1..];
      var rest := SortDescending(s[1..]);
      InsertKeepsDescending(s[0], rest);
      Insert(s[0], rest)
  }

  /** Sorting keeps a lower bound that holds of every score. */
  lemma SortKeepsBound(s: seq<real>, lo: real)
    requires forall k :: 0 <= k < |s| ==> s[k] > lo
    ensures forall k :: 0 <= k < |s| ==> SortDescending(s)[k] > lo
  {
    var r := SortDescending(s);
    forall k | 0 <= k < |r|
      ensures r[k] > lo
    {
      assert r[k] in multiset(s);
      assert r[k] in s;
    }
  }

  /** The largest score. */
  function MaxOf(s: seq<real>): (m: real)
    requires |s| > 0
    ensures m in s
    ensures forall k :: 0 <= k < |s| ==> s[k] <= m
  {
    if |s| == 1 then s[0]
    else
      var rest := MaxOf(s[1..]);
      if s[0] >= rest then s[0] else rest
  }
}
