/** The orbit widget that keeps the scores in the order given, measures
    them against the largest score when the stack is built, and only lets
    discs be pulled down off the center disc. */
module ScoringOrbit {
  import opened Orbit
  import PlainOrbit

  /** The discs once a downward pull has been prepared with `ds[center]`
      staying in the center: that disc is the reference (relative score 1)
      and the participants after it are measured against it and walked
      outward from six o'clock. */
  function Retargeted(ds: seq<Disc>, center: nat): seq<Disc>
    requires center + 1 < |ds| && ds[center].score != 0.0
  {
    var pcts := Ratios(ds[center + 1..], ds[center].score);
    seq(|ds|, k requires 0 <= k < |ds| =>
      if k < center then ds[k]
      else if k == center then ds[k].(scorePct := 1.0)
      else ds[k].(scorePct := pcts[k - center - 1], nextDegrees := WalkAngle(pcts, k - center - 1)))
  }

  /** The discs once a pull with `ds[center]` staying in the center has
      committed: from the center disc on, every disc is hidden exactly when
      its relative score is below the hide threshold, and rests at its
      pending angle. */
  function Settled(ds: seq<Disc>, center: nat): seq<Disc>
  {
    seq(|ds|, k requires 0 <= k < |ds| =>
      if k < center then ds[k]
      else ds[k].(hidden := ds[k].scorePct < HideThreshold, currentDegrees := ds[k].nextDegrees))
  }

  /** The preparation loop of `.began`: the center disc is set to 100%, the
      dragged disc to six o'clock, and each later participant one spacing
      further on. */
  method Prepare(ds: seq<Disc>, center: nat) returns (r: seq<Disc>)
    requires center + 1 < |ds| && ds[center].score != 0.0
    ensures r == Retargeted(ds, center)
  {
    var curMaxScore := ds[center].score;
    ghost var pcts := Ratios(ds[center + 1..], curMaxScore);
    ghost var target := Retargeted(ds, center);
    var d := StartDegrees;
    r := ds[center := ds[center].(scorePct := 1.0)];
    assert ds[center + 1..][0] == ds[center + 1];
    r := r[center + 1 := r[center + 1].(scorePct := r[center + 1].score / curMaxScore, nextDegrees := d)];
    for i := 2 to |ds| - center
      invariant |r| == |ds|
      invariant forall k :: 0 <= k < center ==> r[k] == ds[k]
      invariant forall k :: center + i <= k < |ds| ==> r[k] == ds[k]
      invariant forall k :: center <= k < center + i ==> r[k] == target[k]
      invariant r[center + i - 1].scorePct == pcts[i - 2]
      invariant d == WalkAngle(pcts, i - 2)
    {
      assert pcts[i - 1] == ds[center + i].score / curMaxScore by {
        assert ds[center + 1..][i - 1] == ds[center + i];
      }
      r := r[center + i := r[center + i].(scorePct := r[center + i].score / curMaxScore)];
      var dist := BaseDistance * r[center + i].scorePct + BaseDistance * r[center + i - 1].scorePct;
      assert dist == Spacing(pcts[i - 1], pcts[i - 2]);
      d := d - dist;
      r := r[center + i := r[center + i].(nextDegrees := d)];
      assert r[center + i] == target[center + i];
    }
  }

  /** The completion loop of a committed pull. */
  method Settle(ds: seq<Disc>, center: nat) returns (r: seq<Disc>)
    requires center <= |ds|
    ensures r == Settled(ds, center)
  {
    r := ds;
    for k := center to |ds|
      invariant |r| == |ds|
      invariant forall j :: 0 <= j < |ds| ==> r[j] == (if center <= j < k then Settled(ds, center)[j] else ds[j])
    {
      r := r[k := r[k].(hidden := r[k].scorePct < HideThreshold, currentDegrees := r[k].nextDegrees)];
    }
  }

  /** The rebuild loop: one disc per score, in the order given, measured
      against `maxScore`. */
  method BuildDiscs(scores: seq<real>, maxScore: real) returns (ds: seq<Disc>)
    requires maxScore != 0.0
    ensures |ds| == |scores|
    ensures forall k :: 0 <= k < |ds| ==> ds[k] == FreshDisc(scores[k], scores[k] / maxScore)
  {
    ds := [];
    for i := 0 to |scores|
      invariant |ds| == i
      invariant forall k :: 0 <= k < i ==> ds[k] == FreshDisc(scores[k], scores[k] / maxScore)
    {
      ds := ds + [FreshDisc(scores[i], scores[i] / maxScore)];
    }
  }

  /** Both widgets lay out a downward pull alike: the participants after the
      disc staying in the center get the same relative scores and pending
      angles. */
  lemma SameDownwardLayout(ds: seq<Disc>, center: nat)
    requires center + 1 < |ds| && ds[center].score != 0.0
    ensures var plain := PlainOrbit.Retargeted(ds, center + 1, ds[center].score, PlainOrbit.Down);
      forall k :: center < k < |ds| ==> Retargeted(ds, center)[k] == plain[k]
  {
  }

  /** After a committed pull the discs before the center disc are as they
      were, the disc left in the center is at 100% and visible, and every
      other participant is hidden exactly when its score is below 1% of the
      center disc's score. */
  lemma CommitVisibility(ds: seq<Disc>, center: nat)
    requires center + 1 < |ds| && ds[center].score > 0.0
    ensures var s := Settled(Retargeted(ds, center), center);
      && (forall k :: 0 <= k < center ==> s[k] == ds[k])
      && s[center].scorePct == 1.0 && !s[center].hidden
      && forall k :: center < k < |ds| ==> (s[k].hidden <==> ds[k].score < HideThreshold * ds[center].score)
  {
    var ref := ds[center].score;
    var r := Retargeted(ds, center);
    var s := Settled(r, center);
    forall k | center < k < |ds|
      ensures s[k].hidden <==> ds[k].score < HideThreshold * ref
    {
      assert ds[center + 1..][k - center - 1] == ds[k];
      assert s[k].hidden == (r[k].scorePct < HideThreshold);
      assert r[k].scorePct == ds[k].score / ref;
      BelowShare(ds[k].score, ref, HideThreshold);
    }
  }

  lemma BelowShare(a: real, b: real, t: real)
    requires b > 0.0
    ensures a / b < t <==> a < t * b
  {
    assert a / b * b == a;
    if a / b < t {
      assert a / b * b < t * b;
    }
    if a < t * b {
      assert a / b * b < t * b;
    }
  }

  /** The stack at rest: non-empty, positive scores (in any order), the
      active index inside it, and the discs beyond the active one resting in
      a fan from six o'clock. */
  ghost predicate StackOk(ds: seq<Disc>, active: nat)
  {
    && 0 < |ds|
    && active < |ds|
    && (forall k :: 0 <= k < |ds| ==> ds[k].score > 0.0)
    && Fan(Currents(ds[active + 1..]))
  }

  /** A pull in flight keeps the disc before the active one in the center,
      at 100%, and has a fan of pending angles from the active disc on. */
  ghost predicate SessionOk(ds: seq<Disc>, active: nat, dragging: bool, center: nat)
  {
    dragging ==> center + 1 == active < |ds| && ds[center].scorePct == 1.0 && Fan(Nexts(ds[active..]))
  }

  /** A freshly built stack measured against its largest score: relative
      scores in (0, 1], exactly 1 for a largest score, and at rest with the
      last disc active. */
  lemma BuiltStackOk(scores: seq<real>, maxScore: real, ds: seq<Disc>)
    requires |scores| > 0 && forall k :: 0 <= k < |scores| ==> scores[k] > 0.0
    requires maxScore in scores && forall k :: 0 <= k < |scores| ==> scores[k] <= maxScore
    requires |ds| == |scores|
    requires forall k :: 0 <= k < |ds| ==> ds[k] == FreshDisc(scores[k], scores[k] / maxScore)
    ensures forall k :: 0 <= k < |ds| ==> 0.0 < ds[k].scorePct <= 1.0
    ensures forall k :: 0 <= k < |ds| ==> (ds[k].scorePct == 1.0 <==> scores[k] == maxScore)
    ensures StackOk(ds, |ds| - 1)
  {
    forall k | 0 <= k < |ds|
      ensures 0.0 < ds[k].scorePct <= 1.0
      ensures ds[k].scorePct == 1.0 <==> scores[k] == maxScore
    {
      RatioInUnitRange(scores[k], maxScore);
      assert scores[k] / maxScore * maxScore == scores[k];
    }
    assert Currents(ds[|ds|..]) == [];
  }

  /** Preparing a pull changes neither a score nor a resting angle. */
  lemma RetargetedFrame(ds: seq<Disc>, center: nat)
    requires center + 1 < |ds| && ds[center].score != 0.0
    ensures var r := Retargeted(ds, center);
      && |r| == |ds|
      && (forall k :: 0 <= k < |ds| ==> r[k].score == ds[k].score)
      && Currents(r) == Currents(ds)
  {
  }

  /** The pending angles of the participants after the center disc are the
      walk of their scores relative to the center disc's. */
  lemma RetargetedWalk(ds: seq<Disc>, center: nat)
    requires center + 1 < |ds| && ds[center].score != 0.0
    ensures Nexts(Retargeted(ds, center)[center + 1..]) == Walk(Ratios(ds[center + 1..], ds[center].score))
  {
  }

  lemma PreparedOk(ds: seq<Disc>, active: nat, r: seq<Disc>)
    requires StackOk(ds, active) && active > 0
    requires r == Retargeted(ds, active - 1)
    ensures StackOk(r, active) && SessionOk(r, active, true, active - 1)
  {
    PreparedStackOk(ds, active, r);
    PreparedSessionOk(ds, active, r);
  }

  lemma PreparedStackOk(ds: seq<Disc>, active: nat, r: seq<Disc>)
    requires StackOk(ds, active) && active > 0
    requires r == Retargeted(ds, active - 1)
    ensures StackOk(r, active)
  {
    RetargetedFrame(ds, active - 1);
    assert Currents(r[active + 1..]) == Currents(r)[active + 1..];
    assert Currents(ds[active + 1..]) == Currents(ds)[active + 1..];
  }

  lemma PreparedSessionOk(ds: seq<Disc>, active: nat, r: seq<Disc>)
    requires 0 < active < |ds| && forall k :: 0 <= k < |ds| ==> ds[k].score > 0.0
    requires r == Retargeted(ds, active - 1)
    ensures SessionOk(r, active, true, active - 1)
  {
    var pcts := Ratios(ds[active..], ds[active - 1].score);
    forall k | 0 <= k < |pcts|
      ensures pcts[k] > 0.0
    {
      assert ds[active..][k] == ds[active + k];
    }
    RetargetedWalk(ds, active - 1);
    WalkIsFan(pcts);
  }

  lemma SettledOk(ds: seq<Disc>, active: nat, center: nat)
    requires StackOk(ds, active) && SessionOk(ds, active, true, center)
    ensures StackOk(Settled(ds, center), center)
  {
    var r := Settled(ds, center);
    assert forall k :: 0 <= k < |r| ==> r[k].score == ds[k].score;
    assert Currents(r[center + 1..]) == Nexts(ds[active..]);
  }

  class ScoringOrbitView {
    /** `discViews` in the order of the scores: index 0 is the center disc. */
    var discs: seq<Disc>
    /** The position of `activeDisc` in `discViews`. */
    var active: nat
    var maxScore: real
    var thisWidth: real
    var centerDiscRadius: real
    var orbitPathRadius: real
    var isDragging: bool
    /** `idx - 1` of the last accepted `.began`: the disc that stays in the
        center, from which the animator's completion acts. */
    var centerIdx: nat
    /** The animator's `fractionComplete`. */
    var fractionComplete: real

    ghost predicate Valid()
      reads this
    {
      StackOk(discs, active) && SessionOk(discs, active, isDragging, centerIdx)
    }

    /** A new widget has no disc until scores are assigned. */
    constructor ()
      ensures discs == [] && !isDragging && maxScore == 0.0
      ensures thisWidth == 0.0 && centerDiscRadius == 0.0 && orbitPathRadius == 0.0
    {
      discs := [];
      active := 0;
      maxScore := 0.0;
      thisWidth := 0.0;
      centerDiscRadius := 0.0;
      orbitPathRadius := 0.0;
      isDragging := false;
      centerIdx := 0;
      fractionComplete := 0.0;
    }

    /** Assigning `scores`: the largest score becomes `maxScore`, one disc per
        score in the order given with its score relative to `maxScore`
        (so in (0, 1], exactly 1 for a largest score), the last disc active,
        and the width memo cleared. An empty list keeps the old `maxScore`,
        leaves no disc and traps. */
    method SetScores(scores: seq<real>) returns (fatal: bool)
      requires forall k :: 0 <= k < |scores| ==> scores[k] > 0.0
      requires !isDragging
      modifies this`discs, this`active, this`maxScore, this`thisWidth
      ensures fatal <==> scores == []
      ensures fatal ==> discs == [] && maxScore == old(maxScore)
      ensures !fatal ==> maxScore in scores && forall k :: 0 <= k < |scores| ==> scores[k] <= maxScore
      ensures |discs| == |scores|
      ensures forall k :: 0 <= k < |discs| ==> discs[k] == FreshDisc(scores[k], scores[k] / maxScore)
      ensures forall k :: 0 <= k < |discs| ==> 0.0 < discs[k].scorePct <= 1.0
      ensures forall k :: 0 <= k < |discs| ==> (discs[k].scorePct == 1.0 <==> scores[k] == maxScore)
      ensures !fatal ==> Valid() && active == |discs| - 1 && thisWidth == 0.0
    {
      discs := [];
      if |scores| > 0 {
        maxScore := MaxOf(scores);
      }
      if |scores| == 0 {
        return true;
      }
      discs := BuildDiscs(scores, maxScore);
      BuiltStackOk(scores, maxScore, discs);
      active := |discs| - 1;
      thisWidth := 0.0;
      fatal := false;
    }

    /** A layout pass recomputes the geometry from the width only when the
        width differs from the memoised one. */
    method LayoutSubviews(width: real)
      requires width >= 0.0
      modifies this`thisWidth, this`centerDiscRadius, this`orbitPathRadius
      ensures thisWidth == width
      ensures width != old(thisWidth) ==>
        && centerDiscRadius == OrbitGeometry(width).centerDiscRadius
        && orbitPathRadius == OrbitGeometry(width).orbitPathRadius
      ensures width == old(thisWidth) ==>
        centerDiscRadius == old(centerDiscRadius) && orbitPathRadius == old(orbitPathRadius)
    {
      if width != thisWidth {
        thisWidth := width;
        var g := OrbitGeometry(width);
        centerDiscRadius := g.centerDiscRadius;
        orbitPathRadius := g.orbitPathRadius;
      }
    }

    /** `.began`: refused when the active disc is the center disc or the
        touch is outside the center disc; otherwise the disc before the
        active one stays in the center and the pull is prepared. */
    method Began(inCenterDisc: bool) returns (started: bool)
      requires Valid()
      modifies this`discs, this`isDragging, this`centerIdx, this`fractionComplete
      ensures Valid()
      ensures started <==> active > 0 && inCenterDisc
      ensures !started ==>
        && discs == old(discs) && isDragging == old(isDragging)
        && centerIdx == old(centerIdx) && fractionComplete == old(fractionComplete)
      ensures started ==>
        && isDragging && centerIdx == active - 1 && fractionComplete == 0.0
        && discs == Retargeted(old(discs), active - 1)
    {
      var idx := active;
      if idx == 0 {
        return false;
      }
      if !inCenterDisc {
        return false;
      }
      var ds := Prepare(discs, idx - 1);
      PreparedOk(discs, idx, ds);
      discs := ds;
      centerIdx := idx - 1;
      isDragging := true;
      fractionComplete := 0.0;
      started := true;
    }

    /** `.changed`: the downward drag distance sets the animator's fraction
        complete. */
    method Changed(translationY: real)
      requires Valid()
      requires isDragging ==> orbitPathRadius > 0.0
      modifies this`fractionComplete
      ensures Valid()
      ensures isDragging ==> fractionComplete == FractionComplete(translationY, orbitPathRadius)
      ensures !isDragging ==> fractionComplete == old(fractionComplete)
    {
      if active == 0 {
        return;
      }
      if isDragging {
        fractionComplete := FractionComplete(translationY, orbitPathRadius);
      }
    }

    /** `.ended` and the animator's completion: below the commit threshold
        the pull reverses and the stack is as it was; otherwise the center
        disc becomes active and every participant is hidden exactly when its
        relative score is below the hide threshold and rests at its pending
        angle. The widget is no longer dragging. */
    method Release() returns (committed: bool)
      requires Valid()
      modifies this`discs, this`active, this`isDragging
      ensures Valid()
      ensures !isDragging
      ensures committed <==> old(isDragging) && Commits(fractionComplete)
      ensures committed ==> active == centerIdx && discs == Settled(old(discs), centerIdx)
      ensures !committed ==> active == old(active) && discs == old(discs)
    {
      committed := false;
      if active == 0 {
        return;
      }
      if isDragging {
        var reversed := fractionComplete < CommitThreshold;
        if !reversed {
          SettledOk(discs, active, centerIdx);
          active := centerIdx;
          discs := Settle(discs, centerIdx);
          committed := true;
        }
      }
      isDragging := false;
    }

    /** One whole pull from rest: `.began`, one `.changed`, and the
        release. The pull starts exactly when the active disc is not the
        center disc and the touch is in the center disc, and commits exactly
        when it started and the drag reached the commit threshold. A
        committed pull moves the active index one step toward the center
        disc, leaves that disc at 100% and visible, and settles the prepared
        stack; a reversed one keeps the prepared stack with every resting
        angle as it was. */
    method Pan(inCenterDisc: bool, translationY: real) returns (started: bool, committed: bool)
      requires Valid() && !isDragging && orbitPathRadius > 0.0
      modifies this`discs, this`active, this`isDragging, this`centerIdx, this`fractionComplete
      ensures Valid() && !isDragging
      ensures started <==> old(active) > 0 && inCenterDisc
      ensures committed <==> started && Commits(FractionComplete(translationY, orbitPathRadius))
      ensures !started ==> discs == old(discs)
      ensures started && !committed ==> discs == Retargeted(old(discs), old(active) - 1)
      ensures !committed ==> active == old(active) && Currents(discs) == Currents(old(discs))
      ensures committed ==>
        && active == old(active) - 1
        && discs == Settled(Retargeted(old(discs), active), active)
        && discs[active].scorePct == 1.0 && !discs[active].hidden
    {
      started := Began(inCenterDisc);
      Changed(translationY);
      committed := Release();
      if committed {
        CommitVisibility(old(discs), active);
      } else if started {
        RetargetedFrame(old(discs), active - 1);
      }
    }
  }
}
