/** The orbit widget whose stack is sorted by descending score and whose
    discs can be pulled down off the center disc and pushed back up. */
module PlainOrbit {
  import opened Orbit

  datatype PanDirection = Up | Down | Undetermined

  datatype Size = Size(width: real, height: real)

  /** Seven equal scores, so that a new widget has something to show. */
  const DefaultScores: seq<real> := [1.0, 1.0, 1.0, 1.0, 1.0, 1.0, 1.0]

  function Min(a: real, b: real): real
  {
    if a <= b then a else b
  }

  /** The angle an upward pull gives participant `i`: the dragged disc and
      the next one both get six o'clock, and every later participant is
      given the value the walk had reached one participant earlier, so it
      lags the downward walk by its own spacing. */
  function UpAngle(pcts: seq<real>, i: nat): (a: real)
    requires i < |pcts|
    ensures i == 0 ==> a == StartDegrees
    ensures 0 < i ==> a == WalkAngle(pcts, i) + Spacing(pcts[i], pcts[i - 1])
  {
    if i == 0 then StartDegrees else WalkAngle(pcts, i - 1)
  }

  /** The score the participants are measured against: the disc that stays
      in the center on a downward pull, the dragged disc itself on an upward
      pull. It is a score of the stack, and in a descending stack no
      participant's score exceeds it. */
  function Reference(ds: seq<Disc>, idx: nat, dir: PanDirection): (ref: real)
    requires idx < |ds|
    requires dir == Down ==> idx > 0
    ensures ref in Scores(ds)
    ensures Descending(Scores(ds)) ==> forall k :: idx <= k < |ds| ==> ds[k].score <= ref
  {
    assert Scores(ds)[idx] == ds[idx].score;
    assert dir == Down ==> Scores(ds)[idx - 1] == ds[idx - 1].score;
    assert forall k :: idx <= k < |ds| ==> Scores(ds)[k] == ds[k].score;
    if dir == Down then ds[idx - 1].score else ds[idx].score
  }

  /** The discs once a gesture of direction `dir` has been prepared on the
      participants `ds[idx..]`: each gets its score relative to `ref`, and
      its pending angle from the walk of the relative scores. */
  function Retargeted(ds: seq<Disc>, idx: nat, ref: real, dir: PanDirection): seq<Disc>
    requires idx <= |ds| && ref != 0.0
  {
    var pcts := Ratios(ds[idx..], ref);
    seq(|ds|, k requires 0 <= k < |ds| =>
      if k < idx then ds[k]
      else ds[k].(scorePct := pcts[k - idx],
                  nextDegrees := if dir == Up then UpAngle(pcts, k - idx) else WalkAngle(pcts, k - idx)))
  }

  /** The discs once a gesture on the participants `ds[idx..]` has
      committed: each participant rests at its pending angle. */
  function Settled(ds: seq<Disc>, idx: nat): seq<Disc>
  {
    seq(|ds|, k requires 0 <= k < |ds| => if k < idx then ds[k] else ds[k].(currentDegrees := ds[k].nextDegrees))
  }

  /** Preparing a gesture touches only the participants, and on them only
      the relative score (the score over the reference) and the pending
      angle. */
  lemma RetargetedFrame(ds: seq<Disc>, idx: nat, ref: real, dir: PanDirection)
    requires idx <= |ds| && ref != 0.0
    ensures var r := Retargeted(ds, idx, ref, dir);
      && |r| == |ds|
      && (forall k :: 0 <= k < idx ==> r[k] == ds[k])
      && (forall k :: idx <= k < |ds| ==>
            r[k] == ds[k].(scorePct := ds[k].score / ref, nextDegrees := r[k].nextDegrees))
  {
    var r := Retargeted(ds, idx, ref, dir);
    forall k | idx <= k < |ds|
      ensures r[k] == ds[k].(scorePct := ds[k].score / ref, nextDegrees := r[k].nextDegrees)
    {
      assert ds[idx..][k - idx] == ds[k];
    }
  }

  /** The recurrences the preparation loop runs: on a downward pull the
      dragged disc gets 90 degrees and each later participant the previous
      angle minus the spacing of itself and its predecessor; on an upward
      pull the first two participants get 90 degrees and each later one the
      previous angle minus the spacing of the two participants before it. */
  lemma RetargetedSteps(ds: seq<Disc>, idx: nat, ref: real, dir: PanDirection)
    requires idx < |ds| && ref != 0.0
    ensures var r := Retargeted(ds, idx, ref, dir);
      && r[idx].nextDegrees == StartDegrees
      && (dir != Up ==> forall k :: idx < k < |ds| ==>
            r[k].nextDegrees == r[k - 1].nextDegrees - Spacing(r[k].scorePct, r[k - 1].scorePct))
      && (dir == Up && idx + 1 < |ds| ==> r[idx + 1].nextDegrees == StartDegrees)
      && (dir == Up ==> forall k :: idx + 1 < k < |ds| ==>
            r[k].nextDegrees == r[k - 1].nextDegrees - Spacing(r[k - 1].scorePct, r[k - 2].scorePct))
  {
    var r := Retargeted(ds, idx, ref, dir);
    var pcts := Ratios(ds[idx..], ref);
    if dir != Up {
      forall k | idx < k < |ds|
        ensures r[k].nextDegrees == r[k - 1].nextDegrees - Spacing(r[k].scorePct, r[k - 1].scorePct)
      {
        assert r[k].nextDegrees == WalkAngle(pcts, k - idx);
        assert r[k - 1].nextDegrees == WalkAngle(pcts, k - 1 - idx);
      }
    } else {
      forall k | idx + 1 < k < |ds|
        ensures r[k].nextDegrees == r[k - 1].nextDegrees - Spacing(r[k - 1].scorePct, r[k - 2].scorePct)
      {
        assert r[k].nextDegrees == WalkAngle(pcts, k - idx - 1);
        assert r[k - 1].nextDegrees == UpAngle(pcts, k - 1 - idx);
      }
    }
  }

  /** In a stack sorted by descending positive score, measuring the
      participants against the disc before them or against the first of
      them gives every participant a relative score in (0, 1]. */
  lemma RetargetedPctsAtMostOne(ds: seq<Disc>, idx: nat, dir: PanDirection)
    requires idx < |ds| && (dir == Down ==> idx > 0)
    requires forall k :: 0 <= k < |ds| ==> ds[k].score > 0.0
    requires forall i, j :: 0 <= i < j < |ds| ==> ds[i].score >= ds[j].score
    ensures var r := Retargeted(ds, idx, Reference(ds, idx, dir), dir);
      forall k :: idx <= k < |ds| ==> 0.0 < r[k].scorePct <= 1.0
  {
    var ref := Reference(ds, idx, dir);
    forall k | idx <= k < |ds|
      ensures 0.0 < ds[k].score / ref <= 1.0
    {
      RatioInUnitRange(ds[k].score, ref);
    }
  }

  /** The pending angles of a prepared gesture form a fan from six o'clock:
      all participants on a downward pull, all but the dragged disc (which
      goes back to the center) on an upward pull. */
  lemma RetargetedFan(ds: seq<Disc>, idx: nat, ref: real, dir: PanDirection)
    requires idx < |ds| && ref > 0.0
    requires forall k :: 0 <= k < |ds| ==> ds[k].score > 0.0
    ensures dir != Up ==> Fan(Nexts(Retargeted(ds, idx, ref, dir)[idx..]))
    ensures dir == Up ==> Fan(Nexts(Retargeted(ds, idx, ref, dir)[idx + 1..]))
  {
    var pcts := Ratios(ds[idx..], ref);
    var r := Retargeted(ds, idx, ref, dir);
    forall k | 0 <= k < |pcts|
      ensures pcts[k] > 0.0
    {
      assert ds[idx..][k] == ds[idx + k];
    }
    if dir != Up {
      var a := Nexts(r[idx..]);
      forall k | 0 < k < |a|
        ensures a[k] < a[k - 1]
      {
        WalkFalls(pcts, k - 1, k);
      }
    } else {
      var a := Nexts(r[idx + 1..]);
      forall k | 0 < k < |a|
        ensures a[k] < a[k - 1]
      {
        assert a[k] == WalkAngle(pcts, k) && a[k - 1] == WalkAngle(pcts, k - 1);
        WalkFalls(pcts, k - 1, k);
      }
    }
  }

  /** Committing moves the pending angles of the participants, and only
      theirs, into their resting angles. */
  lemma SettledCurrents(ds: seq<Disc>, idx: nat, lo: nat)
    requires idx <= lo <= |ds|
    ensures Currents(Settled(ds, idx)[lo..]) == Nexts(ds[lo..])
  {
  }

  /** Preparing a gesture leaves every resting angle as it was. */
  lemma RetargetedCurrents(ds: seq<Disc>, idx: nat, ref: real, dir: PanDirection, lo: nat)
    requires idx <= |ds| && ref != 0.0 && lo <= |ds|
    ensures Currents(Retargeted(ds, idx, ref, dir)[lo..]) == Currents(ds[lo..])
  {
  }

  /** The preparation loop of `.began`: walks outward from six o'clock over
      the participants `ds[idx..]`, giving each its score relative to `ref`
      and its pending angle. */
  method Prepare(ds: seq<Disc>, idx: nat, ref: real, dir: PanDirection) returns (r: seq<Disc>)
    requires idx < |ds| && ref != 0.0 && dir != Undetermined
    ensures r == Retargeted(ds, idx, ref, dir)
  {
    ghost var pcts := Ratios(ds[idx..], ref);
    ghost var target := Retargeted(ds, idx, ref, dir);
    var d := StartDegrees;
    r := ds[idx := ds[idx].(scorePct := ds[idx].score / ref, nextDegrees := d)];
    assert ds[idx..][0] == ds[idx];
    for i := 1 to |ds| - idx
      invariant |r| == |ds|
      invariant forall k :: 0 <= k < idx ==> r[k] == ds[k]
      invariant forall k :: idx + i <= k < |ds| ==> r[k] == ds[k]
      invariant forall k :: idx <= k < idx + i ==> r[k] == target[k]
      invariant r[idx + i - 1].scorePct == pcts[i - 1]
      invariant d == WalkAngle(pcts, i - 1)
    {
      assert pcts[i] == ds[idx + i].score / ref by {
        assert ds[idx..][i] == ds[idx + i];
      }
      r := r[idx + i := r[idx + i].(scorePct := r[idx + i].score / ref)];
      var dist := BaseDistance * r[idx + i].scorePct + BaseDistance * r[idx + i - 1].scorePct;
      assert dist == Spacing(pcts[i], pcts[i - 1]);
      if dir == Down {
        d := d - dist;
        r := r[idx + i := r[idx + i].(nextDegrees := d)];
      } else {
        r := r[idx + i := r[idx + i].(nextDegrees := d)];
        d := d - dist;
      }
      assert r[idx + i] == target[idx + i];
    }
  }

  /** The completion loop of a committed gesture: every participant
      `ds[idx..]` comes to rest at its pending angle. */
  method Settle(ds: seq<Disc>, idx: nat) returns (r: seq<Disc>)
    requires idx <= |ds|
    ensures r == Settled(ds, idx)
  {
    r := ds;
    for k := idx to |ds|
      invariant |r| == |ds|
      invariant forall j :: 0 <= j < |ds| ==> r[j] == (if idx <= j < k then Settled(ds, idx)[j] else ds[j])
    {
      r := r[k := r[k].(currentDegrees := r[k].nextDegrees)];
    }
  }

  /** The stack at rest: non-empty, sorted by descending positive score,
      the active index inside it, and the discs beyond the active one
      resting in a fan from six o'clock. */
  ghost predicate StackOk(ds: seq<Disc>, active: nat)
  {
    && 0 < |ds|
    && active < |ds|
    && (forall k :: 0 <= k < |ds| ==> ds[k].score > 0.0)
    && Descending(Scores(ds))
    && Fan(Currents(ds[active + 1..]))
  }

  /** A gesture in flight on the participants `ds[idx..]`: a downward pull
      starts at the active disc, which is not the center disc, and has a fan
      of pending angles for all participants; an upward pull starts at or
      after the active disc and has a fan for all participants but the
      dragged one. */
  ghost predicate SessionOk(ds: seq<Disc>, active: nat, dir: PanDirection, idx: nat)
  {
    && (dir == Down ==> 0 < idx == active < |ds| && Fan(Nexts(ds[idx..])))
    && (dir == Up ==> active <= idx < |ds| && Fan(Nexts(ds[idx + 1..])))
  }

  /** A stack built from a non-empty descending list of positive scores is
      at rest with its last disc active. */
  lemma BuiltStackOk(sorted: seq<real>, ds: seq<Disc>)
    requires 0 < |sorted| && forall k :: 0 <= k < |sorted| ==> sorted[k] > 0.0
    requires Descending(sorted)
    requires Scores(ds) == sorted
    ensures StackOk(ds, |ds| - 1)
  {
    forall k | 0 <= k < |ds|
      ensures ds[k].score > 0.0
    {
      assert Scores(ds)[k] == ds[k].score;
    }
    assert Currents(ds[|ds|..]) == [];
  }

  /** Preparing a gesture that the gate accepted keeps the stack at rest
      and puts a well-formed gesture in flight. */
  lemma PreparedOk(ds: seq<Disc>, active: nat, dir: PanDirection, idx: nat, r: seq<Disc>)
    requires StackOk(ds, active)
    requires dir == Down ==> 0 < idx == active
    requires dir == Up ==> active <= idx < |ds|
    requires dir != Undetermined
    requires r == Retargeted(ds, idx, Reference(ds, idx, dir), dir)
    ensures StackOk(r, active) && SessionOk(r, active, dir, idx)
    ensures forall k :: idx <= k < |r| ==> 0.0 < r[k].scorePct <= 1.0
  {
    var ref := Reference(ds, idx, dir);
    PreparedStackOk(ds, active, idx, ref, dir, r);
    forall i, j | 0 <= i < j < |ds|
      ensures ds[i].score >= ds[j].score
    {
      assert Scores(ds)[i] == ds[i].score && Scores(ds)[j] == ds[j].score;
    }
    RetargetedPctsAtMostOne(ds, idx, dir);
    RetargetedFan(ds, idx, ref, dir);
  }

  lemma PreparedStackOk(ds: seq<Disc>, active: nat, idx: nat, ref: real, dir: PanDirection, r: seq<Disc>)
    requires StackOk(ds, active) && idx <= |ds| && ref != 0.0
    requires r == Retargeted(ds, idx, ref, dir)
    ensures StackOk(r, active)
  {
    RetargetedFrame(ds, idx, ref, dir);
    RetargetedCurrents(ds, idx, ref, dir, active + 1);
    assert Scores(r) == Scores(ds);
    assert forall k :: 0 <= k < |r| ==> r[k].score == ds[k].score;
  }

  /** Committing a well-formed gesture leaves a stack at rest whose active
      disc is the one before the dragged disc (downward) or the dragged disc
      (upward). */
  lemma SettledOk(ds: seq<Disc>, active: nat, dir: PanDirection, idx: nat)
    requires StackOk(ds, active) && SessionOk(ds, active, dir, idx)
    requires dir != Undetermined
    ensures StackOk(Settled(ds, idx), if dir == Down then idx - 1 else idx)
  {
    var r := Settled(ds, idx);
    var na := if dir == Down then idx - 1 else idx;
    SettledCurrents(ds, idx, na + 1);
    assert Scores(r) == Scores(ds);
    assert forall k :: 0 <= k < |r| ==> r[k].score == ds[k].score;
  }

  /** The rebuild loop: one fresh disc per score, in the order given. */
  method BuildDiscs(scores: seq<real>) returns (ds: seq<Disc>)
    ensures Scores(ds) == scores
    ensures forall k :: 0 <= k < |ds| ==> ds[k] == FreshDisc(scores[k], 0.0)
  {
    ds := [];
    for i := 0 to |scores|
      invariant |ds| == i
      invariant forall k :: 0 <= k < i ==> ds[k] == FreshDisc(scores[k], 0.0)
    {
      ds := ds + [FreshDisc(scores[i], 0.0)];
    }
  }

  /** The gate of `.began`: unless a direction is already set, a touch in
      the active disc moving down starts a downward pull of it (refused on
      the center disc), and otherwise a touch in the disc after the active
      one moving up starts an upward pull of that disc. */
  method Gate(dir: PanDirection, active: nat, count: nat, inActiveDisc: bool, inNextDisc: bool, translationY: real)
    returns (newDir: PanDirection, idx: nat)
    ensures dir != Undetermined ==> newDir == dir && idx == active
    ensures dir == Undetermined ==> (newDir == Down <==> inActiveDisc && translationY > 0.0 && active > 0)
    ensures dir == Undetermined ==>
      (newDir == Up <==> !(inActiveDisc && translationY > 0.0) && active + 1 < count && inNextDisc && translationY < 0.0)
    ensures newDir == Up && dir == Undetermined ==> idx == active + 1
    ensures newDir == Down ==> idx == active
  {
    newDir := dir;
    idx := active;
    if newDir == Undetermined {
      if inActiveDisc && translationY > 0.0 {
        if idx == 0 {
          return;
        }
        newDir := Down;
      } else if idx + 1 < count {
        if inNextDisc && translationY < 0.0 {
          idx := idx + 1;
          newDir := Up;
        }
      }
    }
  }

  class OrbitView {
    /** `discViews` in stack order: index 0 is the center disc. */
    var discs: seq<Disc>
    /** The position of `activeDisc` in `discViews`. */
    var active: nat
    var panDir: PanDirection
    /** The `idx` of the last accepted `.began`, which the animator's
        completion acts on. */
    var dragIdx: nat
    /** The animator's `fractionComplete`. */
    var fractionComplete: real
    var thisSize: Size
    var centerDiscRadius: real
    var orbitPathRadius: real

    ghost predicate Valid()
      reads this
    {
      StackOk(discs, active) && SessionOk(discs, active, panDir, dragIdx)
    }

    /** A new widget shows seven discs of score 1. */
    constructor ()
      ensures Valid()
      ensures |discs| == 7 && forall k :: 0 <= k < 7 ==> discs[k] == FreshDisc(1.0, 0.0)
      ensures active == 6 && panDir == Undetermined
      ensures thisSize == Size(0.0, 0.0) && centerDiscRadius == 0.0 && orbitPathRadius == 0.0
    {
      discs := [];
      active := 0;
      panDir := Undetermined;
      dragIdx := 0;
      fractionComplete := 0.0;
      thisSize := Size(0.0, 0.0);
      centerDiscRadius := 0.0;
      orbitPathRadius := 0.0;
      new;
      var fatal := SetScores(DefaultScores);
      forall k | 0 <= k < 7
        ensures discs[k].score == 1.0
      {
        assert Scores(discs)[k] in multiset(DefaultScores);
      }
    }

    /** Assigning `scores`: one fresh disc per score, in descending order of
        score, the last (smallest) disc active, and the size memo cleared so
        that the next layout pass recomputes the geometry. The substitute
        `DefaultScores` for an empty list is computed but never used (the
        sort reads `scores`), so an empty list leaves no disc and traps. */
    method SetScores(scores: seq<real>) returns (fatal: bool)
      requires forall k :: 0 <= k < |scores| ==> scores[k] > 0.0
      requires panDir == Undetermined
      modifies this`discs, this`active, this`thisSize
      ensures fatal <==> scores == []
      ensures |discs| == |scores|
      ensures forall k :: 0 <= k < |discs| ==> discs[k] == FreshDisc(discs[k].score, 0.0)
      ensures Descending(Scores(discs))
      ensures multiset(Scores(discs)) == multiset(scores)
      ensures !fatal ==> Valid() && active == |discs| - 1 && thisSize == Size(0.0, 0.0)
    {
      // the substitute list is never read again
      var tempScores := if |scores| == 0 then DefaultScores else scores;
      var sortedScores := SortDescending(scores);
      discs := BuildDiscs(sortedScores);
      if |discs| == 0 {
        return true;
      }
      SortKeepsBound(scores, 0.0);
      BuiltStackOk(sortedScores, discs);
      active := |discs| - 1;
      thisSize := Size(0.0, 0.0);
      fatal := false;
    }

    /** A layout pass recomputes the geometry from the smaller side of the
        view only when the size differs from the memoised one, and then
        re-places the discs from `placedFrom` on (those out on the orbit);
        `placedFrom == |discs|` means none. */
    method LayoutSubviews(width: real, height: real) returns (placedFrom: nat)
      requires Valid()
      requires width >= 0.0 && height >= 0.0
      modifies this`thisSize, this`centerDiscRadius, this`orbitPathRadius
      ensures Valid()
      ensures thisSize == Size(width, height)
      ensures old(thisSize) != Size(width, height) ==>
        && centerDiscRadius == OrbitGeometry(Min(width, height)).centerDiscRadius
        && orbitPathRadius == OrbitGeometry(Min(width, height)).orbitPathRadius
        && placedFrom == active + 1
      ensures old(thisSize) == Size(width, height) ==>
        centerDiscRadius == old(centerDiscRadius) && orbitPathRadius == old(orbitPathRadius) && placedFrom == |discs|
    {
      placedFrom := |discs|;
      if Size(width, height) != thisSize {
        thisSize := Size(width, height);
        var thisWidth := Min(width, height);
        var g := OrbitGeometry(thisWidth);
        centerDiscRadius := g.centerDiscRadius;
        orbitPathRadius := g.orbitPathRadius;
        if active != |discs| - 1 {
          placedFrom := active + 1;
        }
      }
    }

    /** `.began`: unless a direction is already set, a touch in the active
        disc moving down starts a downward pull (refused on the center disc),
        and otherwise a touch in the disc after the active one moving up
        starts an upward pull of that disc. An accepted gesture measures its
        participants against the reference score and prepares their pending
        angles, each participant's relative score being at most 1. */
    method Began(inActiveDisc: bool, inNextDisc: bool, translationY: real) returns (started: bool)
      requires Valid()
      modifies this`discs, this`panDir, this`dragIdx, this`fractionComplete
      ensures Valid()
      ensures started <==> panDir != Undetermined
      ensures old(panDir) != Undetermined ==> started && panDir == old(panDir) && dragIdx == active
      ensures old(panDir) == Undetermined ==>
        (panDir == Down <==> inActiveDisc && translationY > 0.0 && active > 0)
      ensures old(panDir) == Undetermined ==>
        (panDir == Up <==>
          !(inActiveDisc && translationY > 0.0) && active + 1 < |discs| && inNextDisc && translationY < 0.0)
      ensures old(panDir) == Undetermined && panDir == Down ==> dragIdx == active
      ensures old(panDir) == Undetermined && panDir == Up ==> dragIdx == active + 1
      ensures !started ==>
        discs == old(discs) && dragIdx == old(dragIdx) && fractionComplete == old(fractionComplete)
      ensures started ==>
        && fractionComplete == 0.0
        && dragIdx < |old(discs)|
        && (panDir == Down ==> dragIdx > 0)
        && discs == Retargeted(old(discs), dragIdx, Reference(old(discs), dragIdx, panDir), panDir)
      ensures started ==> forall k :: dragIdx <= k < |discs| ==> 0.0 < discs[k].scorePct <= 1.0
    {
      var dir, idx := Gate(panDir, active, |discs|, inActiveDisc, inNextDisc, translationY);
      if dir == Undetermined {
        return false;
      }
      Start(dir, idx);
      started := true;
    }

    /** The rest of an accepted `.began`: the gesture's participants are
        measured against the reference score and their pending angles
        prepared, each participant's relative score being at most 1. */
    method Start(dir: PanDirection, idx: nat)
      requires Valid()
      requires dir == Down ==> 0 < idx == active
      requires dir == Up ==> active <= idx < |discs|
      requires dir != Undetermined
      modifies this`discs, this`panDir, this`dragIdx, this`fractionComplete
      ensures Valid()
      ensures panDir == dir && dragIdx == idx && fractionComplete == 0.0
      ensures discs == Retargeted(old(discs), idx, Reference(old(discs), idx, dir), dir)
      ensures forall k :: idx <= k < |discs| ==> 0.0 < discs[k].scorePct <= 1.0
    {
      panDir := dir;
      var curMaxScore := discs[idx].score;
      if panDir == Down {
        curMaxScore := discs[idx - 1].score;
      }
      assert curMaxScore == Reference(discs, idx, panDir);
      var ds := Prepare(discs, idx, curMaxScore, panDir);
      PreparedOk(discs, active, panDir, idx, ds);
      discs := ds;
      dragIdx := idx;
      fractionComplete := 0.0;
    }

    /** `.changed`: the drag distance, taken as a magnitude on an upward
        pull, sets the animator's fraction complete. */
    method Changed(translationY: real)
      requires Valid()
      requires panDir != Undetermined ==> orbitPathRadius > 0.0
      modifies this`fractionComplete
      ensures Valid()
      ensures panDir != Undetermined ==>
        fractionComplete == FractionComplete(if panDir == Up then Abs(translationY) else translationY, orbitPathRadius)
      ensures panDir == Undetermined ==> fractionComplete == old(fractionComplete)
    {
      if panDir != Undetermined {
        var ty := translationY;
        if panDir == Up {
          ty := Abs(ty);
        }
        fractionComplete := FractionComplete(ty, orbitPathRadius);
      }
    }

    /** The end of the gesture and the animator's completion: below the
        commit threshold the gesture reverses and nothing but the direction
        changes; otherwise the disc before the dragged one (downward pull) or
        the dragged disc (upward pull) becomes active and every participant
        comes to rest at its pending angle. Either way the direction is
        undetermined again. */
    method Release() returns (committed: bool)
      requires Valid()
      modifies this`discs, this`active, this`panDir
      ensures Valid()
      ensures committed <==> old(panDir) != Undetermined && Commits(fractionComplete)
      ensures panDir == Undetermined
      ensures committed ==>
        && active == (if old(panDir) == Down then dragIdx - 1 else dragIdx)
        && discs == Settled(old(discs), dragIdx)
      ensures !committed ==> active == old(active) && discs == old(discs)
    {
      committed := false;
      if panDir != Undetermined {
        var reversed := fractionComplete < CommitThreshold;
        if !reversed {
          SettledOk(discs, active, panDir, dragIdx);
          active := if panDir == Down then dragIdx - 1 else dragIdx;
          discs := Settle(discs, dragIdx);
          committed := true;
        }
      }
      panDir := Undetermined;
    }

    /** One whole pan from rest: `.began`, one `.changed`, and the release.
        The pan starts exactly when the gate accepts it, and commits exactly
        when it started and the drag reached the commit threshold. A
        downward pull then leaves the disc before the active one active, an
        upward pull the pushed disc; either way the participants rest at
        their prepared angles. A reversed pan keeps the prepared stack with
        every resting angle as it was, and a pan that does not start changes
        nothing. */
    method Pan(inActiveDisc: bool, inNextDisc: bool, beganY: real, translationY: real)
      returns (started: bool, committed: bool)
      requires Valid() && panDir == Undetermined && orbitPathRadius > 0.0
      modifies this`discs, this`active, this`panDir, this`dragIdx, this`fractionComplete
      ensures Valid() && panDir == Undetermined
      ensures started <==>
        || (inActiveDisc && beganY > 0.0 && old(active) > 0)
        || (!(inActiveDisc && beganY > 0.0) && old(active) + 1 < |old(discs)| && inNextDisc && beganY < 0.0)
      ensures committed <==>
        started && Commits(FractionComplete(if inActiveDisc && beganY > 0.0 then translationY else Abs(translationY), orbitPathRadius))
      ensures !started ==> active == old(active) && discs == old(discs)
      ensures started ==>
        var dir := if inActiveDisc && beganY > 0.0 then Down else Up;
        var idx := if dir == Down then old(active) else old(active) + 1;
        var prepared := Retargeted(old(discs), idx, Reference(old(discs), idx, dir), dir);
        if committed then active == (if dir == Down then idx - 1 else idx) && discs == Settled(prepared, idx)
        else active == old(active) && discs == prepared
      ensures committed ==> (active == old(active) - 1 <==> inActiveDisc && beganY > 0.0)
      ensures started && !committed ==> Currents(discs) == Currents(old(discs))
    {
      started := Began(inActiveDisc, inNextDisc, beganY);
      ghost var dir := panDir;
      Changed(translationY);
      committed := Release();
      if started {
        assert dir == (if inActiveDisc && beganY > 0.0 then Down else Up);
        assert dragIdx == (if dir == Down then old(active) else old(active) + 1);
        if !committed {
          RetargetedCurrents(old(discs), dragIdx, Reference(old(discs), dragIdx, dir), dir, 0);
        }
      }
    }
  }
}
