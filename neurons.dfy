/** The two classes of the animation. A neuron drifts, fades, and grows axons
    towards other active neurons nearby; an axon grows a path step by step
    towards its target and either reaches it (boosting the target) or gives
    up and retracts. The global list of neurons, the mouse position and the
    canvas size are passed in as parameters. */
module Neurons {
  import opened Geometry
  import opened Sequences
  import opened Activity
  import opened AxonModel
  import opened Motion

  /** Candidates must be closer than this ... */
  const CONNECTION_DISTANCE: real := 150.0
  /** ... and farther than this. */
  const MIN_CONNECTION_DISTANCE: real := 20.0
  /** Candidates must have at least this activity. */
  const MIN_TARGET_ACTIVITY: real := 0.5
  /** A neuron with more axons than this looks for no new connections. */
  const AXON_LIMIT: nat := 3
  /** Chance per frame that a neuron looks for new connections. */
  const CONNECT_CHANCE: real := 0.01

  /** The `Math.random()` values one `Neuron.update` draws: the turn test,
      the two nudge components, the connection test, and two streams from
      which the i-th kept axon takes entry i for the x and y of its jitter. */
  datatype Draws = Draws(turn: real, nudgeX: real, nudgeY: real, connect: real, jitterX: nat -> real, jitterY: nat -> real)

  ghost predicate DrawsOk(d: Draws)
  {
    Unit(d.turn) && Unit(d.nudgeX) && Unit(d.nudgeY) && Unit(d.connect)
    && forall k :: Unit(d.jitterX(k)) && Unit(d.jitterY(k))
  }

  /** The targets of some axons, in order. */
  function TargetsOf(axs: seq<Axon>): (ts: seq<Neuron>)
    ensures |ts| == |axs| && forall i :: 0 <= i < |axs| ==> ts[i] == axs[i].target
  {
    seq(|axs|, i requires 0 <= i < |axs| => axs[i].target)
  }

  /** No two of the axons share a target (so no two are the same axon). */
  predicate TargetsDistinct(axs: seq<Axon>)
  {
    forall i, j :: 0 <= i < j < |axs| ==> axs[i].target != axs[j].target
  }

  function DifferentTargets(a: Axon, b: Axon): bool { a.target != b.target }

  lemma TargetsDistinctPairwise(axs: seq<Axon>)
    ensures TargetsDistinct(axs) <==> Pairwise(axs, DifferentTargets)
  {
    if TargetsDistinct(axs) {
      forall i, j | 0 <= i < j < |axs| ensures DifferentTargets(axs[i], axs[j]) {
      }
    }
    if Pairwise(axs, DifferentTargets) {
      forall i, j | 0 <= i < j < |axs| ensures axs[i].target != axs[j].target {
        assert DifferentTargets(axs[i], axs[j]);
      }
    }
  }

  class Axon {
    const source: Neuron
    const target: Neuron
    var path: seq<Vec>
    var isComplete: bool
    var isRetracting: bool
    var isFullyRetracted: bool

    function State(): AxonState
      reads this`path, this`isComplete, this`isRetracting, this`isFullyRetracted
    {
      AxonState(path, isComplete, isRetracting, isFullyRetracted)
    }

    predicate Valid()
      reads this`path, this`isComplete, this`isRetracting, this`isFullyRetracted
    {
      Wf(State())
    }

    /** A new axon: one point, at the source's position, growing. */
    constructor(source: Neuron, target: Neuron)
      ensures this.source == source && this.target == target
      ensures State() == Sprout(source.Pos())
    {
      this.source := source;
      this.target := target;
      path := [source.Pos()];
      isComplete := false;
      isRetracting := false;
      isFullyRetracted := false;
    }

    /** One frame: pin the root to the source, then retract, stay, or grow
      one point and test for contact. */
    method Update(mouse: Vec, root: real -> real, rx: real, ry: real)
      requires Valid() && IsSqrt(root) && Unit(rx) && Unit(ry)
      modifies this`path, this`isComplete, this`isRetracting, this`isFullyRetracted, target`activity
      ensures Valid()
      ensures State() == old(Step(State(), source.Pos(), target.Pos(), mouse, root, rx, ry)).state
      ensures target.activity
           == if old(Step(State(), source.Pos(), target.Pos(), mouse, root, rx, ry)).boosted
              then Boost(old(target.activity)) else old(target.activity)
    {
      path := path[0 := source.Pos()];

      if isRetracting {
        if |path| > 1 {
          path := path[..|path| - 1];
        } else {
          isFullyRetracted := true;
        }
        return;
      }

      if isComplete {
        return;
      }

      var last := path[|path| - 1];
      var tip := Tip(last, Heading(root, last, target.Pos(), mouse), rx, ry);
      path := path + [tip];

      if SqDist(tip, target.Pos()) < Sq(CONTACT_RADIUS) {
        isComplete := true;
        target.BoostActivity();
      } else if |path| > AXON_MAX_LENGTH {
        isRetracting := true;
      }
    }
  }

  /** Whether `c` is a connection candidate for the neuron `me` at `at`:
      another neuron, active enough, and at a distance strictly between
      MIN_CONNECTION_DISTANCE and CONNECTION_DISTANCE. */
  predicate Qualifies(me: Neuron, at: Vec, c: Neuron)
    reads c`x, c`y, c`activity
  {
    && c != me
    && c.activity >= MIN_TARGET_ACTIVITY
    && Sq(MIN_CONNECTION_DISTANCE) < SqDist(at, c.Pos()) < Sq(CONNECTION_DISTANCE)
  }

  /** Qualifies is the script's test with the distance measured by a square
      root: `20 < dist < 150`. */
  lemma QualifiesByDistance(root: real -> real, me: Neuron, at: Vec, c: Neuron)
    requires IsSqrt(root)
    ensures Qualifies(me, at, c) <==>
      && c != me
      && c.activity >= MIN_TARGET_ACTIVITY
      && MIN_CONNECTION_DISTANCE < root(SqDist(at, c.Pos())) < CONNECTION_DISTANCE
  {
    SqLenNonneg(at.Minus(c.Pos()));
    HypotBelow(root, SqDist(at, c.Pos()), CONNECTION_DISTANCE);
    HypotAtMost(root, SqDist(at, c.Pos()), MIN_CONNECTION_DISTANCE);
  }

  /** The targets a scan over `cands`, in order, connects to when the neuron
      already has axons to `have`: each qualifying candidate not already a
      target, the ones picked earlier in the scan included. */
  function Picked(me: Neuron, at: Vec, have: seq<Neuron>, cands: seq<Neuron>): (r: seq<Neuron>)
    reads (set n | n in cands)`x, (set n | n in cands)`y, (set n | n in cands)`activity
    ensures forall i :: 0 <= i < |r| ==> r[i] in cands && Qualifies(me, at, r[i]) && r[i] !in have
    ensures forall i :: 0 <= i < |cands| && Qualifies(me, at, cands[i]) && cands[i] !in have ==> cands[i] in r
    ensures Distinct(r)
    decreases |cands|
  {
    if cands == [] then []
    else
      var prev := Picked(me, at, have, cands[..|cands| - 1]);
      var c := cands[|cands| - 1];
      if Qualifies(me, at, c) && c !in have + prev then prev + [c] else prev
  }

  /** One step of the scan in FindPotentialConnections: the candidate at
      index i is added exactly when it qualifies and is not yet a target, so
      the new axons after that step are the picks among the first i + 1. */
  lemma PickedStep(me: Neuron, at: Vec, start: seq<Axon>, axs: seq<Axon>, next: seq<Axon>, cands: seq<Neuron>, i: nat)
    requires i < |cands| && |start| <= |axs| && axs[..|start|] == start
    requires TargetsOf(axs[|start|..]) == Picked(me, at, TargetsOf(start), cands[..i])
    requires if Qualifies(me, at, cands[i]) && cands[i] !in TargetsOf(axs)
      then |next| == |axs| + 1 && next == axs + [next[|axs|]] && next[|axs|].target == cands[i]
      else next == axs
    ensures |start| <= |next| && next[..|start|] == start
    ensures TargetsOf(next[|start|..]) == Picked(me, at, TargetsOf(start), cands[..i + 1])
  {
    assert cands[..i + 1][..i] == cands[..i];
    assert axs == start + axs[|start|..];
    assert TargetsOf(axs) == TargetsOf(start) + TargetsOf(axs[|start|..]);
    if next != axs {
      SuffixSnoc(start, axs, next[|axs|]);
    }
  }

  /** Adding an axon to a new target keeps the targets distinct, and extends
      the target list by that target. */
  lemma Extend(axs: seq<Axon>, a: Axon)
    requires TargetsDistinct(axs) && a.target !in TargetsOf(axs)
    ensures TargetsDistinct(axs + [a])
    ensures TargetsOf(axs + [a]) == TargetsOf(axs) + [a.target]
  {
    var ext := axs + [a];
    forall i, j | 0 <= i < j < |ext| ensures ext[i].target != ext[j].target {
      if j == |axs| {
        assert TargetsOf(axs)[i] == ext[i].target;
      }
    }
  }

  /** The new axons after one more push, and their targets. */
  lemma SuffixSnoc(start: seq<Axon>, axs: seq<Axon>, a: Axon)
    requires |start| <= |axs|
    ensures (axs + [a])[|start|..] == axs[|start|..] + [a]
    ensures TargetsOf(axs[|start|..] + [a]) == TargetsOf(axs[|start|..]) + [a.target]
    ensures (axs + [a])[..|start|] == axs[..|start|]
  {
  }

  /** `axons.filter(axon => !axon.isFullyRetracted)`: the axons that are not
      fully retracted, in their order. */
  function Live(axs: seq<Axon>): (r: seq<Axon>)
    reads (set a | a in axs)`isFullyRetracted
    ensures forall i :: 0 <= i < |r| ==> r[i] in axs && !r[i].isFullyRetracted
    ensures forall a :: a in axs && !a.isFullyRetracted ==> a in r
    ensures TargetsDistinct(axs) ==> TargetsDistinct(r)
  {
    var keep := set a | a in axs && !a.isFullyRetracted;
    var r := Filter(axs, a => a in keep);
    if TargetsDistinct(axs) then
      TargetsDistinctPairwise(axs);
      FilterPairwise(axs, a => a in keep, DifferentTargets);
      TargetsDistinctPairwise(r);
      r
    else
      r
  }

  class Neuron {
    var x: real
    var y: real
    var vx: real
    var vy: real
    const radius: real
    var activity: real
    var axons: seq<Axon>

    function Pos(): Vec
      reads this`x, this`y
    {
      Vec(x, y)
    }

    function Vel(): Vec
      reads this`vx, this`vy
    {
      Vec(vx, vy)
    }

    /** The speed is within the cap; every axon starts here, ends at another
      neuron and is in a reachable state; no two axons share a target. */
    predicate Valid()
      reads this`vx, this`vy, this`axons
      reads (set a | a in axons)`path, (set a | a in axons)`isComplete, (set a | a in axons)`isRetracting, (set a | a in axons)`isFullyRetracted
    {
      && Capped(Vel())
      && (forall a :: a in axons ==> a.source == this && a.target != this && a.Valid())
      && TargetsDistinct(axons)
    }

    /** A new neuron at (x, y) with full activity, a random radius in [2, 4),
      a random velocity of at most 0.1 per component, and axons to the
      candidates among `population`. */
    constructor(x: real, y: real, uRadius: real, uVx: real, uVy: real, population: seq<Neuron>)
      requires Unit(uRadius) && Unit(uVx) && Unit(uVy)
      ensures Valid()
      ensures Pos() == Vec(x, y) && Vel() == Vec(Spread(uVx, SPAWN_SPEED), Spread(uVy, SPAWN_SPEED))
      ensures 2.0 <= radius < 4.0 && activity == 1.0
      ensures TargetsOf(axons) == Picked(this, Pos(), [], population)
      ensures forall a :: a in axons ==> fresh(a) && a.State() == Sprout(Pos())
    {
      this.x := x;
      this.y := y;
      radius := uRadius * 2.0 + 2.0;
      axons := [];
      vx := Spread(uVx, SPAWN_SPEED);
      vy := Spread(uVy, SPAWN_SPEED);
      activity := 1.0;
      new;
      SpawnVelocityCapped(uVx, uVy);
      FindPotentialConnections(population);
    }

    method BoostActivity()
      modifies this`activity
      ensures activity == Boost(old(activity))
    {
      activity := Min(1.0, activity + CONTACT_BOOST);
    }

    /** `this.axons.push(new Axon(this, c))`. */
    method Grow(c: Neuron) returns (a: Axon)
      requires Valid() && c != this && c !in TargetsOf(axons)
      modifies this`axons
      ensures Valid()
      ensures axons == old(axons) + [a]
      ensures fresh(a) && a.target == c && a.State() == Sprout(Pos())
    {
      a := new Axon(this, c);
      Extend(axons, a);
      axons := axons + [a];
    }

    /** With at most AXON_LIMIT axons, scan `population` and add a new
      growing axon to every candidate that is not yet a target. */
    method FindPotentialConnections(population: seq<Neuron>)
      requires Valid()
      modifies this`axons
      ensures Valid()
      ensures |old(axons)| > AXON_LIMIT ==> axons == old(axons)
      ensures |old(axons)| <= AXON_LIMIT ==>
        && |old(axons)| <= |axons| && axons[..|old(axons)|] == old(axons)
        && TargetsOf(axons[|old(axons)|..]) == Picked(this, Pos(), TargetsOf(old(axons)), population)
      ensures forall i :: |old(axons)| <= i < |axons| ==> fresh(axons[i]) && axons[i].State() == Sprout(Pos())
    {
      if |axons| > AXON_LIMIT {
        return;
      }
      ghost var start := axons;
      var i := 0;
      while i < |population|
        invariant 0 <= i <= |population|
        invariant |start| <= |axons| && axons[..|start|] == start
        invariant TargetsOf(axons[|start|..]) == Picked(this, Pos(), TargetsOf(start), population[..i])
        invariant forall k :: |start| <= k < |axons| ==> fresh(axons[k]) && axons[k].State() == Sprout(Pos())
        invariant Valid()
      {
        ghost var before := axons;
        Consider(population[i]);
        PickedStep(this, Pos(), start, before, axons, population, i);
        i := i + 1;
      }
      assert population[..i] == population;
    }
  
    /** One round of the scan in FindPotentialConnections: grow an axon to
      `c` when it qualifies and is not yet a target. */
    method Consider(c: Neuron)
      requires Valid()
      modifies this`axons
      ensures Valid()
      ensures if Qualifies(this, Pos(), c) && c !in TargetsOf(old(axons))
        then && |axons| == |old(axons)| + 1 && axons == old(axons) + [axons[|old(axons)|]]
             && fresh(axons[|old(axons)|]) && axons[|old(axons)|].target == c
             && axons[|old(axons)|].State() == Sprout(Pos())
        else axons == old(axons)
    {
      if c != this && c.activity >= MIN_TARGET_ACTIVITY {
        var d2 := SqDist(Pos(), c.Pos());
        if d2 < Sq(CONNECTION_DISTANCE) && d2 > Sq(MIN_CONNECTION_DISTANCE) {
          if c !in TargetsOf(axons) {
            var a := Grow(c);
          }
        }
      }
    }

    /** The motion part of `update`: the chance of a nudge, the speed cap,
      the step, and the edge test at the new position. */
    method Move(width: real, height: real, root: real -> real, turn: real, nx: real, ny: real)
      requires IsSqrt(root) && Unit(nx) && Unit(ny)
      modifies this`x, this`y, this`vx, this`vy
      // quantified over the old body so that callers do not unfold Moved
      ensures forall b :: b == old(Body(Pos(), Vel())) ==> Body(Pos(), Vel()) == Moved(b, width, height, root, turn, nx, ny)
      ensures Capped(Vel())
    {
      ghost var start := Body(Pos(), Vel());
      if turn < TURN_CHANCE {
        vx := vx + Spread(nx, NUDGE);
        vy := vy + Spread(ny, NUDGE);
      }
      ghost var nudged := Vel();
      assert nudged == Nudged(start.vel, turn, nx, ny);
      var speed := root(SqLen(Vel()));
      if speed > MAX_SPEED {
        vx := vx / speed * MAX_SPEED;
        vy := vy / speed * MAX_SPEED;
      }
      ghost var capped := Vel();
      assert capped == Clamped(root, nudged);
      x := x + vx;
      y := y + vy;
      assert Pos() == start.pos.Plus(capped);
      if x < 0.0 || x > width {
        vx := -vx;
      }
      if y < 0.0 || y > height {
        vy := -vy;
      }
      assert Vel() == Bounced(Pos(), capped, width, height);
    }

    /** One frame of this neuron: move, fade (and brighten near the mouse),
      drop the fully retracted axons, update the others, and with chance
      CONNECT_CHANCE look for new connections among `population`. */
    method Update(mouse: Vec, width: real, height: real, root: real -> real, d: Draws, population: seq<Neuron>)
      requires Valid() && IsSqrt(root) && DrawsOk(d)
      modifies this`x, this`y, this`vx, this`vy, this`activity, this`axons
      modifies (set a | a in axons)`path, (set a | a in axons)`isComplete
      modifies (set a | a in axons)`isRetracting, (set a | a in axons)`isFullyRetracted
      modifies (set a | a in axons && !a.isFullyRetracted :: a.target)`activity
      ensures Valid()
      // quantified over the old body so that callers do not unfold Moved
      ensures forall b :: b == old(Body(Pos(), Vel())) ==> Body(Pos(), Vel()) == Moved(b, width, height, root, d.turn, d.nudgeX, d.nudgeY)
      ensures activity == FrameActivity(old(activity), SqDist(Pos(), mouse) < Sq(MOUSE_INFLUENCE_RADIUS))
      ensures var kept := old(Live(axons));
        && |kept| <= |axons| && axons[..|kept|] == kept
        // (quantified over the old state so that callers do not unfold Step)
        && forall j, s :: 0 <= j < |kept| && s == old(kept[j].State()) ==>
             var o := Step(s, Pos(), kept[j].target.Pos(), mouse, root, d.jitterX(j), d.jitterY(j));
             && kept[j].State() == o.state
             && kept[j].target.activity
                == if o.boosted then Boost(old(kept[j].target.activity)) else old(kept[j].target.activity)
      ensures var kept := old(Live(axons));
        if d.connect < CONNECT_CHANCE && |kept| <= AXON_LIMIT
        then TargetsOf(axons[|kept|..]) == Picked(this, Pos(), TargetsOf(kept), population)
        else axons == kept
      ensures forall i :: |old(Live(axons))| <= i < |axons| ==> fresh(axons[i]) && axons[i].State() == Sprout(Pos())
      ensures forall n: Neuron :: n != this && old(allocated(n)) ==> Raised(old(n.activity), n.activity)
    {
      ghost var kept := Live(axons);
      Drift(mouse, width, height, root, d);
      assert Live(axons) == kept;
      Rewire(mouse, root, d.jitterX, d.jitterY, d.connect, population);
    }

    /** The body part of `update`: move, then fade (and brighten near the mouse). */
    method Drift(mouse: Vec, width: real, height: real, root: real -> real, d: Draws)
      requires Valid() && IsSqrt(root) && DrawsOk(d)
      modifies this`x, this`y, this`vx, this`vy, this`activity
      ensures Valid()
      // quantified over the old body so that callers do not unfold Moved
      ensures forall b :: b == old(Body(Pos(), Vel())) ==> Body(Pos(), Vel()) == Moved(b, width, height, root, d.turn, d.nudgeX, d.nudgeY)
      ensures activity == FrameActivity(old(activity), SqDist(Pos(), mouse) < Sq(MOUSE_INFLUENCE_RADIUS))
    {
      Move(width, height, root, d.turn, d.nudgeX, d.nudgeY);
      Fade(mouse);
    }

    /** The axon part of `update`: drop the fully retracted axons, update the
      others, and when `connect` is below CONNECT_CHANCE look for new
      connections among `population`. */
    method Rewire(mouse: Vec, root: real -> real, jx: nat -> real, jy: nat -> real, connect: real, population: seq<Neuron>)
      requires Valid() && IsSqrt(root) && forall k :: Unit(jx(k)) && Unit(jy(k))
      modifies this`axons
      modifies (set a | a in axons)`path, (set a | a in axons)`isComplete
      modifies (set a | a in axons)`isRetracting, (set a | a in axons)`isFullyRetracted
      modifies (set a | a in axons && !a.isFullyRetracted :: a.target)`activity
      ensures Valid()
      ensures var kept := old(Live(axons));
        && |kept| <= |axons| && axons[..|kept|] == kept
        // (quantified over the old state so that callers do not unfold Step)
        && forall j, s :: 0 <= j < |kept| && s == old(kept[j].State()) ==>
             var o := Step(s, Pos(), kept[j].target.Pos(), mouse, root, jx(j), jy(j));
             && kept[j].State() == o.state
             && kept[j].target.activity
                == if o.boosted then Boost(old(kept[j].target.activity)) else old(kept[j].target.activity)
      ensures var kept := old(Live(axons));
        if connect < CONNECT_CHANCE && |kept| <= AXON_LIMIT
        then TargetsOf(axons[|kept|..]) == Picked(this, Pos(), TargetsOf(kept), population)
        else axons == kept
      ensures forall i :: |old(Live(axons))| <= i < |axons| ==> fresh(axons[i]) && axons[i].State() == Sprout(Pos())
      ensures activity == old(activity)
      ensures forall n: Neuron :: n != this && old(allocated(n)) ==> Raised(old(n.activity), n.activity)
    {
      Tend(mouse, root, jx, jy);
      MaybeConnect(connect, population);
    }

    /** `if (Math.random() < 0.01) this.findPotentialConnections()`. */
    method MaybeConnect(connect: real, population: seq<Neuron>)
      requires Valid()
      modifies this`axons
      ensures Valid()
      ensures if connect < CONNECT_CHANCE && |old(axons)| <= AXON_LIMIT
        then && |old(axons)| <= |axons| && axons[..|old(axons)|] == old(axons)
             && TargetsOf(axons[|old(axons)|..]) == Picked(this, Pos(), TargetsOf(old(axons)), population)
        else axons == old(axons)
      ensures forall i :: |old(axons)| <= i < |axons| ==> fresh(axons[i]) && axons[i].State() == Sprout(Pos())
    {
      if connect < CONNECT_CHANCE {
        FindPotentialConnections(population);
      }
    }

    /** The activity part of `update`: decay, then the mouse boost when the
      neuron is within MOUSE_INFLUENCE_RADIUS of the mouse. */
    method Fade(mouse: Vec)
      modifies this`activity
      ensures activity == FrameActivity(old(activity), SqDist(Pos(), mouse) < Sq(MOUSE_INFLUENCE_RADIUS))
    {
      activity := activity - DECAY;
      if SqDist(Pos(), mouse) < Sq(MOUSE_INFLUENCE_RADIUS) {
        activity := Min(1.0, activity + MOUSE_BOOST);
      }
    }

    /** `this.axons = this.axons.filter(..)` and then the update of every
      remaining axon. */
    method Tend(mouse: Vec, root: real -> real, jx: nat -> real, jy: nat -> real)
      requires Valid() && IsSqrt(root) && forall k :: Unit(jx(k)) && Unit(jy(k))
      modifies this`axons
      modifies (set a | a in axons)`path, (set a | a in axons)`isComplete
      modifies (set a | a in axons)`isRetracting, (set a | a in axons)`isFullyRetracted
      modifies (set a | a in axons && !a.isFullyRetracted :: a.target)`activity
      ensures Valid()
      ensures axons == old(Live(axons))
      // quantified over the old state so that callers do not unfold Step
      ensures forall j, s :: 0 <= j < |axons| && s == (var a := axons[j]; old(a.State())) ==>
        var a := axons[j];
        var o := Step(s, Pos(), a.target.Pos(), mouse, root, jx(j), jy(j));
        && a.State() == o.state
        && a.target.activity == if o.boosted then Boost(old(a.target.activity)) else old(a.target.activity)
      ensures activity == old(activity)
      ensures forall n: Neuron :: n != this && old(allocated(n)) ==> Raised(old(n.activity), n.activity)
    {
      axons := Live(axons);
      UpdateAxons(mouse, root, jx, jy);
    }

    /** `this.axons.forEach(axon => axon.update())`: the j-th axon takes one
      Step from its state at the call, with the source at this neuron's
      position and jitter draws jx(j), jy(j); its target's activity is
      boosted exactly when that Step completes the axon. No other neuron's
      activity changes. */
    method UpdateAxons(mouse: Vec, root: real -> real, jx: nat -> real, jy: nat -> real)
      requires Valid() && IsSqrt(root) && forall k :: Unit(jx(k)) && Unit(jy(k))
      modifies (set a | a in axons)`path, (set a | a in axons)`isComplete
      modifies (set a | a in axons)`isRetracting, (set a | a in axons)`isFullyRetracted
      modifies (set a | a in axons :: a.target)`activity
      ensures Valid()
      // quantified over the old state so that callers do not unfold Step
      ensures forall j, s :: 0 <= j < |axons| && s == old(axons[j].State()) ==>
        var o := Step(s, Pos(), axons[j].target.Pos(), mouse, root, jx(j), jy(j));
        && axons[j].State() == o.state
        && axons[j].target.activity == if o.boosted then Boost(old(axons[j].target.activity)) else old(axons[j].target.activity)
      ensures forall n: Neuron :: n != this && old(allocated(n)) ==> Raised(old(n.activity), n.activity)
    {
      ghost var axs := axons;
      ghost var states := seq(|axs|, j requires 0 <= j < |axs| reads (set a | a in axs)`path, (set a | a in axs)`isComplete, (set a | a in axs)`isRetracting, (set a | a in axs)`isFullyRetracted => axs[j].State());
      ghost var goals := seq(|axs|, j requires 0 <= j < |axs| reads (set a | a in axs :: a.target)`x, (set a | a in axs :: a.target)`y
        => axs[j].target.Pos());
      ghost var acts := seq(|axs|, j requires 0 <= j < |axs| reads (set a | a in axs :: a.target)`activity => axs[j].target.activity);
      ghost var at := Pos();
      ghost var outs := seq(|axs|, j requires 0 <= j < |axs| => Step(states[j], at, goals[j], mouse, root, jx(j), jy(j)));
      UpdateEach(mouse, root, jx, jy, at, states, goals, acts, outs);
    }

    /** The loop of UpdateAxons over precomputed outcomes. */
    method UpdateEach(mouse: Vec, root: real -> real, jx: nat -> real, jy: nat -> real, ghost at: Vec,
                      ghost states: seq<AxonState>, ghost goals: seq<Vec>, ghost acts: seq<real>, ghost outs: seq<Outcome>)
      requires IsSqrt(root) && forall k :: Unit(jx(k)) && Unit(jy(k))
      requires |states| == |axons| && |goals| == |axons| && |acts| == |axons| && |outs| == |axons|
      requires at == Pos() && TargetsDistinct(axons)
      requires forall j :: 0 <= j < |axons| ==>
        && axons[j].source == this && Wf(states[j]) && axons[j].State() == states[j]
        && axons[j].target.Pos() == goals[j] && axons[j].target.activity == acts[j]
      requires forall j {:trigger Step(states[j], at, goals[j], mouse, root, jx(j), jy(j))} :: 0 <= j < |axons| ==>
        outs[j] == Step(states[j], at, goals[j], mouse, root, jx(j), jy(j))
      modifies (set a | a in axons)`path, (set a | a in axons)`isComplete
      modifies (set a | a in axons)`isRetracting, (set a | a in axons)`isFullyRetracted
      modifies (set a | a in axons :: a.target)`activity
      ensures forall j :: 0 <= j < |axons| ==>
        && axons[j].State() == outs[j].state
        && axons[j].target.activity == if outs[j].boosted then Boost(acts[j]) else acts[j]
    {
      var i := 0;
      while i < |axons|
        invariant 0 <= i <= |axons|
        invariant forall j :: 0 <= j < i ==>
          axons[j].State() == outs[j].state
          && axons[j].target.activity == if outs[j].boosted then Boost(acts[j]) else acts[j]
        invariant forall j :: i <= j < |axons| ==>
          axons[j].State() == states[j] && axons[j].target.activity == acts[j]
      {
        var a := axons[i];
        assert forall j :: 0 <= j < |axons| && j != i ==> axons[j] != a && axons[j].target != a.target;
        UpdateOne(a, i, mouse, root, jx, jy, at, states, goals, outs);
        i := i + 1;
      }
    }

    /** One iteration of UpdateEach: the i-th axon reaches its outcome. */
    method UpdateOne(a: Axon, i: nat, mouse: Vec, root: real -> real, jx: nat -> real, jy: nat -> real, ghost at: Vec,
                     ghost states: seq<AxonState>, ghost goals: seq<Vec>, ghost outs: seq<Outcome>)
      requires IsSqrt(root) && forall k :: Unit(jx(k)) && Unit(jy(k))
      requires i < |states| == |goals| == |outs|
      requires (forall j :: 0 <= j < |states| ==> Wf(states[j]))
      requires a.State() == states[i] && a.source.Pos() == at && a.target.Pos() == goals[i]
      requires forall j {:trigger Step(states[j], at, goals[j], mouse, root, jx(j), jy(j))} :: 0 <= j < |outs| ==>
        outs[j] == Step(states[j], at, goals[j], mouse, root, jx(j), jy(j))
      modifies a`path, a`isComplete, a`isRetracting, a`isFullyRetracted, a.target`activity
      ensures a.State() == outs[i].state
      ensures a.target.activity == if outs[i].boosted then Boost(old(a.target.activity)) else old(a.target.activity)
    {
      assert outs[i] == Step(states[i], at, goals[i], mouse, root, jx(i), jy(i));
      a.Update(mouse, root, jx(i), jy(i));
    }
  }
}
