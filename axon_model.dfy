/** One axon's life as values: the state `Axon.update` changes, the result of
    one update as a function of that state and of the positions it reads, and
    what a run of updates does. The class `Neurons.Axon` is proved to follow
    `Step`. */
module AxonModel {
  import opened Geometry
  import opened Activity

  /** An axon that grows past this many path points (to one more) without
      reaching its target starts to retract. */
  const AXON_MAX_LENGTH: nat := 350
  /** Length of the steered part of one growth step. */
  const GROWTH_SPEED: real := 0.5
  /** The mouse stops pulling on a growth tip at this distance. */
  const MOUSE_REACH: real := 400.0
  /** A tip closer than this to the target completes the axon. */
  const CONTACT_RADIUS: real := 10.0
  /** Width of the random wobble added to each coordinate of a growth step. */
  const JITTER: real := 0.8

  /** The path (point 0 at the source neuron, the last point the growth tip)
      and the three flags of an axon. */
  datatype AxonState = AxonState(
    path: seq<Vec>,
    isComplete: bool,
    isRetracting: bool,
    isFullyRetracted: bool)
  {
    /** Neither complete nor retracting: the tip still moves. */
    predicate Growing() { !isComplete && !isRetracting }
  }

  /** The states an axon can reach from its constructor. */
  predicate Wf(s: AxonState)
  {
    && 1 <= |s.path| <= AXON_MAX_LENGTH + 1
    && !(s.isComplete && s.isRetracting)
    && (s.isFullyRetracted ==> s.isRetracting && |s.path| == 1)
    && (s.Growing() ==> |s.path| <= AXON_MAX_LENGTH)
  }

  /** The state the constructor builds: a one-point path at the source. */
  function Sprout(at: Vec): (s: AxonState)
    ensures Wf(s) && s.Growing() && !s.isFullyRetracted
    ensures s.path == [at]
  {
    AxonState([at], false, false, false)
  }

  /** Point 0 of the path follows the source neuron. */
  function Pin(path: seq<Vec>, at: Vec): (p: seq<Vec>)
    ensures |p| == if path == [] then 1 else |path|
    ensures p[0] == at && p[1..] == if path == [] then [] else path[1..]
  {
    if path == [] then [at] else path[0 := at]
  }

  /** How strongly the mouse pulls a tip displaced `dm` from it: 1 on the
      tip, falling linearly to 0 at MOUSE_REACH and beyond. */
  function Influence(root: real -> real, dm: Vec): (k: real)
    requires IsSqrt(root)
    ensures 0.0 <= k <= 1.0
    ensures k == 0.0 <==> Sq(MOUSE_REACH) <= SqLen(dm)
    ensures k == 1.0 <==> dm == Vec(0.0, 0.0)
  {
    SqLenNonneg(dm);
    HypotBelow(root, SqLen(dm), MOUSE_REACH);
    RootZero(root, SqLen(dm));
    assert SqLen(dm) == 0.0 ==> dm == Vec(0.0, 0.0) by {
      if SqLen(dm) == 0.0 {
        ZeroLength(dm);
      }
    }
    Max(0.0, 1.0 - root(SqLen(dm)) / MOUSE_REACH)
  }

  /** The unnormalised pull on a tip at `last`: towards the target, plus half
      the influence-weighted offset to the mouse. */
  function Pull(root: real -> real, last: Vec, target: Vec, mouse: Vec): Vec
    requires IsSqrt(root)
  {
    var dt := target.Minus(last);
    var dm := mouse.Minus(last);
    var k := Influence(root, dm);
    Vec(dt.x + dm.x * k * 0.5, dt.y + dm.y * k * 0.5)
  }

  /** A mouse at MOUSE_REACH or farther leaves the pull aimed at the target. */
  lemma FarMouseIgnored(root: real -> real, last: Vec, target: Vec, mouse: Vec)
    requires IsSqrt(root) && Sq(MOUSE_REACH) <= SqDist(mouse, last)
    ensures Pull(root, last, target, mouse) == target.Minus(last)
  {
  }

  /** A growth direction: of length GROWTH_SPEED, or zero. */
  predicate Steered(d: Vec)
  {
    SqLen(d) == Sq(GROWTH_SPEED) || d == Vec(0.0, 0.0)
  }

  /** The steered part of a growth step: the pull scaled to GROWTH_SPEED, or
      the pull itself when it is zero. */
  function Heading(root: real -> real, last: Vec, target: Vec, mouse: Vec): (d: Vec)
    requires IsSqrt(root)
    ensures Steered(d)
    ensures d == Vec(0.0, 0.0) <==> Pull(root, last, target, mouse) == Vec(0.0, 0.0)
  {
    var raw := Pull(root, last, target, mouse);
    SqLenNonneg(raw);
    RootZero(root, SqLen(raw));
    if root(SqLen(raw)) > 0.0 then
      NormalisedLength(root, raw);
      Scaled(raw, root(SqLen(raw)), GROWTH_SPEED)
    else
      ZeroLength(raw);
      raw
  }

  /** A non-zero heading points the way the pull does. */
  lemma HeadingAlong(root: real -> real, last: Vec, target: Vec, mouse: Vec)
    requires IsSqrt(root)
    ensures Heading(root, last, target, mouse) != Vec(0.0, 0.0) ==>
      Along(Heading(root, last, target, mouse), Pull(root, last, target, mouse))
  {
    var raw := Pull(root, last, target, mouse);
    SqLenNonneg(raw);
    RootZero(root, SqLen(raw));
    if root(SqLen(raw)) > 0.0 {
      ScaledAlong(raw, root(SqLen(raw)), GROWTH_SPEED);
    }
  }

  /** A non-zero pull normalised has length GROWTH_SPEED. */
  lemma NormalisedLength(root: real -> real, raw: Vec)
    requires IsSqrt(root) && root(SqLen(raw)) > 0.0
    ensures SqLen(Scaled(raw, root(SqLen(raw)), GROWTH_SPEED)) == Sq(GROWTH_SPEED)
    ensures Scaled(raw, root(SqLen(raw)), GROWTH_SPEED) != Vec(0.0, 0.0)
    ensures raw != Vec(0.0, 0.0)
  {
    var m := root(SqLen(raw));
    SqLenNonneg(raw);
    ScaledLength(raw, m, GROWTH_SPEED);
    assert Sq(GROWTH_SPEED) == 0.25;
    if raw == Vec(0.0, 0.0) {
      assert SqLen(raw) == 0.0;
      RootZero(root, 0.0);
    }
  }

  /** Both coordinates of a growth direction are within GROWTH_SPEED. */
  lemma SteeredBounds(d: Vec)
    requires Steered(d)
    ensures -GROWTH_SPEED <= d.x <= GROWTH_SPEED && -GROWTH_SPEED <= d.y <= GROWTH_SPEED
  {
    if d != Vec(0.0, 0.0) {
      SqLenBoundsCoordinates(d, GROWTH_SPEED);
    }
  }

  /** The new tip: the last point moved by the heading and by a jitter of
      width JITTER per coordinate drawn from `rx`, `ry`. It lies within
      0.9 of the last point on each axis. */
  function Tip(last: Vec, heading: Vec, rx: real, ry: real): (t: Vec)
    requires Unit(rx) && Unit(ry) && Steered(heading)
    ensures -0.9 <= t.x - last.x <= 0.9 && -0.9 <= t.y - last.y <= 0.9
  {
    SteeredBounds(heading);
    last.Plus(heading).Plus(Vec(Spread(rx, JITTER), Spread(ry, JITTER)))
  }

  /** The result of one update: the new state and whether the target's
      activity is boosted. */
  datatype Outcome = Outcome(state: AxonState, boosted: bool)

  /** `Axon.update`, given the positions of the source, the target and the
      mouse at the time of the call and the two jitter draws. */
  function Step(s: AxonState, source: Vec, target: Vec, mouse: Vec,
                root: real -> real, rx: real, ry: real): (o: Outcome)
    requires Wf(s) && IsSqrt(root) && Unit(rx) && Unit(ry)
    ensures Wf(o.state)
    ensures o.state.path[0] == source
    // the target is boosted exactly on the update that completes the axon
    ensures o.boosted <==> !s.isComplete && o.state.isComplete
  {
    var p := Pin(s.path, source);
    if s.isRetracting then
      if |p| > 1 then Outcome(s.(path := p[..|p| - 1]), false)
      else Outcome(s.(path := p, isFullyRetracted := true), false)
    else if s.isComplete then
      Outcome(s.(path := p), false)
    else
      var last := p[|p| - 1];
      var tip := Tip(last, Heading(root, last, target, mouse), rx, ry);
      var grown := p + [tip];
      if SqDist(tip, target) < Sq(CONTACT_RADIUS) then
        Outcome(s.(path := grown, isComplete := true), true)
      else if |grown| > AXON_MAX_LENGTH then
        Outcome(s.(path := grown, isRetracting := true), false)
      else
        Outcome(s.(path := grown), false)
  }

  /** What Step does in each phase. Kept apart from Step's own contract so
      that code reasoning about many axons at once does not carry it. */
  lemma StepByPhase(s: AxonState, source: Vec, target: Vec, mouse: Vec,
                    root: real -> real, rx: real, ry: real)
    requires Wf(s) && IsSqrt(root) && Unit(rx) && Unit(ry)
    // the flags are never cleared
    ensures var o := Step(s, source, target, mouse, root, rx, ry);
      && (s.isComplete ==> o.state.isComplete)
      && (s.isRetracting ==> o.state.isRetracting)
      && (s.isFullyRetracted ==> o.state.isFullyRetracted)
    // a retracting axon drops its tip, and reports itself done at one point
    ensures var o := Step(s, source, target, mouse, root, rx, ry);
      s.isRetracting ==>
        && |o.state.path| == (if |s.path| > 1 then |s.path| - 1 else 1)
        && o.state.path[1..] == s.path[1..|o.state.path|]
        && (o.state.isFullyRetracted <==> |s.path| == 1)
    // a complete axon is frozen apart from its root
    ensures var o := Step(s, source, target, mouse, root, rx, ry);
      s.isComplete ==> o.state.path[1..] == s.path[1..] && !o.state.isRetracting
    // a growing axon gains one point, within reach of the old tip; it
    // completes when that point is near the target and otherwise retracts
    // once its path is over AXON_MAX_LENGTH
    ensures var o := Step(s, source, target, mouse, root, rx, ry);
      s.Growing() ==>
        && |o.state.path| == |s.path| + 1
        && o.state.path[1..|s.path|] == s.path[1..]
        && !o.state.isFullyRetracted
        && (o.state.isComplete <==> SqDist(o.state.path[|s.path|], target) < Sq(CONTACT_RADIUS))
        && (o.state.isRetracting <==> !o.state.isComplete && |s.path| + 1 > AXON_MAX_LENGTH)
    // the new point is within 0.9 per axis of the old tip (the source itself
    // when the path had only its root)
    ensures var o := Step(s, source, target, mouse, root, rx, ry);
      s.Growing() ==>
        var last := Pin(s.path, source)[|s.path| - 1];
        var tip := o.state.path[|s.path|];
        -0.9 <= tip.x - last.x <= 0.9 && -0.9 <= tip.y - last.y <= 0.9
  {
  }

  /** What one update reads besides the axon: the source, target and mouse
      positions at the time of the call and the two jitter draws. */
  datatype StepInputs = StepInputs(source: Vec, target: Vec, mouse: Vec, rx: real, ry: real)

  predicate InputsOk(ins: seq<StepInputs>)
  {
    forall i :: 0 <= i < |ins| ==> Unit(ins[i].rx) && Unit(ins[i].ry)
  }

  /** The state after a run of updates and how many of them boosted the
      target. */
  datatype Trace = Trace(state: AxonState, boosts: nat)

  /** A run of updates, one per frame. */
  function Run(s: AxonState, ins: seq<StepInputs>, root: real -> real): (t: Trace)
    requires Wf(s) && IsSqrt(root) && InputsOk(ins)
    ensures Wf(t.state)
    ensures s.isComplete ==> t.state.isComplete
    ensures s.isRetracting ==> t.state.isRetracting
    // an axon boosts its target at most once, and does so exactly when it
    // completes during the run
    ensures t.boosts <= 1
    ensures t.boosts == 1 <==> !s.isComplete && t.state.isComplete
    decreases |ins|
  {
    if ins == [] then Trace(s, 0)
    else
      var o := Step(s, ins[0].source, ins[0].target, ins[0].mouse, root, ins[0].rx, ins[0].ry);
      StepByPhase(s, ins[0].source, ins[0].target, ins[0].mouse, root, ins[0].rx, ins[0].ry);
      var rest := Run(o.state, ins[1..], root);
      Trace(rest.state, rest.boosts + if o.boosted then 1 else 0)
  }

  /** A retracting axon loses one point per update down to its root, and is
      fully retracted once it has had as many updates as it had points. */
  lemma {:induction false} RetractionFinishes(s: AxonState, ins: seq<StepInputs>, root: real -> real)
    requires Wf(s) && IsSqrt(root) && InputsOk(ins) && s.isRetracting
    ensures |Run(s, ins, root).state.path| == if |s.path| - |ins| > 1 then |s.path| - |ins| else 1
    ensures Run(s, ins, root).state.isFullyRetracted <==> s.isFullyRetracted || |ins| >= |s.path|
    decreases |ins|
  {
    if ins != [] {
      var o := Step(s, ins[0].source, ins[0].target, ins[0].mouse, root, ins[0].rx, ins[0].ry);
      StepByPhase(s, ins[0].source, ins[0].target, ins[0].mouse, root, ins[0].rx, ins[0].ry);
      RetractionFinishes(o.state, ins[1..], root);
    }
  }

  /** No axon grows for ever: after AXON_MAX_LENGTH + 1 - |path| updates a
      growing axon has completed or started to retract. */
  lemma {:induction false} GrowthEnds(s: AxonState, ins: seq<StepInputs>, root: real -> real)
    requires Wf(s) && IsSqrt(root) && InputsOk(ins) && s.Growing()
    requires |ins| >= AXON_MAX_LENGTH + 1 - |s.path|
    ensures !Run(s, ins, root).state.Growing()
    decreases |ins|
  {
    var o := Step(s, ins[0].source, ins[0].target, ins[0].mouse, root, ins[0].rx, ins[0].ry);
    StepByPhase(s, ins[0].source, ins[0].target, ins[0].mouse, root, ins[0].rx, ins[0].ry);
    assert Run(s, ins, root).state == Run(o.state, ins[1..], root).state;
    if o.state.Growing() {
      assert |o.state.path| == |s.path| + 1;
      GrowthEnds(o.state, ins[1..], root);
    }
  }

  /** A complete axon never changes again beyond its root point, and never
      boosts its target a second time. */
  lemma {:induction false} CompleteIsFrozen(s: AxonState, ins: seq<StepInputs>, root: real -> real)
    requires Wf(s) && IsSqrt(root) && InputsOk(ins) && s.isComplete
    ensures Run(s, ins, root).state.path[1..] == s.path[1..]
    ensures Run(s, ins, root).boosts == 0
    decreases |ins|
  {
    if ins != [] {
      var o := Step(s, ins[0].source, ins[0].target, ins[0].mouse, root, ins[0].rx, ins[0].ry);
      StepByPhase(s, ins[0].source, ins[0].target, ins[0].mouse, root, ins[0].rx, ins[0].ry);
      CompleteIsFrozen(o.state, ins[1..], root);
    }
  }
}
