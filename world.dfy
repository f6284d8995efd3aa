/** The script's global state and the handlers that change it: the list of
    neurons, the click handler that spawns a batch near the cursor, the
    initial seeding, and the cull and update pass of each animation frame.
    The canvas size, the mouse position and every `Math.random()` value are
    parameters. */
module Simulation {
  import opened Geometry
  import opened Sequences
  import opened Activity
  import opened Population
  import opened Motion
  import opened Neurons

  /** Width of the square around the cursor in which a click spawns. */
  const CLICK_SPREAD: real := 40.0

  /** The `Math.random()` values one spawn uses: two for the position, and
      the constructor's radius and two velocity draws. */
  datatype Seed = Seed(px: real, py: real, radius: real, vx: real, vy: real)

  predicate SeedOk(s: Seed)
  {
    Unit(s.px) && Unit(s.py) && Unit(s.radius) && Unit(s.vx) && Unit(s.vy)
  }

  /** Where a click at `at` places a neuron: `at + random * 40 - 20` on each
      axis, so within 20 of the cursor. */
  function ClickSpot(at: Vec, s: Seed): (p: Vec)
    requires SeedOk(s)
    ensures -20.0 <= p.x - at.x < 20.0 && -20.0 <= p.y - at.y < 20.0
  {
    Vec(at.x + s.px * CLICK_SPREAD - 20.0, at.y + s.py * CLICK_SPREAD - 20.0)
  }

  /** Where `init` places a neuron: `random * width`, `random * height`, so
      on the canvas. */
  function SeedSpot(width: real, height: real, s: Seed): (p: Vec)
    requires SeedOk(s)
    ensures 0.0 <= width ==> 0.0 <= p.x <= width
    ensures 0.0 <= height ==> 0.0 <= p.y <= height
  {
    UnitScaled(s.px, width);
    UnitScaled(s.py, height);
    assert 0.0 <= height ==> 0.0 <= s.py * height <= height;
    Vec(s.px * width, s.py * height)
  }

  /** A draw in [0, 1) scales a non-negative length to within it. */
  lemma UnitScaled(u: real, w: real)
    requires Unit(u)
    ensures 0.0 <= w ==> 0.0 <= u * w <= w
  {
    if 0.0 <= w {
      MulMono(0.0, u, w);
      MulMono(u, 1.0, w);
    }
  }

  /** `neurons.filter(neuron => neuron.activity > 0.01)`: the neurons that
      are still alive, in their order. */
  function Survivors(ns: seq<Neuron>): (r: seq<Neuron>)
    reads (set n | n in ns)`activity
    ensures |r| <= |ns|
    ensures forall i :: 0 <= i < |r| ==> r[i] in ns && Alive(r[i].activity)
    ensures forall n :: n in ns && Alive(n.activity) ==> n in r
    ensures Distinct(ns) ==> Distinct(r)
  {
    var keep := set n | n in ns && Alive(n.activity);
    var r := Filter(ns, n => n in keep);
    if Distinct(ns) then
      FilterPairwise(ns, n => n in keep, Different);
      r
    else
      r
  }

  class World {
    var neurons: seq<Neuron>

    /** At most MAX_NEURONS distinct neurons, each valid, with activity in
        (0, 1]. */
    predicate Valid()
      reads this`neurons, (set n | n in neurons)`vx, (set n | n in neurons)`vy
      reads (set n | n in neurons)`axons, (set n | n in neurons)`activity
      reads (set n, a | n in neurons && a in n.axons :: a)`path, (set n, a | n in neurons && a in n.axons :: a)`isComplete, (set n, a | n in neurons && a in n.axons :: a)`isRetracting, (set n, a | n in neurons && a in n.axons :: a)`isFullyRetracted
    {
      && |neurons| <= MAX_NEURONS
      && Distinct(neurons)
      && forall n :: n in neurons ==> n.Valid() && 0.0 < n.activity <= 1.0
    }

    /** `let neurons = []`. */
    constructor()
      ensures Valid() && neurons == []
    {
      neurons := [];
    }

    /** `if (neurons.length < MAX_NEURONS) neurons.push(new Neuron(p.x, p.y))`:
        below the cap, one new neuron at `p` with full activity whose axons
        all lead to neurons already there (which ones, the constructor's
        contract says). */
    method TrySpawn(p: Vec, s: Seed)
      requires Valid() && SeedOk(s)
      modifies this`neurons
      ensures Valid()
      ensures |old(neurons)| >= MAX_NEURONS ==> neurons == old(neurons)
      ensures |old(neurons)| < MAX_NEURONS ==>
        && |neurons| == |old(neurons)| + 1 && neurons[..|old(neurons)|] == old(neurons)
        && var n := neurons[|old(neurons)|];
           && fresh(n) && n.Pos() == p && n.activity == 1.0
           && forall a :: a in n.axons ==> a.target in old(neurons)
    {
      if |neurons| < MAX_NEURONS {
        var n := new Neuron(p.x, p.y, s.radius, s.vx, s.vy, neurons);
        DistinctSnoc(neurons, n);
        neurons := neurons + [n];
      }
    }

    /** The click handler: five tries at spawning near `at`, the k-th try
        using seed k. Exactly Admitted(n, 5) neurons are added to the n
        there were, so the population stays within MAX_NEURONS. */
    method Click(at: Vec, seeds: nat -> Seed)
      requires Valid() && forall k :: SeedOk(seeds(k))
      modifies this`neurons
      ensures Valid()
      ensures |neurons| == |old(neurons)| + Admitted(|old(neurons)|, CLICK_BATCH)
      ensures neurons[..|old(neurons)|] == old(neurons)
      ensures forall k :: |old(neurons)| <= k < |neurons| ==>
        fresh(neurons[k]) && neurons[k].Pos() == ClickSpot(at, seeds(k - |old(neurons)|)) && neurons[k].activity == 1.0
    {
      ghost var n0 := |neurons|;
      var i := 0;
      while i < CLICK_BATCH
        invariant 0 <= i <= CLICK_BATCH && Valid()
        invariant |neurons| == n0 + Admitted(n0, i)
        invariant neurons[..n0] == old(neurons)
        invariant forall k :: n0 <= k < |neurons| ==>
          fresh(neurons[k]) && neurons[k].Pos() == ClickSpot(at, seeds(k - n0)) && neurons[k].activity == 1.0
      {
        AdmittedStep(n0, i);
        ghost var before := neurons;
        TrySpawn(ClickSpot(at, seeds(i)), seeds(i));
        assert forall k :: 0 <= k < |before| ==> neurons[k] == before[k];
        if |before| < MAX_NEURONS {
          assert |before| - n0 == i;
        }
        i := i + 1;
      }
    }

    /** `init`: fifty tries at spawning uniformly on the canvas, the k-th try
        using seed k; Admitted(n, 50) neurons are added. */
    method Init(width: real, height: real, seeds: nat -> Seed)
      requires Valid() && forall k :: SeedOk(seeds(k))
      modifies this`neurons
      ensures Valid()
      ensures |neurons| == |old(neurons)| + Admitted(|old(neurons)|, SEED_COUNT)
      ensures neurons[..|old(neurons)|] == old(neurons)
      ensures forall k :: |old(neurons)| <= k < |neurons| ==>
        fresh(neurons[k]) && neurons[k].Pos() == SeedSpot(width, height, seeds(k - |old(neurons)|)) && neurons[k].activity == 1.0
    {
      ghost var n0 := |neurons|;
      var i := 0;
      while i < SEED_COUNT
        invariant 0 <= i <= SEED_COUNT && Valid()
        invariant |neurons| == n0 + Admitted(n0, i)
        invariant neurons[..n0] == old(neurons)
        invariant forall k :: n0 <= k < |neurons| ==>
          fresh(neurons[k]) && neurons[k].Pos() == SeedSpot(width, height, seeds(k - n0)) && neurons[k].activity == 1.0
      {
        AdmittedStep(n0, i);
        ghost var before := neurons;
        TrySpawn(SeedSpot(width, height, seeds(i)), seeds(i));
        assert forall k :: 0 <= k < |before| ==> neurons[k] == before[k];
        if |before| < MAX_NEURONS {
          assert |before| - n0 == i;
        }
        i := i + 1;
      }
    }

    /** One call of `animate`, drawing aside: the neurons whose activity is
        not above CULL_LEVEL are dropped, keeping their order, and then each
        remaining neuron is updated once, in order, the i-th with draws(i)
        and the culled list as its population. No neuron fades by more than
        DECAY, and every activity stays in (0, 1]. */
    method Frame(mouse: Vec, width: real, height: real, root: real -> real, draws: nat -> Draws)
      requires Valid() && IsSqrt(root) && forall k :: DrawsOk(draws(k))
      modifies this`neurons
      modifies (set n | n in neurons)`x, (set n | n in neurons)`y, (set n | n in neurons)`vx, (set n | n in neurons)`vy
      modifies (set n | n in neurons)`activity, (set n | n in neurons)`axons
      modifies (set n, a | n in neurons && a in n.axons :: a)`path, (set n, a | n in neurons && a in n.axons :: a)`isComplete
      modifies (set n, a | n in neurons && a in n.axons :: a)`isRetracting
      modifies (set n, a | n in neurons && a in n.axons :: a)`isFullyRetracted
      modifies (set n, a | n in neurons && a in n.axons :: a.target)`activity
      ensures Valid()
      ensures neurons == old(Survivors(neurons))
      ensures forall n :: n in neurons ==> old(n.activity) - DECAY <= n.activity
      // the j-th survivor moves as Moved says, with draws(j)
      ensures forall j, b :: 0 <= j < |neurons| && DrawsOk(draws(j)) && b == (var n := neurons[j]; old(Body(n.Pos(), n.Vel()))) ==>
        Body(neurons[j].Pos(), neurons[j].Vel()) == Moved(b, width, height, root, draws(j).turn, draws(j).nudgeX, draws(j).nudgeY)
    {
      neurons := Survivors(neurons);
      UpdateAll(mouse, width, height, root, draws);
    }

    /** `neurons.forEach(neuron => neuron.update())` over living neurons. */
    method UpdateAll(mouse: Vec, width: real, height: real, root: real -> real, draws: nat -> Draws)
      requires Valid() && IsSqrt(root) && forall k :: DrawsOk(draws(k))
      requires forall n :: n in neurons ==> Alive(n.activity)
      modifies (set n | n in neurons)`x, (set n | n in neurons)`y, (set n | n in neurons)`vx, (set n | n in neurons)`vy
      modifies (set n | n in neurons)`activity, (set n | n in neurons)`axons
      modifies (set n, a | n in neurons && a in n.axons :: a)`path, (set n, a | n in neurons && a in n.axons :: a)`isComplete
      modifies (set n, a | n in neurons && a in n.axons :: a)`isRetracting
      modifies (set n, a | n in neurons && a in n.axons :: a)`isFullyRetracted
      modifies (set n, a | n in neurons && a in n.axons :: a.target)`activity
      ensures Valid()
      ensures forall n :: n in neurons ==> old(n.activity) - DECAY <= n.activity
      // quantified over the old body so that callers do not unfold Moved
      ensures forall j, b :: 0 <= j < |neurons| && DrawsOk(draws(j)) && b == old(Body(neurons[j].Pos(), neurons[j].Vel())) ==>
        Body(neurons[j].Pos(), neurons[j].Vel()) == Moved(b, width, height, root, draws(j).turn, draws(j).nudgeX, draws(j).nudgeY)
    {
      ghost var bodies := seq(|neurons|, j requires 0 <= j < |neurons|
        reads this`neurons, (set n | n in neurons)`x, (set n | n in neurons)`y, (set n | n in neurons)`vx, (set n | n in neurons)`vy
        => Body(neurons[j].Pos(), neurons[j].Vel()));
      ghost var acts := seq(|neurons|, j requires 0 <= j < |neurons| reads this`neurons, (set n | n in neurons)`activity
        => neurons[j].activity);
      ghost var axs := seq(|neurons|, j requires 0 <= j < |neurons| reads this`neurons, (set n | n in neurons)`axons
        => neurons[j].axons);
      var i := 0;
      while i < |neurons|
        invariant 0 <= i <= |neurons| && Valid()
        invariant forall j :: 0 <= j < i ==> acts[j] - DECAY <= neurons[j].activity
        invariant forall j :: i <= j < |neurons| ==> acts[j] <= neurons[j].activity && neurons[j].axons == axs[j]
        invariant forall j, b :: 0 <= j < i && DrawsOk(draws(j)) && b == bodies[j] ==>
          Body(neurons[j].Pos(), neurons[j].Vel()) == Moved(b, width, height, root, draws(j).turn, draws(j).nudgeX, draws(j).nudgeY)
        invariant forall j :: i <= j < |neurons| ==> Body(neurons[j].Pos(), neurons[j].Vel()) == bodies[j]
      {
        UpdateAt(i, mouse, width, height, root, draws(i));
        i := i + 1;
      }
    }

    /** The update of the i-th neuron, seen from the world: it stays valid,
        the i-th neuron fades by at most DECAY, and every other neuron keeps
        its axons and only gains activity. */
    method UpdateAt(i: nat, mouse: Vec, width: real, height: real, root: real -> real, d: Draws)
      requires Valid() && IsSqrt(root) && DrawsOk(d) && i < |neurons| && Alive(neurons[i].activity)
      modifies {neurons[i]}`x, {neurons[i]}`y, {neurons[i]}`vx, {neurons[i]}`vy, {neurons[i]}`activity, {neurons[i]}`axons
      modifies (set a | a in neurons[i].axons)`path, (set a | a in neurons[i].axons)`isComplete
      modifies (set a | a in neurons[i].axons)`isRetracting, (set a | a in neurons[i].axons)`isFullyRetracted
      modifies (set a | a in neurons[i].axons :: a.target)`activity
      ensures Valid()
      ensures old(neurons[i].activity) - DECAY <= neurons[i].activity
      // quantified over the old body so that callers do not unfold Moved
      ensures forall b :: b == old(Body(neurons[i].Pos(), neurons[i].Vel())) ==>
        Body(neurons[i].Pos(), neurons[i].Vel()) == Moved(b, width, height, root, d.turn, d.nudgeX, d.nudgeY)
      ensures forall j :: 0 <= j < |neurons| && j != i ==>
        old(neurons[j].activity) <= neurons[j].activity && neurons[j].axons == old(neurons[j].axons)
        && Body(neurons[j].Pos(), neurons[j].Vel()) == old(Body(neurons[j].Pos(), neurons[j].Vel()))
    {
      var n := neurons[i];
      FrameKeepsPositive(n.activity, SqDist(n.Pos(), mouse) < Sq(MOUSE_INFLUENCE_RADIUS));
      n.Update(mouse, width, height, root, d, neurons);
    }
  }

  /** A fresh element keeps a distinct sequence distinct. */
  lemma DistinctSnoc<T>(s: seq<T>, x: T)
    requires Distinct(s) && x !in s
    ensures Distinct(s + [x])
  {
    var t := s + [x];
    forall i, j | 0 <= i < j < |t| ensures Different(t[i], t[j]) {
      if j == |s| {
        assert t[i] == s[i];
      } else {
        assert Different(s[i], s[j]);
      }
    }
  }
}
