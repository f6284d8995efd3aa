/** A neuron's activity: the value in [0, 1] that fades every frame, is
    raised by the mouse and by a completed incoming axon, and decides when the
    neuron is removed. */
module Activity {
  import opened Geometry

  /** Subtracted from every neuron's activity in every frame. */
  const DECAY: real := 0.0005
  /** Added, after the decay, to a neuron within the mouse's radius. */
  const MOUSE_BOOST: real := 0.005
  /** Added to the target of an axon that completes. */
  const CONTACT_BOOST: real := 0.5
  /** A neuron whose activity is not above this is removed from the world. */
  const CULL_LEVEL: real := 0.01
  const MOUSE_INFLUENCE_RADIUS: real := 250.0

  /** `activity` only went up, and not past the cap, when it started at or
      below the cap. */
  predicate Raised(before: real, after: real)
  {
    before <= 1.0 ==> before <= after <= 1.0
  }

  /** `boostActivity`: add CONTACT_BOOST, capped at 1. */
  function Boost(a: real): (r: real)
    ensures r <= 1.0 && Raised(a, r)
    ensures a + CONTACT_BOOST <= 1.0 ==> r == a + CONTACT_BOOST
    ensures 1.0 <= a + CONTACT_BOOST ==> r == 1.0
  {
    Min(1.0, a + CONTACT_BOOST)
  }

  /** The activity change of one `Neuron.update`: the decay always applies;
      within the mouse radius the mouse boost is added after it, capped at 1. */
  function FrameActivity(a: real, nearMouse: bool): (r: real)
    ensures a <= 1.0 ==> a - DECAY <= r <= 1.0
    ensures !nearMouse ==> r == a - DECAY
    ensures nearMouse && a <= 1.0 ==> r == Min(1.0, a + (MOUSE_BOOST - DECAY))
  {
    var decayed := a - DECAY;
    if nearMouse then Min(1.0, decayed + MOUSE_BOOST) else decayed
  }

  /** The world keeps a neuron only while this holds. */
  predicate Alive(a: real)
  {
    a > CULL_LEVEL
  }

  /** A neuron that survived the cull still has positive activity, at most 1,
      after its update. */
  lemma FrameKeepsPositive(a: real, nearMouse: bool)
    requires Alive(a) && a <= 1.0
    ensures 0.0 < FrameActivity(a, nearMouse) <= 1.0
  {
  }

  /** Near the mouse the net change is +0.0045, not +0.005: the boost does not
      replace the decay. */
  lemma MouseBoostFollowsDecay(a: real)
    requires 0.0 <= a <= 0.99
    ensures FrameActivity(a, true) == a + 0.0045
    ensures FrameActivity(a, true) != Min(1.0, a + MOUSE_BOOST)
  {
  }

  /** The activity after k frames away from the mouse with no boost. */
  function Decayed(a: real, k: nat): real
  {
    if k == 0 then a else FrameActivity(Decayed(a, k - 1), false)
  }

  lemma {:induction false} DecayedClosedForm(a: real, k: nat)
    ensures Decayed(a, k) == a - (k as real) * DECAY
  {
    if k > 0 {
      DecayedClosedForm(a, k - 1);
    }
  }

  /** A fresh neuron (activity 1) left alone survives 1979 frames and is
      removed by the cull that follows its 1980th update. */
  lemma CulledAfter1980Frames()
    ensures Alive(Decayed(1.0, 1979))
    ensures !Alive(Decayed(1.0, 1980))
  {
    DecayedClosedForm(1.0, 1979);
    DecayedClosedForm(1.0, 1980);
  }
}
