/** The cap on the number of neurons, shared by the click handler and the
    initial seeding. */
module Population {

  const MAX_NEURONS: nat := 150
  /** Neurons a click tries to add. */
  const CLICK_BATCH: nat := 5
  /** Neurons `init` tries to add. */
  const SEED_COUNT: nat := 50

  /** How many of `tries` pushes succeed when each one first checks that the
      population (n at the start) is below MAX_NEURONS. */
  function Admitted(n: nat, tries: nat): (k: nat)
    ensures k <= tries
    ensures n <= MAX_NEURONS ==> n + k <= MAX_NEURONS
    ensures k == tries || n + k == MAX_NEURONS || (n > MAX_NEURONS && k == 0)
  {
    if n >= MAX_NEURONS then 0
    else if tries <= MAX_NEURONS - n then tries
    else MAX_NEURONS - n
  }

  /** One more try adds exactly one neuron while the population is below the
      cap, and none once it has reached it: the loop's step. */
  lemma AdmittedStep(n: nat, tries: nat)
    ensures Admitted(n, tries + 1)
         == Admitted(n, tries) + (if n + Admitted(n, tries) < MAX_NEURONS then 1 else 0)
  {
  }

  /** The cases of a full world, a nearly full one, and seeding an empty one. */
  lemma AdmittedExamples()
    ensures Admitted(150, CLICK_BATCH) == 0
    ensures Admitted(148, CLICK_BATCH) == 2
    ensures Admitted(0, SEED_COUNT) == 50
    ensures Admitted(120, SEED_COUNT) == 30
  {
  }
}
