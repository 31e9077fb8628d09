/** State that outlives one GenerateTree command: the static tree counter
    (src/treeGenerator.cpp:12, TreeGenerator/treegenerator.cpp:14), the 2012 copy's static seed
    (TreeGenerator/treegenerator.cpp:15), the random engine shared by every call
    (src/randomGenerator.cpp:10) and the progress window whose cancel button is polled. */
module PluginSession {
  import opened TreeComponents
  import opened Randomness

  class Session {
    /** Trees generated so far in this Maya session (sm_treeNumber). */
    var treeNumber: int
    /** The seed the engine was last seeded with (sm_treeSeed in the 2012 copy). */
    var seed: uint32
    /** How many draws the engine has produced since it was last seeded. */
    var next: nat
    /** How many times the cancel button has been polled. */
    var polls: nat
    /** The draws the engine produces after being seeded with each value. */
    const engine: uint32 -> Stream
    /** Whether the k-th poll finds the cancel button pressed. */
    const cancel: CancelOracle

    /** Every seed yields draws within the ranges the distributions promise. */
    ghost predicate Valid()
    {
      forall s: uint32 :: ValidStream(engine(s))
    }

    /** The draws of the current seed. */
    function Draws(): Stream
      reads this`seed
    {
      engine(seed)
    }

    /** Plugin load: no tree yet, and the engine seeded once (Random::Initialise, or seed 0
        in the 2012 copy). */
    constructor(engine: uint32 -> Stream, cancel: CancelOracle, initialSeed: uint32)
      ensures this.engine == engine && this.cancel == cancel
      ensures treeNumber == 0 && seed == initialSeed && next == 0 && polls == 0
    {
      this.engine := engine;
      this.cancel := cancel;
      treeNumber := 0;
      seed := initialSeed;
      next := 0;
      polls := 0;
    }

    /** One call to the random generator: the next draw of the current seed. */
    method Take() returns (d: Draw)
      requires ValidStream(Draws())
      modifies this`next
      ensures d == Draws()(old(next)) && ValidDraw(d)
      ensures next == old(next) + 1
    {
      d := engine(seed)(next);
      next := next + 1;
    }

    /** Reseeding restarts the draws from the first one of the new seed. */
    method Reseed(s: uint32)
      modifies this`seed, this`next
      ensures seed == s && next == 0
    {
      seed := s;
      next := 0;
    }

    /** PluginIsCancelled: one poll of the cancel button. */
    method Poll() returns (cancelled: bool)
      modifies this`polls
      ensures cancelled == cancel(old(polls))
      ensures polls == old(polls) + 1
    {
      cancelled := cancel(polls);
      polls := polls + 1;
    }
  }
}
