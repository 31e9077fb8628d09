/** Properties of the whole turtle walk (src/treeGenerator.cpp:104-268,
    TreeGenerator/treegenerator.cpp:201-381): it keeps the skeleton well formed and only ever
    appends to it, and one round of BuildTheTree's loop is one Step followed by one poll. */
module TurtleWalk {
  import opened TreeComponents
  import opened Randomness
  import opened Skeleton

  /** The walk keeps the skeleton well formed. */
  lemma {:induction false} RunKeepsWF(c: Config, rule: string, st: BuildState, j: nat)
    requires ValidStream(c.stream) && WF(c, st)
    ensures WF(c, Run(c, rule, st, j).st)
    decreases |rule| + 1 - j
  {
    if j < |rule| {
      var st2, j2, stop := Advance(c, rule, st, j);
      if !stop {
        RunKeepsWF(c, rule, st2, j2);
      }
    }
  }

  /** The walk only ever appends: to the branches, to each branch's sections and children,
      and to the leaves. */
  lemma {:induction false} RunExtends(c: Config, rule: string, st: BuildState, j: nat)
    requires ValidStream(c.stream)
    ensures Extends(st.branches, Run(c, rule, st, j).st.branches)
    ensures st.leaves <= Run(c, rule, st, j).st.leaves
    decreases |rule| + 1 - j
  {
    if j < |rule| && TurtleFits(st.turtle, st.branches) {
      var st2, j2, stop := Advance(c, rule, st, j);
      if !stop {
        RunExtends(c, rule, st2, j2);
        ExtendsTransitive(st.branches, st2.branches, Run(c, rule, st2, j2).st.branches);
      }
    } else {
      ExtendsReflexive(st.branches);
    }
  }

  /** One symbol and its poll, named apart from Step: the state and position the walk goes on
      from, whether the poll stopped it, and what the step keeps. */
  lemma Advance(c: Config, rule: string, st: BuildState, j: nat) returns (st2: BuildState, j2: nat, stop: bool)
    requires ValidStream(c.stream) && TurtleFits(st.turtle, st.branches) && j < |rule|
    ensures j < j2
    ensures Run(c, rule, st, j) == if stop then Outcome(st2, false) else Run(c, rule, st2, j2)
    ensures Extends(st.branches, st2.branches) && st.leaves <= st2.leaves
    ensures WF(c, st) ==> WF(c, st2)
  {
    var r := Step(c, rule, st, j);
    st2, j2, stop := r.0.(polls := r.0.polls + 1), r.1 + 1, c.cancel(r.0.polls);
    assert Run(c, rule, st, j) == if stop then Outcome(st2, false) else Run(c, rule, st2, j2) by {
      RunUnfold(c, rule, st, j, r.0, r.1);
    }
    assert Extends(st.branches, st2.branches) && st.leaves <= st2.leaves by {
      StepExtends(c, rule, st, j);
    }
    if WF(c, st) {
      StepPollKeepsWF(c, rule, st, j);
    }
  }

  /** One round of BuildTheTree's loop: the step, then the poll, which decides between
      stopping and running on from the next symbol. */
  lemma RunUnfold(c: Config, rule: string, st: BuildState, j: nat, st1: BuildState, j1: nat)
    requires ValidStream(c.stream) && TurtleFits(st.turtle, st.branches) && j < |rule|
    requires (st1, j1) == Step(c, rule, st, j)
    ensures Run(c, rule, st, j) ==
              if c.cancel(st1.polls) then Outcome(st1.(polls := st1.polls + 1), false)
              else Run(c, rule, st1.(polls := st1.polls + 1), j1 + 1)
  { }

  /** One round of the loop, given the state and position the symbol left: the poll that
      follows keeps the skeleton well formed and decides how the walk goes on. */
  lemma AdvanceFrom(c: Config, rule: string, st: BuildState, j: nat, st1: BuildState, j1: nat,
                    good: iset<BuildState>)
    requires ValidStream(c.stream) && WellFormedStates(c, good) && st in good
    requires j < |rule| && TurtleFits(st.turtle, st.branches) && (st1, j1) == Step(c, rule, st, j)
    ensures j <= j1 <= |rule| && st1.(polls := st1.polls + 1) in good
    ensures Run(c, rule, st, j) ==
              if c.cancel(st1.polls) then Outcome(st1.(polls := st1.polls + 1), false)
              else Run(c, rule, st1.(polls := st1.polls + 1), j1 + 1)
  {
    StepKeepsGood(c, rule, st, j, good);
    RunUnfold(c, rule, st, j, st1, j1);
  }

  /** A symbol and the poll after it take a well-formed state to a well-formed state. */
  lemma StepKeepsGood(c: Config, rule: string, st: BuildState, j: nat, good: iset<BuildState>)
    requires ValidStream(c.stream) && WellFormedStates(c, good) && st in good
    requires j < |rule| && TurtleFits(st.turtle, st.branches)
    ensures var r := Step(c, rule, st, j); r.0.(polls := r.0.polls + 1) in good
  {
    StepPollKeepsWF(c, rule, st, j);
  }

  /** A well-formed state's turtle stands on a section of its branch. */
  lemma GoodTurtleFits(c: Config, st: BuildState, good: iset<BuildState>)
    requires WellFormedStates(c, good) && st in good
    ensures TurtleFits(st.turtle, st.branches)
  {
    assert WF(c, st);
  }

  /** The set of well-formed states of c, and the start state in it. */
  lemma StartGood(c: Config, maxLayers: int, next: nat, polls: nat) returns (good: iset<BuildState>)
    requires maxLayers >= 0
    ensures WellFormedStates(c, good) && Start(c, maxLayers, next, polls) in good
  {
    good := iset s | WF(c, s);
    StartWF(c, maxLayers, next, polls);
  }

  /** The build from the start state ends in a well-formed skeleton. */
  lemma BuildWF(c: Config, rule: string, maxLayers: int, next: nat, polls: nat)
    requires ValidStream(c.stream) && maxLayers >= 0
    ensures WF(c, Build(c, rule, maxLayers, next, polls).st)
  {
    StartWF(c, maxLayers, next, polls);
    RunKeepsWF(c, rule, Start(c, maxLayers, next, polls), 0);
  }
}
