/** The turtle interpreter behind BuildTheTree and BuildNewBranch (src/treeGenerator.cpp:104-396,
    TreeGenerator/treegenerator.cpp:201-495), as a pure state machine over the command string.
    Poses are opaque: every rotation, translation and normalisation is delegated to a Geometry
    supplied with the run, and only the scalar arithmetic that feeds it is modelled. */
module Skeleton {
  import opened TreeHelpers
  import opened TreeComponents
  import opened Randomness

  /** Which BranchData the turtle reads: the trunk's or the branches'. */
  datatype ActiveStyle = TrunkStyle | BranchStyle

  datatype Axis = XAxis | YAxis | ZAxis

  /** The floating-point geometry the interpreter calls but this model does not look into. */
  datatype Geometry = Geometry(
    /** DetermineForwardMovement followed by Translate: the pose moved along its forward axis
        turned by the three given angles (radians, about Y, X, Z) and scaled by the length. */
    advance: (Pose, real, real, real, real) -> Pose,
    /** Rotation of a pose about one of its own axes by an angle in radians. */
    rotate: (Pose, Axis, real) -> Pose,
    /** Vector normalisation. */
    normalized: Float3 -> Float3)

  /** Everything one build reads but never changes. */
  datatype Config = Config(
    variant: Variant, trunk: BranchData, branch: BranchData,
    initialRadius: real, branchRadiusDecrease: real, minimumRadius: real,
    branchDeathProbability: uint32, treeHasLeaves: bool, leafLayer: uint32,
    geometry: Geometry, stream: Stream, cancel: CancelOracle)

  /** The interpreter's state between two symbols: the turtle, the stack of saved turtles,
      the active style, the branch and leaf collections, the deepest layer seen, and the
      positions of the next unused draw and cancellation poll. */
  datatype BuildState = BuildState(
    turtle: Turtle, stack: seq<Turtle>, style: ActiveStyle,
    branches: seq<Branch>, leaves: seq<Leaf>, maxLayers: int,
    next: nat, polls: nat)

  function Max(a: int, b: int): int
  {
    if a < b then b else a
  }

  /** A radius after a decrease, floored at the minimum radius. */
  function Floor(radius: real, minimum: real): (r: real)
    ensures r >= minimum
    ensures r == radius || r == minimum
  {
    if radius < minimum then minimum else radius
  }

  function Values(c: Config, style: ActiveStyle): BranchData
  {
    if style == TrunkStyle then c.trunk else c.branch
  }

  // ----- Well-formedness of the skeleton -----

  /** The trunk is branch 0 with no parent; every other branch has an older parent one layer
      up and grew from one of that parent's sections. */
  ghost predicate ParentLinks(bs: seq<Branch>)
  {
    && |bs| >= 1
    && bs[0].parentIndex == -1 && bs[0].layer == 0
    && (forall b :: 0 <= b < |bs| ==> |bs[b].sections| >= 1)
    && (forall b :: 1 <= b < |bs| ==>
          0 <= bs[b].parentIndex < b
          && bs[b].layer == bs[bs[b].parentIndex].layer + 1
          && 0 <= bs[b].sectionIndex < |bs[bs[b].parentIndex].sections|)
  }

  /** Child lists hold exactly the branches that name the owner as parent, in increasing order. */
  ghost predicate ChildLinks(bs: seq<Branch>)
  {
    ChildrenPointBack(bs) && ChildrenAscending(bs) && ChildrenListed(bs)
  }

  /** Every listed child is a later branch that names the owner as its parent. */
  ghost predicate ChildrenPointBack(bs: seq<Branch>)
  {
    forall p, i :: 0 <= p < |bs| && 0 <= i < |bs[p].children| ==>
      0 < bs[p].children[i] < |bs| && bs[bs[p].children[i]].parentIndex == p
  }

  /** Child lists are in increasing order. */
  ghost predicate ChildrenAscending(bs: seq<Branch>)
  {
    forall p, i, k :: 0 <= p < |bs| && 0 <= i < k < |bs[p].children| ==>
      bs[p].children[i] < bs[p].children[k]
  }

  /** Every branch but the trunk is listed by its parent. */
  ghost predicate ChildrenListed(bs: seq<Branch>)
  {
    forall b :: 1 <= b < |bs| && 0 <= bs[b].parentIndex < |bs| ==>
      b in bs[bs[b].parentIndex].children
  }

  /** Every section radius is at least the minimum, except the trunk's first section, which
      keeps the initial radius unclamped. */
  ghost predicate RadiiFloored(bs: seq<Branch>, minimum: real)
  {
    forall b, k :: 0 <= b < |bs| && 0 <= k < |bs[b].sections| && (b != 0 || k != 0) ==>
      bs[b].sections[k].radius >= minimum
  }

  /** The trunk's first section sits at the origin with the initial radius, and the trunk
      keeps the default section index. */
  ghost predicate TrunkRoot(bs: seq<Branch>, initialRadius: real)
  {
    |bs| >= 1 && |bs[0].sections| >= 1 &&
    bs[0].sections[0] == Section(Origin, initialRadius) && bs[0].sectionIndex == -1
  }

  /** Layers run from 0 on the trunk to maxLayers; every non-trunk branch is on layer 1 or deeper. */
  ghost predicate LayersBounded(bs: seq<Branch>, maxLayers: int)
  {
    forall b :: 0 <= b < |bs| ==> (if b == 0 then 0 else 1) <= bs[b].layer <= maxLayers
  }

  /** A turtle agrees with the branch it draws: that branch holds sectionIndex + 1 sections,
      the last one carrying the turtle's radius, and the turtle's layer and parent are the
      branch's. */
  ghost predicate TurtleFits(t: Turtle, bs: seq<Branch>)
  {
    && 0 <= t.branchIndex < |bs|
    && t.sectionIndex >= 0
    && |bs[t.branchIndex].sections| == t.sectionIndex + 1
    && t.layerIndex == bs[t.branchIndex].layer
    && t.branchParent == bs[t.branchIndex].parentIndex
    && t.radius == bs[t.branchIndex].sections[t.sectionIndex].radius
  }

  /** Saved turtles all fit, were saved at a branch point, and lie on branches strictly older
      than those saved after them and than the active one. */
  ghost predicate StackFits(stack: seq<Turtle>, t: Turtle, bs: seq<Branch>)
  {
    && (forall i :: 0 <= i < |stack| ==> TurtleFits(stack[i], bs) && stack[i].branchEnded)
    && (forall i, k :: 0 <= i < k < |stack| ==> stack[i].branchIndex < stack[k].branchIndex)
    && (forall i :: 0 <= i < |stack| ==> stack[i].branchIndex < t.branchIndex)
  }

  /** On the trunk the trunk style is active; in the current code the branch style is active
      everywhere else. */
  ghost predicate StyleFits(v: Variant, style: ActiveStyle, t: Turtle)
  {
    (t.branchIndex == 0 ==> style == TrunkStyle) &&
    (v == Current && t.branchIndex != 0 ==> style == BranchStyle)
  }

  /** Leaves exist only when enabled, on layers from max(1, leafLayer) to maxLayers, with a
      floored radius. */
  ghost predicate LeavesFit(c: Config, leaves: seq<Leaf>, maxLayers: int)
  {
    (!c.treeHasLeaves ==> leaves == []) &&
    forall i :: 0 <= i < |leaves| ==>
      1 <= leaves[i].layer <= maxLayers && leaves[i].layer >= AsInt32(c.leafLayer) &&
      leaves[i].sectionRadius >= c.minimumRadius
  }

  ghost predicate WF(c: Config, st: BuildState)
  {
    && ParentLinks(st.branches)
    && ChildLinks(st.branches)
    && RadiiFloored(st.branches, c.minimumRadius)
    && TrunkRoot(st.branches, c.initialRadius)
    && LayersBounded(st.branches, st.maxLayers)
    && TurtleFits(st.turtle, st.branches)
    && StackFits(st.stack, st.turtle, st.branches)
    && StyleFits(c.variant, st.style, st.turtle)
    && LeavesFit(c, st.leaves, st.maxLayers)
  }

  /** good holds exactly the well-formed states of c. Membership in good carries
      well-formedness along the walk; WF itself is only unfolded where a WF term is named. */
  ghost predicate WellFormedStates(c: Config, good: iset<BuildState>)
  {
    forall st {:trigger WF(c, st)} :: WF(c, st) <==> st in good
  }

  // ----- The symbols -----

  /** The state BuildTheTree starts from: the turtle turned 90 degrees about its X axis on
      branch 0, the trunk, whose one section sits at the origin with the initial radius; draws
      and cancellation polls continue from `next` and `polls`. */
  function Start(c: Config, maxLayers: int, next: nat, polls: nat): BuildState
  {
    var world := c.geometry.rotate(IdentityPose, XAxis, DegToRad(90.0));
    var trunk := NewBranch().(layer := 0, parentIndex := -1, sections := [Section(Origin, c.initialRadius)]);
    BuildState(Turtle(world, c.initialRadius, 0, 0, -1, 0, false), [], TrunkStyle,
               [trunk], [], maxLayers, next, polls)
  }

  /** DetermineForwardMovement and Translate: four draws x, y, z, length, in that order; the
      heading is turned by forwardAngle times y, x and z degrees about Y, X and Z, and the
      step is forward + forwardVariance times length. */
  function Moved(c: Config, st: BuildState): Pose
    requires ValidStream(c.stream)
  {
    var values := Values(c, st.style);
    var x := Unit(c.variant, c.stream(st.next));
    var y := Unit(c.variant, c.stream(st.next + 1));
    var z := Unit(c.variant, c.stream(st.next + 2));
    var length := Unit(c.variant, c.stream(st.next + 3));
    c.geometry.advance(st.turtle.world,
                       DegToRad(Spread(values.forwardAngle, y)), DegToRad(Spread(values.forwardAngle, x)),
                       DegToRad(Spread(values.forwardAngle, z)), Vary(values.forward, values.forwardVariance, length))
  }

  /** 'F': move, decrease and floor the radius, and append a section to the active branch. */
  function DrawForward(c: Config, st: BuildState): BuildState
    requires ValidStream(c.stream) && TurtleFits(st.turtle, st.branches)
  {
    var t := st.turtle;
    var pose := Moved(c, st);
    var r := Floor(t.radius * Values(c, st.style).radiusDecrease, c.minimumRadius);
    var b := st.branches[t.branchIndex];
    st.(turtle := t.(world := pose, radius := r, sectionIndex := t.sectionIndex + 1),
        branches := st.branches[t.branchIndex := b.(sections := b.sections + [Section(pose.position, r)])],
        next := st.next + 4)
  }

  /** 'G': move without drawing. */
  function MoveForward(c: Config, st: BuildState): BuildState
    requires ValidStream(c.stream)
  {
    st.(turtle := st.turtle.(world := Moved(c, st)), next := st.next + 4)
  }

  /** Whether a draw p in [0,100] kills a branch: p < branchDeathProbability, compared as int
      in the current code and as unsigned in the 2012 code. */
  function Kills(v: Variant, p: int, deathProbability: uint32): bool
  {
    match v
    case Current => p < AsInt32(deathProbability)
    case Legacy => p < deathProbability
  }

  /** The surviving-'[' path: save the turtle marked as ended, then BuildNewBranch. */
  function Grow(c: Config, st: BuildState): BuildState
    requires TurtleFits(st.turtle, st.branches)
  {
    var t := st.turtle;
    var style := if c.variant == Current && t.branchIndex == 0 then BranchStyle else st.style;
    var child := Sprout(c, t);
    st.(turtle := t.(radius := child.sections[0].radius, layerIndex := child.layer,
                     branchParent := t.branchIndex, branchIndex := |st.branches|,
                     branchEnded := false, sectionIndex := 0),
        stack := st.stack + [t.(branchEnded := true)],
        style := style,
        branches := WithChild(st.branches, t.branchIndex, child),
        maxLayers := Max(st.maxLayers, child.layer))
  }

  /** The branch '[' starts: one layer below the turtle's, hanging from the turtle's section,
      with one section at the turtle's position whose radius is the decreased, floored one. */
  function Sprout(c: Config, t: Turtle): (child: Branch)
    ensures child.parentIndex == t.branchIndex && child.sectionIndex == t.sectionIndex
    ensures child.layer == t.layerIndex + 1 && child.children == []
    ensures |child.sections| == 1 && child.sections[0].position == t.world.position
    ensures child.sections[0].radius >= c.minimumRadius
  {
    NewBranch().(sections := [Section(t.world.position, Floor(t.radius * c.branchRadiusDecrease, c.minimumRadius))],
                 layer := t.layerIndex + 1, parentIndex := t.branchIndex, sectionIndex := t.sectionIndex)
  }

  /** ']' with a saved turtle: restore it and pick the style from its branch. */
  function Pop(st: BuildState): BuildState
    requires |st.stack| > 0
  {
    var t := st.stack[|st.stack| - 1];
    st.(turtle := t, stack := st.stack[..|st.stack| - 1],
        style := if t.branchIndex == 0 then TrunkStyle else BranchStyle)
  }

  /** A rotation symbol: one unit draw u, then a turn of (+/-)angle + angleVariance * u degrees. */
  function Turn(c: Config, st: BuildState, axis: Axis, negative: bool): BuildState
    requires ValidStream(c.stream)
  {
    var values := Values(c, st.style);
    var u := Unit(c.variant, c.stream(st.next));
    var degrees := Vary(if negative then -values.angle else values.angle, values.angleVariance, u);
    st.(turtle := st.turtle.(world := c.geometry.rotate(st.turtle.world, axis, DegToRad(degrees))),
        next := st.next + 1)
  }

  /** The four conditions under which 'L' adds a leaf. */
  predicate LeafAllowed(c: Config, t: Turtle)
  {
    c.treeHasLeaves && t.branchIndex != 0 && t.layerIndex >= AsInt32(c.leafLayer) && t.sectionIndex != 0
  }

  /** 'L': a leaf at the turtle, along the active branch's last segment. */
  function AddLeaf(c: Config, st: BuildState): BuildState
    requires TurtleFits(st.turtle, st.branches)
  {
    var t := st.turtle;
    if LeafAllowed(c, t) then
      var sections := st.branches[t.branchIndex].sections;
      var axis := sections[t.sectionIndex].position.Minus(sections[t.sectionIndex - 1].position);
      st.(leaves := st.leaves + [NewLeaf(t.world.position, c.geometry.normalized(axis), t.layerIndex, t.radius)])
    else st
  }

  /** The character at i, or the string terminator when i is the length. */
  function CharAt(s: string, i: nat): char
  {
    if i < |s| then s[i] else '\0'
  }

  /** The bracket scan of TryKillBranch / BranchIsAlive: from `index`, with `depth` brackets
      open, advance one character at a time until the depth returns to 0 or the string ends. */
  function ScanClose(rule: string, index: nat, depth: int): (r: nat)
    requires index <= |rule|
    ensures index <= r <= |rule|
    decreases |rule| - index
  {
    if index >= |rule| then index
    else
      var i := index + 1;
      var d := depth + (if CharAt(rule, i) == '[' then 1 else 0) - (if CharAt(rule, i) == ']' then 1 else 0);
      if d == 0 then i else ScanClose(rule, i, d)
  }

  /** One symbol at position j: the new state and the position the loop continues after. */
  function Step(c: Config, rule: string, st: BuildState, j: nat): (r: (BuildState, nat))
    requires ValidStream(c.stream) && j < |rule| && TurtleFits(st.turtle, st.branches)
    ensures j <= r.1 <= |rule|
  {
    match rule[j]
    case 'F' => (DrawForward(c, st), j)
    case 'G' => (MoveForward(c, st), j)
    case '[' =>
      var p := Percent(c.variant, c.stream(st.next));
      var st1 := st.(next := st.next + 1);
      if Kills(c.variant, p, c.branchDeathProbability) then (st1, ScanClose(rule, j, 1))
      else (Grow(c, st1), j)
    case ']' => (if |st.stack| > 0 then Pop(st) else st, j)
    case '+' => (Turn(c, st, YAxis, false), j)
    case '-' => (Turn(c, st, YAxis, true), j)
    case '>' => (Turn(c, st, XAxis, false), j)
    case '<' => (Turn(c, st, XAxis, true), j)
    case '^' => (Turn(c, st, ZAxis, false), j)
    case 'v' => (Turn(c, st, ZAxis, true), j)
    case 'L' => (AddLeaf(c, st), j)
    case _ => (st, j)
  }

  /** The result of the build: the final state, and whether it ran to the end. */
  datatype Outcome = Outcome(st: BuildState, ok: bool)

  /** The interpreter from position j on: each symbol is followed by a cancellation poll,
      and a cancellation ends the build as a failure. A turtle that does not fit its branch
      stops the walk; TurtleWalk.RunKeepsWF shows that this never happens from a well-formed
      state, so the guard only makes Run total. */
  ghost function Run(c: Config, rule: string, st: BuildState, j: nat): Outcome
    requires ValidStream(c.stream)
    decreases |rule| + 1 - j, 1
  {
    if j >= |rule| then Outcome(st, true)
    else if !TurtleFits(st.turtle, st.branches) then Outcome(st, false)
    else Resume(c, rule, st, j)
  }

  /** The symbol at j, then the poll after it: the walk either stops as cancelled or runs on
      from the position after the one the symbol left. */
  ghost function Resume(c: Config, rule: string, st: BuildState, j: nat): Outcome
    requires ValidStream(c.stream) && j < |rule| && TurtleFits(st.turtle, st.branches)
    decreases |rule| + 1 - j, 0
  {
    var r := Step(c, rule, st, j);
    var st2 := r.0.(polls := r.0.polls + 1);
    if c.cancel(r.0.polls) then Outcome(st2, false) else Run(c, rule, st2, r.1 + 1)
  }

  /** BuildTheTree on a generator whose branch and leaf collections are still empty. */
  ghost function Build(c: Config, rule: string, maxLayers: int, next: nat, polls: nat): Outcome
    requires ValidStream(c.stream)
  {
    Run(c, rule, Start(c, maxLayers, next, polls), 0)
  }

  /** A step and its poll keep the skeleton well formed. */
  lemma StepPollKeepsWF(c: Config, rule: string, st: BuildState, j: nat)
    requires ValidStream(c.stream) && WF(c, st) && j < |rule|
    ensures WF(c, Step(c, rule, st, j).0.(polls := Step(c, rule, st, j).0.polls + 1))
  {
    StepKeepsWF(c, rule, st, j);
    PollKeepsWF(c, Step(c, rule, st, j).0, Step(c, rule, st, j).0.polls + 1);
  }

  // ----- The invariant holds -----

  lemma StartWF(c: Config, maxLayers: int, next: nat, polls: nat)
    requires maxLayers >= 0
    ensures WF(c, Start(c, maxLayers, next, polls))
  { }

  /** The branches after appending a section to branch bi. */
  function WithSection(bs: seq<Branch>, bi: nat, sec: Section): (bs': seq<Branch>)
    requires bi < |bs|
    ensures |bs'| == |bs|
  {
    bs[bi := bs[bi].(sections := bs[bi].sections + [sec])]
  }

  lemma SectionKeepsParentLinks(bs: seq<Branch>, bi: nat, sec: Section)
    requires bi < |bs| && ParentLinks(bs)
    ensures ParentLinks(WithSection(bs, bi, sec))
  {
    var bs' := WithSection(bs, bi, sec);
    forall b | 0 <= b < |bs|
      ensures bs'[b].parentIndex == bs[b].parentIndex && bs'[b].layer == bs[b].layer
      ensures bs'[b].sectionIndex == bs[b].sectionIndex && |bs[b].sections| <= |bs'[b].sections|
    { }
  }

  lemma SectionKeepsChildLinks(bs: seq<Branch>, bi: nat, sec: Section)
    requires bi < |bs| && ChildLinks(bs)
    ensures ChildLinks(WithSection(bs, bi, sec))
  {
    var bs' := WithSection(bs, bi, sec);
    assert forall b :: 0 <= b < |bs| ==> bs'[b].parentIndex == bs[b].parentIndex && bs'[b].children == bs[b].children;
  }

  lemma SectionKeepsRadii(bs: seq<Branch>, bi: nat, sec: Section, minimum: real)
    requires bi < |bs| && RadiiFloored(bs, minimum) && sec.radius >= minimum
    ensures RadiiFloored(WithSection(bs, bi, sec), minimum)
  {
    var bs' := WithSection(bs, bi, sec);
    forall b, k | 0 <= b < |bs'| && 0 <= k < |bs'[b].sections| && (b != 0 || k != 0)
      ensures bs'[b].sections[k].radius >= minimum
    {
      if b == bi && k == |bs[b].sections| {
        assert bs'[b].sections[k] == sec;
      } else {
        assert bs'[b].sections[k] == bs[b].sections[k];
      }
    }
  }

  lemma SectionKeepsTrunkAndLayers(bs: seq<Branch>, bi: nat, sec: Section, initialRadius: real, maxLayers: int)
    requires bi < |bs| && TrunkRoot(bs, initialRadius) && LayersBounded(bs, maxLayers)
    ensures TrunkRoot(WithSection(bs, bi, sec), initialRadius)
    ensures LayersBounded(WithSection(bs, bi, sec), maxLayers)
  {
    var bs' := WithSection(bs, bi, sec);
    assert bs'[0].sections[0] == bs[0].sections[0];
    assert forall b :: 0 <= b < |bs| ==> bs'[b].layer == bs[b].layer;
  }

  lemma SectionKeepsStack(stack: seq<Turtle>, t: Turtle, t': Turtle, bs: seq<Branch>, sec: Section)
    requires TurtleFits(t, bs) && StackFits(stack, t, bs) && t'.branchIndex == t.branchIndex
    ensures StackFits(stack, t', WithSection(bs, t.branchIndex, sec))
  {
    var bs' := WithSection(bs, t.branchIndex, sec);
    forall i | 0 <= i < |stack| ensures TurtleFits(stack[i], bs') {
      assert bs'[stack[i].branchIndex] == bs[stack[i].branchIndex];
    }
  }

  lemma DrawForwardKeepsWF(c: Config, st: BuildState)
    requires ValidStream(c.stream) && WF(c, st)
    ensures WF(c, DrawForward(c, st))
  {
    var st' := DrawForward(c, st);
    var t := st.turtle;
    var sec := Section(Moved(c, st).position, st'.turtle.radius);
    assert st'.branches == WithSection(st.branches, t.branchIndex, sec);
    SectionKeepsParentLinks(st.branches, t.branchIndex, sec);
    SectionKeepsChildLinks(st.branches, t.branchIndex, sec);
    SectionKeepsRadii(st.branches, t.branchIndex, sec, c.minimumRadius);
    SectionKeepsTrunkAndLayers(st.branches, t.branchIndex, sec, c.initialRadius, st.maxLayers);
    SectionKeepsStack(st.stack, t, st'.turtle, st.branches, sec);
    assert TurtleFits(st'.turtle, st'.branches);
  }

  lemma MoveForwardKeepsWF(c: Config, st: BuildState)
    requires ValidStream(c.stream) && WF(c, st)
    ensures WF(c, MoveForward(c, st))
  { }

  lemma TurnKeepsWF(c: Config, st: BuildState, axis: Axis, negative: bool)
    requires ValidStream(c.stream) && WF(c, st)
    ensures WF(c, Turn(c, st, axis, negative))
  { }

  lemma AddLeafKeepsWF(c: Config, st: BuildState)
    requires WF(c, st)
    ensures WF(c, AddLeaf(c, st))
  {
    var t := st.turtle;
    if LeafAllowed(c, t) {
      assert st.branches[t.branchIndex].sections[t.sectionIndex].radius >= c.minimumRadius;
    }
  }

  lemma PopKeepsWF(c: Config, st: BuildState)
    requires WF(c, st) && |st.stack| > 0
    ensures WF(c, Pop(st))
  {
    var n := |st.stack|;
    assert TurtleFits(st.stack[n - 1], st.branches);
  }

  /** The branches after BuildNewBranch appends `child` as the next branch under parent p. */
  function WithChild(bs: seq<Branch>, p: nat, child: Branch): (bs': seq<Branch>)
    requires p < |bs|
    ensures |bs'| == |bs| + 1
  {
    bs[p := bs[p].(children := bs[p].children + [|bs|])] + [child]
  }

  /** WithChild leaves every existing branch as it was except for p's child list. */
  lemma WithChildFrame(bs: seq<Branch>, p: nat, child: Branch)
    requires p < |bs|
    ensures var bs' := WithChild(bs, p, child);
            && bs'[|bs|] == child
            && bs'[p].children == bs[p].children + [|bs|]
            && (forall b :: 0 <= b < |bs| && b != p ==> bs'[b] == bs[b])
            && (forall b :: 0 <= b < |bs| ==> bs'[b] == bs[b].(children := bs'[b].children))
  { }

  lemma ChildKeepsParentLinks(bs: seq<Branch>, p: nat, child: Branch)
    requires p < |bs| && ParentLinks(bs)
    requires child.parentIndex == p && child.layer == bs[p].layer + 1
    requires 0 <= child.sectionIndex < |bs[p].sections| && |child.sections| >= 1
    ensures ParentLinks(WithChild(bs, p, child))
  {
    WithChildFrame(bs, p, child);
  }

  lemma ChildKeepsChildLinks(bs: seq<Branch>, p: nat, child: Branch)
    requires p < |bs| && ParentLinks(bs) && ChildLinks(bs)
    requires child.parentIndex == p && child.children == []
    ensures ChildLinks(WithChild(bs, p, child))
  {
    ChildKeepsPointBack(bs, p, child);
    ChildKeepsAscending(bs, p, child);
    ChildKeepsListed(bs, p, child);
  }

  lemma ChildKeepsPointBack(bs: seq<Branch>, p: nat, child: Branch)
    requires p < |bs| && ChildrenPointBack(bs)
    requires child.parentIndex == p && child.children == []
    ensures ChildrenPointBack(WithChild(bs, p, child))
  {
    var bs' := WithChild(bs, p, child);
    WithChildFrame(bs, p, child);
    forall q, i | 0 <= q < |bs'| && 0 <= i < |bs'[q].children|
      ensures 0 < bs'[q].children[i] < |bs'| && bs'[bs'[q].children[i]].parentIndex == q
    {
      if q == p && i == |bs[p].children| {
        assert bs'[q].children[i] == |bs|;
      } else {
        assert bs'[q].children[i] == bs[q].children[i];
      }
    }
  }

  lemma ChildKeepsAscending(bs: seq<Branch>, p: nat, child: Branch)
    requires p < |bs| && ChildrenPointBack(bs) && ChildrenAscending(bs) && child.children == []
    ensures ChildrenAscending(WithChild(bs, p, child))
  {
    var bs' := WithChild(bs, p, child);
    WithChildFrame(bs, p, child);
    forall q, i, m | 0 <= q < |bs'| && 0 <= i < m < |bs'[q].children|
      ensures bs'[q].children[i] < bs'[q].children[m]
    {
      if q == p && m == |bs[p].children| {
        assert bs'[q].children[i] == bs[q].children[i];
      }
    }
  }

  lemma ChildKeepsListed(bs: seq<Branch>, p: nat, child: Branch)
    requires p < |bs| && ParentLinks(bs) && ChildrenListed(bs) && child.parentIndex == p
    ensures ChildrenListed(WithChild(bs, p, child))
  {
    var bs' := WithChild(bs, p, child);
    var k := |bs|;
    WithChildFrame(bs, p, child);
    forall b | 1 <= b < |bs'| && 0 <= bs'[b].parentIndex < |bs'|
      ensures b in bs'[bs'[b].parentIndex].children
    {
      if b < k {
        var q := bs[b].parentIndex;
        assert b in bs[q].children;
        assert bs[q].children <= bs'[q].children;
      } else {
        assert bs'[p].children[|bs[p].children|] == k;
      }
    }
  }

  lemma ChildKeepsRadii(bs: seq<Branch>, p: nat, child: Branch, minimum: real)
    requires p < |bs| && RadiiFloored(bs, minimum)
    requires forall m :: 0 <= m < |child.sections| ==> child.sections[m].radius >= minimum
    ensures RadiiFloored(WithChild(bs, p, child), minimum)
  {
    WithChildFrame(bs, p, child);
  }

  lemma ChildKeepsTrunkAndLayers(bs: seq<Branch>, p: nat, child: Branch, initialRadius: real, maxLayers: int)
    requires p < |bs| && TrunkRoot(bs, initialRadius) && LayersBounded(bs, maxLayers)
    requires 1 <= child.layer
    ensures TrunkRoot(WithChild(bs, p, child), initialRadius)
    ensures LayersBounded(WithChild(bs, p, child), Max(maxLayers, child.layer))
  {
    WithChildFrame(bs, p, child);
  }

  lemma ChildKeepsStack(stack: seq<Turtle>, t: Turtle, t': Turtle, bs: seq<Branch>, child: Branch)
    requires TurtleFits(t, bs) && StackFits(stack, t, bs) && t.branchEnded
    requires t'.branchIndex == |bs|
    ensures StackFits(stack + [t], t', WithChild(bs, t.branchIndex, child))
  {
    var bs' := WithChild(bs, t.branchIndex, child);
    var stack' := stack + [t];
    WithChildFrame(bs, t.branchIndex, child);
    forall i | 0 <= i < |stack'| ensures TurtleFits(stack'[i], bs') && stack'[i].branchEnded {
      var u := stack'[i];
      assert TurtleFits(u, bs);
      assert bs'[u.branchIndex].sections == bs[u.branchIndex].sections;
    }
  }

  /** The new active turtle fits the new branch, and the style rule still holds. */
  lemma GrowTurtleFits(c: Config, st: BuildState)
    requires TurtleFits(st.turtle, st.branches)
    ensures TurtleFits(Grow(c, st).turtle, Grow(c, st).branches)
  {
    WithChildFrame(st.branches, st.turtle.branchIndex, Sprout(c, st.turtle));
  }

  lemma GrowStyleAndLeaves(c: Config, st: BuildState)
    requires WF(c, st)
    ensures StyleFits(c.variant, Grow(c, st).style, Grow(c, st).turtle)
    ensures LeavesFit(c, Grow(c, st).leaves, Grow(c, st).maxLayers)
  {
    WithChildFrame(st.branches, st.turtle.branchIndex, Sprout(c, st.turtle));
  }

  lemma GrowKeepsWF(c: Config, st: BuildState)
    requires WF(c, st)
    ensures WF(c, Grow(c, st))
  {
    var t := st.turtle;
    var p := t.branchIndex;
    var child := Sprout(c, t);
    ChildKeepsParentLinks(st.branches, p, child);
    ChildKeepsChildLinks(st.branches, p, child);
    ChildKeepsRadii(st.branches, p, child, c.minimumRadius);
    ChildKeepsTrunkAndLayers(st.branches, p, child, c.initialRadius, st.maxLayers);
    ChildKeepsStack(st.stack, t.(branchEnded := true), Grow(c, st).turtle, st.branches, child);
    GrowTurtleFits(c, st);
    GrowStyleAndLeaves(c, st);
  }

  /** WF is a property of the state, whatever expression denotes it. */
  lemma SameState(c: Config, a: BuildState, b: BuildState)
    requires WF(c, a) && a == b
    ensures WF(c, b)
  { }

  /** WF says nothing about the draw and poll counters. */
  lemma PollKeepsWF(c: Config, st: BuildState, polls: nat)
    requires WF(c, st)
    ensures WF(c, st.(polls := polls))
  {
    var st' := st.(polls := polls);
    assert st'.branches == st.branches && st'.turtle == st.turtle && st'.stack == st.stack;
    assert st'.style == st.style && st'.leaves == st.leaves && st'.maxLayers == st.maxLayers;
  }

  lemma StepKeepsWF(c: Config, rule: string, st: BuildState, j: nat)
    requires ValidStream(c.stream) && j < |rule| && WF(c, st)
    ensures WF(c, Step(c, rule, st, j).0)
  {
    match rule[j]
    case 'F' => MoveStepKeepsWF(c, rule, st, j);
    case 'G' => MoveStepKeepsWF(c, rule, st, j);
    case '[' => BranchStepKeepsWF(c, rule, st, j);
    case ']' => CloseStepKeepsWF(c, rule, st, j);
    case 'L' => LeafStepKeepsWF(c, rule, st, j);
    case '+' => TurnStepKeepsWF(c, rule, st, j);
    case '-' => TurnStepKeepsWF(c, rule, st, j);
    case '>' => TurnStepKeepsWF(c, rule, st, j);
    case '<' => TurnStepKeepsWF(c, rule, st, j);
    case '^' => TurnStepKeepsWF(c, rule, st, j);
    case 'v' => TurnStepKeepsWF(c, rule, st, j);
    case _ => SameState(c, st, Step(c, rule, st, j).0);
  }

  lemma MoveStepKeepsWF(c: Config, rule: string, st: BuildState, j: nat)
    requires ValidStream(c.stream) && j < |rule| && WF(c, st) && (rule[j] == 'F' || rule[j] == 'G')
    ensures WF(c, Step(c, rule, st, j).0)
  {
    var r := Step(c, rule, st, j).0;
    if rule[j] == 'F' {
      DrawForwardKeepsWF(c, st); SameState(c, DrawForward(c, st), r);
    } else {
      MoveForwardKeepsWF(c, st); SameState(c, MoveForward(c, st), r);
    }
  }

  lemma CloseStepKeepsWF(c: Config, rule: string, st: BuildState, j: nat)
    requires ValidStream(c.stream) && j < |rule| && WF(c, st) && rule[j] == ']'
    ensures WF(c, Step(c, rule, st, j).0)
  {
    var r := StepAt(c, rule, st, j);
    if |st.stack| > 0 {
      PopKeepsWF(c, st); SameState(c, Pop(st), r);
    } else {
      SameState(c, st, r);
    }
  }

  lemma LeafStepKeepsWF(c: Config, rule: string, st: BuildState, j: nat)
    requires ValidStream(c.stream) && j < |rule| && WF(c, st) && rule[j] == 'L'
    ensures WF(c, Step(c, rule, st, j).0)
  {
    var r := StepAt(c, rule, st, j);
    AddLeafKeepsWF(c, st); SameState(c, AddLeaf(c, st), r);
  }

  /** The state after the symbol at j, named apart from the invariant so that unfolding Step
      stays cheap. */
  lemma StepAt(c: Config, rule: string, st: BuildState, j: nat) returns (r: BuildState)
    requires ValidStream(c.stream) && j < |rule| && TurtleFits(st.turtle, st.branches)
    ensures r == Step(c, rule, st, j).0
    ensures rule[j] == ']' ==> r == if |st.stack| > 0 then Pop(st) else st
    ensures rule[j] == 'L' ==> r == AddLeaf(c, st)
  {
    r := Step(c, rule, st, j).0;
  }

  lemma TurnStepKeepsWF(c: Config, rule: string, st: BuildState, j: nat)
    requires ValidStream(c.stream) && j < |rule| && WF(c, st)
    requires rule[j] == '+' || rule[j] == '-' || rule[j] == '>' || rule[j] == '<' || rule[j] == '^' || rule[j] == 'v'
    ensures WF(c, Step(c, rule, st, j).0)
  {
    var r := Step(c, rule, st, j).0;
    var axis := if rule[j] == '+' || rule[j] == '-' then YAxis
                else if rule[j] == '>' || rule[j] == '<' then XAxis else ZAxis;
    var negative := rule[j] == '-' || rule[j] == '<' || rule[j] == 'v';
    assert r == Turn(c, st, axis, negative);
    TurnKeepsWF(c, st, axis, negative);
    SameState(c, Turn(c, st, axis, negative), r);
  }

  lemma BranchStepKeepsWF(c: Config, rule: string, st: BuildState, j: nat)
    requires ValidStream(c.stream) && j < |rule| && WF(c, st) && rule[j] == '['
    ensures WF(c, Step(c, rule, st, j).0)
  {
    var r := Step(c, rule, st, j).0;
    var st1 := st.(next := st.next + 1);
    if Kills(c.variant, Percent(c.variant, c.stream(st.next)), c.branchDeathProbability) {
      SameState(c, st1, r);
    } else {
      GrowKeepsWF(c, st1);
      SameState(c, Grow(c, st1), r);
    }
  }

  /** G, the six rotations and characters with no meaning move or turn the turtle at most:
      they never add branches, sections or leaves, and never touch the stack. */
  lemma PassiveEffect(c: Config, rule: string, st: BuildState, j: nat)
    requires ValidStream(c.stream) && j < |rule| && TurtleFits(st.turtle, st.branches)
    requires rule[j] !in "F[]L"
    ensures var (st', j') := Step(c, rule, st, j);
            && j' == j && st'.branches == st.branches && st'.leaves == st.leaves && st'.stack == st.stack
            && st'.turtle.branchIndex == st.turtle.branchIndex
            && st'.turtle.sectionIndex == st.turtle.sectionIndex
            && st'.turtle.radius == st.turtle.radius
            && st'.style == st.style && st'.maxLayers == st.maxLayers
  {
    var ch := rule[j];
    if ch == 'G' {
    } else if ch == '+' || ch == '-' {
    } else if ch == '>' || ch == '<' {
    } else if ch == '^' || ch == 'v' {
    } else {
      assert Step(c, rule, st, j) == (st, j);
    }
  }

  /** A surviving '[' saves the turtle (marked as ended) and starts branch k, the old branch
      count: its parent is the previously active branch, which lists k as its newest child;
      it is one layer deeper, starts with one floored section where the turtle stands, and
      grew from the parent's current section; maxLayers covers its layer. */
  lemma BranchEffect(c: Config, rule: string, st: BuildState, j: nat)
    requires ValidStream(c.stream) && j < |rule| && TurtleFits(st.turtle, st.branches) && rule[j] == '['
    requires !Kills(c.variant, Percent(c.variant, c.stream(st.next)), c.branchDeathProbability)
    ensures var st' := Step(c, rule, st, j).0;
            var t := st.turtle;
            var k := |st.branches|;
            && Step(c, rule, st, j).1 == j && st'.next == st.next + 1
            && st'.stack == st.stack + [t.(branchEnded := true)]
            && |st'.branches| == k + 1
            && st'.turtle.branchIndex == k && st'.turtle.sectionIndex == 0
            && st'.branches[k].parentIndex == t.branchIndex
            && st'.branches[t.branchIndex].children == st.branches[t.branchIndex].children + [k]
            && st'.branches[k].layer == st.branches[t.branchIndex].layer + 1
            && st'.branches[k].layer <= st'.maxLayers
            && st'.branches[k].sectionIndex == t.sectionIndex
            && st'.branches[k].sections ==
                 [Section(t.world.position, Floor(t.radius * c.branchRadiusDecrease, c.minimumRadius))]
            && t.branchIndex < k
  {
    var st1 := st.(next := st.next + 1);
    assert Step(c, rule, st, j) == (Grow(c, st1), j);
    var child := Sprout(c, st.turtle);
    var st' := Grow(c, st1);
    assert st'.branches == WithChild(st.branches, st.turtle.branchIndex, child);
    WithChildFrame(st.branches, st.turtle.branchIndex, child);
    assert st'.branches[|st.branches|] == child;
    assert child.layer == st.turtle.layerIndex + 1 <= st'.maxLayers;
  }

  /** A killed '[' pushes nothing and adds nothing: only the draw is consumed, and the walk
      resumes after the bracket that closes it (or at the end of the string). */
  lemma KilledEffect(c: Config, rule: string, st: BuildState, j: nat)
    requires ValidStream(c.stream) && j < |rule| && TurtleFits(st.turtle, st.branches) && rule[j] == '['
    requires Kills(c.variant, Percent(c.variant, c.stream(st.next)), c.branchDeathProbability)
    ensures Step(c, rule, st, j) == (st.(next := st.next + 1), ScanClose(rule, j, 1))
  { }

  /** ']' restores the most recently saved turtle, or does nothing when none is saved. The
      active style afterwards is the trunk's exactly when the restored turtle is on the trunk. */
  lemma CloseEffect(c: Config, rule: string, st: BuildState, j: nat)
    requires ValidStream(c.stream) && j < |rule| && TurtleFits(st.turtle, st.branches) && rule[j] == ']'
    ensures |st.stack| == 0 ==> Step(c, rule, st, j) == (st, j)
    ensures |st.stack| > 0 ==>
              var st' := Step(c, rule, st, j).0;
              && st'.turtle == st.stack[|st.stack| - 1] && st'.stack == st.stack[..|st.stack| - 1]
              && (st'.style == TrunkStyle <==> st'.turtle.branchIndex == 0)
              && st'.branches == st.branches && st'.leaves == st.leaves
  { }

  /** 'L' adds exactly one leaf when leaves are on, the turtle is off the trunk, deep enough
      and past the first section of its branch, and otherwise nothing. The leaf records the
      turtle's position, layer and radius and the direction of the branch's last segment. */
  lemma LeafEffect(c: Config, rule: string, st: BuildState, j: nat)
    requires ValidStream(c.stream) && j < |rule| && TurtleFits(st.turtle, st.branches) && rule[j] == 'L'
    ensures var st' := Step(c, rule, st, j).0;
            var t := st.turtle;
            && st'.branches == st.branches && st'.turtle == st.turtle && st'.stack == st.stack
            && (|st'.leaves| == |st.leaves| + 1 <==> LeafAllowed(c, t))
            && (!LeafAllowed(c, t) ==> st'.leaves == st.leaves)
            && (LeafAllowed(c, t) ==>
                  var secs := st.branches[t.branchIndex].sections;
                  st'.leaves == st.leaves + [Leaf(t.layerIndex, t.world.position,
                    c.geometry.normalized(secs[t.sectionIndex].position.Minus(secs[t.sectionIndex - 1].position)),
                    t.radius)])
  { }

  /** In the current code the trunk style is active exactly while the turtle is on the trunk. */
  lemma CurrentStyleIffTrunk(c: Config, st: BuildState)
    requires WF(c, st) && c.variant == Current
    ensures st.style == TrunkStyle <==> st.turtle.branchIndex == 0
  { }

  /** In the 2012 code BuildNewBranch receives the style pointer by value, so starting a
      branch never changes the active style: a branch grown from the trunk keeps the trunk
      style until a ']' resets it. */
  lemma LegacyBranchKeepsStyle(c: Config, rule: string, st: BuildState, j: nat)
    requires ValidStream(c.stream) && j < |rule| && WF(c, st) && rule[j] == '[' && c.variant == Legacy
    ensures Step(c, rule, st, j).0.style == st.style
  { }

  /** Death probability 0 never kills and 100 spares a draw of 100; the two copies agree for
      probabilities below 2^31. */
  lemma KillsBounds(v: Variant, p: int, deathProbability: uint32)
    requires 0 <= p <= 100
    ensures deathProbability == 0 ==> !Kills(v, p, deathProbability)
    ensures deathProbability == 100 ==> (Kills(v, p, deathProbability) <==> p < 100)
    ensures deathProbability > 100 && deathProbability < 0x8000_0000 ==> Kills(v, p, deathProbability)
    ensures deathProbability < 0x8000_0000 ==> Kills(Current, p, deathProbability) == Kills(Legacy, p, deathProbability)
  { }

  // ----- The bracket scan -----

  function Delta(ch: char): int
  {
    if ch == '[' then 1 else if ch == ']' then -1 else 0
  }

  /** Opening minus closing brackets in s. */
  function Balance(s: string): int
    decreases |s|
  {
    if |s| == 0 then 0 else Balance(s[..|s| - 1]) + Delta(s[|s| - 1])
  }

  lemma BalanceStep(rule: string, a: nat, i: nat)
    requires a <= i < |rule|
    ensures Balance(rule[a..i + 1]) == Balance(rule[a..i]) + Delta(rule[i])
  {
    assert rule[a..i + 1][..i - a] == rule[a..i];
  }

  /** The bracket depth just after reading position i, counting the '[' at j. */
  function DepthAt(rule: string, j: nat, i: nat): int
    requires j < i < |rule|
  {
    1 + Balance(rule[j + 1..i + 1])
  }

  /** The scan stops at the first position after j where the bracket depth, counting the '['
      at j, returns to 0 (and that position holds a ']'), or at the end of the string when
      the depth never returns to 0. */
  lemma {:induction false} ScanCloseMatches(rule: string, j: nat, index: nat, depth: int)
    requires j <= index < |rule|
    requires depth == 1 + Balance(rule[j + 1..index + 1]) && depth > 0
    ensures var r := ScanClose(rule, index, depth);
            && (forall i :: index < i < r ==> DepthAt(rule, j, i) > 0)
            && (r < |rule| ==> rule[r] == ']' && DepthAt(rule, j, r) == 0)
    decreases |rule| - index
  {
    var i := index + 1;
    if i < |rule| {
      BalanceStep(rule, j + 1, i);
      var d := depth + Delta(rule[i]);
      assert d == 1 + Balance(rule[j + 1..i + 1]);
      if d != 0 {
        ScanCloseMatches(rule, j, i, d);
      }
    }
  }

  /** From a '[' at j, the scan lands on its matching ']' or on the end of the string. */
  lemma KilledBranchEnd(rule: string, j: nat)
    requires j < |rule|
    ensures var r := ScanClose(rule, j, 1);
            && j < r <= |rule|
            && (forall i :: j < i < r ==> DepthAt(rule, j, i) > 0)
            && (r < |rule| ==> rule[r] == ']' && DepthAt(rule, j, r) == 0)
  {
    assert rule[j + 1..j + 1] == [];
    ScanCloseMatches(rule, j, j, 1);
  }

  // ----- The collections only grow -----

  /** bs' keeps every branch of bs with the same links and layer, its sections and children
      only extended, and possibly adds branches after them. */
  ghost predicate Extends(bs: seq<Branch>, bs': seq<Branch>)
  {
    |bs| <= |bs'| &&
    forall b :: 0 <= b < |bs| ==>
      && bs'[b].parentIndex == bs[b].parentIndex && bs'[b].layer == bs[b].layer
      && bs'[b].sectionIndex == bs[b].sectionIndex
      && bs[b].sections <= bs'[b].sections && bs[b].children <= bs'[b].children
  }

  lemma ExtendsBySection(bs: seq<Branch>, bi: nat, sec: Section)
    requires bi < |bs|
    ensures Extends(bs, WithSection(bs, bi, sec))
  { }

  lemma ExtendsByChild(bs: seq<Branch>, p: nat, child: Branch)
    requires p < |bs|
    ensures Extends(bs, WithChild(bs, p, child))
  {
    WithChildFrame(bs, p, child);
  }

  lemma StepExtends(c: Config, rule: string, st: BuildState, j: nat)
    requires ValidStream(c.stream) && j < |rule| && TurtleFits(st.turtle, st.branches)
    ensures Extends(st.branches, Step(c, rule, st, j).0.branches)
    ensures st.leaves <= Step(c, rule, st, j).0.leaves
  {
    var st' := Step(c, rule, st, j).0;
    var bi := st.turtle.branchIndex;
    match rule[j]
    case 'F' =>
      var sec := Section(Moved(c, st).position, st'.turtle.radius);
      assert st'.branches == WithSection(st.branches, bi, sec);
      ExtendsBySection(st.branches, bi, sec);
    case '[' =>
      var st1 := st.(next := st.next + 1);
      if Kills(c.variant, Percent(c.variant, c.stream(st.next)), c.branchDeathProbability) {
        assert st'.branches == st.branches;
      } else {
        var child := Sprout(c, st1.turtle);
        assert st'.branches == WithChild(st.branches, bi, child);
        ExtendsByChild(st.branches, bi, child);
      }
    case 'L' =>
      assert st'.branches == st.branches;
    case ']' =>
      assert st'.branches == st.branches && st'.leaves == st.leaves;
    case _ =>
      assert st'.branches == st.branches && st'.leaves == st.leaves;
  }

  lemma ExtendsReflexive(bs: seq<Branch>)
    ensures Extends(bs, bs)
  { }

  lemma ExtendsTransitive(a: seq<Branch>, b: seq<Branch>, c: seq<Branch>)
    requires Extends(a, b) && Extends(b, c)
    ensures Extends(a, c)
  {
    forall x | 0 <= x < |a|
      ensures a[x].sections <= c[x].sections && a[x].children <= c[x].children
    {
      assert a[x].sections <= b[x].sections <= c[x].sections;
      assert a[x].children <= b[x].children <= c[x].children;
    }
  }
}
