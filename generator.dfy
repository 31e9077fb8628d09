/** The TreeGenerator command object (src/treeGenerator.h, src/treeGenerator.cpp): the rule
    table, the configuration records and the branch, leaf and layer collections its methods
    fill in place. Each method is proved against the pure model of the stage it runs
    (Grammar.Expand, Skeleton.Run, Mesh.MeshOf, Leaves.Template and Leaves.DrawLeaf). */
module Generator {
  import opened TreeComponents
  import opened TreeHelpers
  import opened Randomness
  import opened Grammar
  import opened Skeleton
  import opened TurtleWalk
  import opened Mesh
  import opened Leaves
  import opened PluginSession
  import opened TreeOutput
  import opened FlagArguments

  /** The rule table held as three parallel arrays, read as one sequence of rules. */
  function TableOf(ids: seq<string>, replacements: seq<string>, chances: seq<uint32>): (t: seq<Rule>)
    requires |ids| == |replacements| == |chances|
    ensures |t| == |ids|
    ensures forall i :: 0 <= i < |t| ==> t[i] == Rule(ids[i], replacements[i], chances[i])
  {
    seq(|ids|, i requires 0 <= i < |ids| => Rule(ids[i], replacements[i], chances[i]))
  }

  /** What the second half of doIt leaves behind: the rule string, how far it got (rule
      expanded, tree walked, tree meshed), the branch and leaf collections, the deepest layer,
      what was handed to Maya, and the draw and poll positions. */
  datatype Growth = Growth(rule: string, expanded: bool, walked: bool, ok: bool,
                           branches: seq<Branch>, leaves: seq<Leaf>, maxLayers: int,
                           created: seq<Created>, next: nat, polls: nat)

  /** The end of doIt over a rule string, given the turtle walk's outcome b: nothing more
      when the walk was cancelled; otherwise MeshTheTree's one tree group per layer
      (maxLayers + 1 groups), whose poll is ignored, followed by the meshing. A walk never
      ends with a negative maxLayers (MeshedLayersInRange); that case is grouped with the
      cancelled walk only so that the group count is a natural number. */
  ghost function Meshed(rule: string, b: Outcome, md: MeshData, hasLeaves: bool, bleed: real,
                        circle: (nat, nat) -> Float3, draw: Drawer, cancel: CancelOracle): Growth
  {
    if !b.ok || b.st.maxLayers < 0 then
      Growth(rule, true, false, false, b.st.branches, b.st.leaves, b.st.maxLayers, [], b.st.next, b.st.polls)
    else
      var m := Meshing(b.st.branches, b.st.leaves, b.st.maxLayers + 1, md.(maxLayers := b.st.maxLayers + 1),
                       hasLeaves, bleed, circle, draw, b.st.next, cancel, b.st.polls + 1);
      Growth(rule, true, true, m.ok, b.st.branches, b.st.leaves, b.st.maxLayers + 1, m.created, m.next, m.polls)
  }

  /** The second half of doIt: the start rule expanded; when that completes, the prerule and
      postrule put round the expansion, the walk Build over the result, and Meshed. A cancelled expansion walks
      and meshes nothing. */
  ghost function Grown(v: Variant, table: seq<Rule>, iterations: nat, pieces: RulePieces, c: Config,
                      md: MeshData, hasLeaves: bool, bleed: real, circle: (nat, nat) -> Float3,
                      draw: Drawer, next: nat, polls: nat): Growth
    requires ValidStream(c.stream) && md.maxLayers >= 0
  {
    var e := Expand(v, table, pieces.start, iterations, c.stream, next, c.cancel, polls);
    if !e.ok then Growth(e.rule, false, false, false, [], [], md.maxLayers, [], e.next, e.polls)
    else
      var rule := CommandString(pieces.prerule, e.rule, pieces.postrule);
      Meshed(rule, Build(c, rule, md.maxLayers, e.next, e.polls), md, hasLeaves, bleed, circle, draw, c.cancel)
  }

  /** Over a completed walk, Meshed has walked and numbers maxLayers + 1 layer groups: every
      branch lies in one of them and every leaf in one past the trunk's. Only a meshing that
      follows a completed walk can succeed; a cancelled walk hands nothing to Maya. */
  lemma MeshedLayersInRange(c: Config, rule: string, maxLayers: int, next: nat, polls: nat, md: MeshData,
                            hasLeaves: bool, bleed: real, circle: (nat, nat) -> Float3, draw: Drawer,
                            cancel: CancelOracle)
    requires ValidStream(c.stream) && maxLayers >= 0
    ensures var b := Build(c, rule, maxLayers, next, polls);
            var g := Meshed(rule, b, md, hasLeaves, bleed, circle, draw, cancel);
            && g.rule == rule && g.expanded && (g.walked <==> b.ok) && (g.ok ==> g.walked)
            && (!g.walked ==> g.created == [])
            && (g.walked ==>
                  && g.maxLayers >= 1
                  && (forall k :: 0 <= k < |g.branches| ==> 0 <= g.branches[k].layer < g.maxLayers)
                  && (forall i :: 0 <= i < |g.leaves| ==> 1 <= g.leaves[i].layer < g.maxLayers))
  {
    BuiltLayersInRange(c, rule, maxLayers, next, polls);
  }

  /** The shape of Grown: the rule is the expansion when that was cancelled, and otherwise the
      prerule, the expansion and the postrule in that order; a cancelled expansion walks, meshes
      and creates nothing; success needs both the expansion and the walk; and a walked tree's
      branches and leaves lie within its layer groups. */
  lemma GrownShape(v: Variant, table: seq<Rule>, iterations: nat, pieces: RulePieces, c: Config,
                   md: MeshData, hasLeaves: bool, bleed: real, circle: (nat, nat) -> Float3,
                   draw: Drawer, next: nat, polls: nat)
    requires ValidStream(c.stream) && md.maxLayers >= 0
    ensures var e := Expand(v, table, pieces.start, iterations, c.stream, next, c.cancel, polls);
            var g := Grown(v, table, iterations, pieces, c, md, hasLeaves, bleed, circle, draw, next, polls);
            && g.expanded == e.ok
            && (g.expanded ==>
                  && |g.rule| == |pieces.prerule| + |e.rule| + |pieces.postrule|
                  && g.rule[..|pieces.prerule|] == pieces.prerule
                  && g.rule[|pieces.prerule|..|pieces.prerule| + |e.rule|] == e.rule
                  && g.rule[|g.rule| - |pieces.postrule|..] == pieces.postrule)
            && (!g.expanded ==> g.rule == e.rule && !g.walked && g.branches == [] && g.leaves == [] && g.created == [])
            && (g.ok ==> g.walked) && (g.walked ==> g.expanded)
            && (g.walked ==>
                  && g.maxLayers >= 1
                  && (forall k :: 0 <= k < |g.branches| ==> 0 <= g.branches[k].layer < g.maxLayers)
                  && (forall i :: 0 <= i < |g.leaves| ==> 1 <= g.leaves[i].layer < g.maxLayers))
  {
    var e := Expand(v, table, pieces.start, iterations, c.stream, next, c.cancel, polls);
    if e.ok {
      var rule := CommandString(pieces.prerule, e.rule, pieces.postrule);
      MeshedLayersInRange(c, rule, md.maxLayers, e.next, e.polls, md, hasLeaves, bleed, circle, draw, c.cancel);
    }
  }

  class TreeGenerator {
    /** Which copy of the command is modelled: the current one or the 2012 one. */
    const variant: Variant
    /** The state shared with every other command of the Maya session. */
    const session: Session
    /** The floating-point geometry of the turtle. */
    const geometry: Geometry
    /** The point at i/n of a turn round the unit circle (cos and sin are not modelled). */
    const circle: (nat, nat) -> Float3

    /** The rule table: RuleNumber IDs, replacement strings and chances in percent. */
    const ruleIDs: array<string>
    const ruleStrings: array<string>
    const ruleChances: array<uint32>

    var progressIncrease: uint32
    var progressStep: uint32
    /** How many rewriting passes CreateRuleString makes. */
    var iterations: uint32
    var meshdata: MeshData
    var leafdata: LeafData
    var treedata: TreeData
    var fxdata: ShadingData
    /** The number in the tree group's name, tf_tree_<n>. */
    var treeId: int

    /** One entry per layer group; the trunk's layer is 0. */
    var layers: seq<Layer>
    /** All branches, the trunk first. */
    var branches: seq<Branch>
    /** All leaves, apart from the branches. */
    var leaves: seq<Leaf>

    /** The arrays every leaf mesh shares: vertex count, faces, UVs and UV faces. */
    var leafVertexCount: nat
    var leafFaces: seq<seq<int>>
    var leafU: seq<real>
    var leafV: seq<real>
    var leafUVFaces: seq<seq<int>>

    /** The meshes, curves and leaf meshes handed to Maya so far, in creation order. */
    var created: seq<Created>
    /** Whether DeleteNodes has removed the tree group, with everything under it, and the
        shaders. */
    var deleted: bool

    ghost predicate Valid()
    {
      && ruleIDs.Length == RuleNumber && ruleStrings.Length == RuleNumber
      && ruleChances.Length == RuleNumber && ruleIDs != ruleStrings
      && session.Valid()
    }

    /** The rule table as CreateRuleString reads it. */
    function Table(): (t: seq<Rule>)
      reads ruleIDs, ruleStrings, ruleChances
      requires ruleIDs.Length == ruleStrings.Length == ruleChances.Length
      ensures |t| == ruleIDs.Length
    {
      TableOf(ruleIDs[..], ruleStrings[..], ruleChances[..])
    }

    /** What the turtle walk reads from this object and from the session, given the trunk and
        branch styles doIt passes to BuildTheTree. */
    function Cfg(branch: BranchData, trunk: BranchData): Config
      reads this`treedata, this`leafdata, session`seed
    {
      Config(variant, trunk, branch,
             treedata.initialRadius, treedata.branchRadiusDecrease, treedata.minimumRadius,
             treedata.branchDeathProbability, leafdata.treeHasLeaves, leafdata.leafLayer,
             geometry, session.Draws(), session.cancel)
    }

    /** The defaults of the constructor and of the header's member initialisers; every rule
        slot starts empty with chance 0. */
    constructor(variant: Variant, session: Session, geometry: Geometry, circle: (nat, nat) -> Float3)
      requires session.Valid()
      ensures Valid() && fresh(ruleIDs) && fresh(ruleStrings) && fresh(ruleChances)
      ensures this.variant == variant && this.session == session
      ensures this.geometry == geometry && this.circle == circle
      ensures meshdata == NewMeshData(8, 8, 2, false, false, true, false)
      ensures leafdata == NewLeafData(true, 2.0, 4.0, 1.0, 1.0, 1.0, 2)
      ensures treedata == NewTreeData(2.0, 0.9, 0.001, 10)
      ensures fxdata == NewShadingData(0.732982, 0.495995, 0.388067, 0.083772, 0.0572824, 0.013138,
                                       true, true, true, 0.2, 0.01)
      ensures iterations == 4 && progressIncrease == 0 && progressStep == 0
      ensures layers == [] && branches == [] && leaves == [] && created == [] && !deleted
      ensures leafVertexCount == 0 && leafFaces == [] && leafU == [] && leafV == [] && leafUVFaces == []
      ensures forall i :: 0 <= i < RuleNumber ==> ruleIDs[i] == [] && ruleStrings[i] == [] && ruleChances[i] == 0
    {
      this.variant := variant;
      this.session := session;
      this.geometry := geometry;
      this.circle := circle;
      ruleIDs := new string[RuleNumber](_ => []);
      ruleStrings := new string[RuleNumber](_ => []);
      ruleChances := new uint32[RuleNumber](_ => 0);
      progressIncrease, progressStep, iterations := 0, 0, 4;
      meshdata := NewMeshData(8, 8, 2, false, false, true, false);
      leafdata := NewLeafData(true, 2.0, 4.0, 1.0, 1.0, 1.0, 2);
      treedata := NewTreeData(2.0, 0.9, 0.001, 10);
      fxdata := NewShadingData(0.732982, 0.495995, 0.388067, 0.083772, 0.0572824, 0.013138,
                               true, true, true, 0.2, 0.01);
      treeId := 0;
      layers, branches, leaves, created, deleted := [], [], [], [], false;
      leafVertexCount, leafFaces, leafU, leafV, leafUVFaces := 0, [], [], [], [];
    }

    // ----- The rule string -----

    /** CreateRuleString: `iterations` rewriting passes over treedata.rule, each followed by a
        cancellation poll. The engine's position and the poll count are carried through the
        passes and stored back when they end. */
    method CreateRuleString() returns (ok: bool)
      requires ruleIDs.Length == ruleStrings.Length == ruleChances.Length == RuleNumber && ValidStream(session.Draws())
      modifies this`treedata, session`next, session`polls
      ensures ok == old(Expand(variant, Table(), treedata.rule, iterations, session.Draws(),
                               session.next, session.cancel, session.polls)).ok
      ensures treedata == old(treedata.(rule := Expand(variant, Table(), treedata.rule, iterations, session.Draws(),
                                                       session.next, session.cancel, session.polls).rule))
      ensures session.next == old(Expand(variant, Table(), treedata.rule, iterations, session.Draws(),
                                         session.next, session.cancel, session.polls)).next
      ensures session.polls == old(Expand(variant, Table(), treedata.rule, iterations, session.Draws(),
                                          session.next, session.cancel, session.polls)).polls
    {
      var e := RewritePasses(treedata.rule, Table(), session.Draws(), session.next, session.cancel, session.polls);
      treedata := treedata.(rule := e.rule);
      session.next, session.polls := e.next, e.polls;
      return e.ok;
    }

    /** CreateRuleString's outer loop: up to `iterations` passes, stopping after the pass
        whose poll finds the cancel button pressed. */
    method RewritePasses(start: string, ghost table: seq<Rule>, s: Stream, next: nat,
                         cancel: CancelOracle, polls: nat) returns (e: Expansion)
      requires ruleIDs.Length == ruleStrings.Length == ruleChances.Length == RuleNumber
      requires table == Table() && ValidStream(s)
      ensures e == Expand(variant, table, start, iterations, s, next, cancel, polls)
    {
      ghost var goal := Expand(variant, table, start, iterations, s, next, cancel, polls);
      var rule, n, p := start, next, polls;
      var left: nat := iterations;
      while left > 0
        invariant Expand(variant, table, rule, left, s, n, cancel, p) == goal
      {
        ghost var w, n0 := rule, n;
        rule, n := RewritePass(rule, table, s, n);
        ExpandAfterPass(variant, table, w, left, s, n0, cancel, p, rule, n);
        var cancelled := cancel(p);
        p := p + 1;
        if cancelled {
          return Expansion(rule, n, p, false);
        }
        left := left - 1;
      }
      ExpandZero(variant, table, rule, s, n, cancel, p);
      return Expansion(rule, n, p, true);
    }

    /** One pass of CreateRuleString's middle loop: every character of `rule` rewritten in
        turn, the draws taken in order from position `next`. */
    method RewritePass(rule: string, ghost table: seq<Rule>, s: Stream, next: nat)
      returns (temprule: string, next': nat)
      requires ruleIDs.Length == ruleStrings.Length == ruleChances.Length == RuleNumber
      requires table == Table() && ValidStream(s)
      ensures Piece(temprule, next') == Pass(variant, table, rule, s, next)
    {
      temprule, next' := [], next;
      var j := 0;
      ghost var goal := Pass(variant, table, rule, s, next);
      while j < |rule|
        invariant j <= |rule|
        invariant goal ==
                  Piece(temprule + Pass(variant, table, rule[j..], s, next').text,
                        Pass(variant, table, rule[j..], s, next').next)
      {
        ghost var h := RewriteChar(variant, table, rule[j], s, next');
        ghost var t := Pass(variant, table, rule[j + 1..], s, h.next);
        PassUnfold(variant, table, rule, j, s, next');
        var piece;
        piece, next' := RewriteOne(rule[j], table, s, next');
        AppendInTwoSteps(temprule, piece, t.text);
        temprule := temprule + piece;
        j := j + 1;
      }
      assert rule[j..] == [];
    }

    /** The body of the middle loop for one character: the first slot whose trigger is the
        character decides; with no such slot the character is copied. A slot whose chance is
        neither 0 nor 100 takes one draw. */
    method RewriteOne(rulechar: char, ghost table: seq<Rule>, s: Stream, next: nat)
      returns (piece: string, next': nat)
      requires ruleIDs.Length == ruleStrings.Length == ruleChances.Length == RuleNumber
      requires table == Table() && ValidStream(s)
      ensures Piece(piece, next') == RewriteChar(variant, table, rulechar, s, next)
    {
      var ruleNum := 0;
      while ruleNum < RuleNumber && Trigger(ruleIDs[ruleNum]) != rulechar
        invariant ruleNum <= RuleNumber
        invariant forall k :: 0 <= k < ruleNum ==> Trigger(table[k].id) != rulechar
      {
        ruleNum := ruleNum + 1;
      }
      FirstMatchIs(table, rulechar, 0, ruleNum);
      piece, next' := [], next;
      if ruleNum == RuleNumber {
        piece := [rulechar];
      } else if ruleChances[ruleNum] == 100 {
        piece := ruleStrings[ruleNum];
      } else if ruleChances[ruleNum] != 0 {
        var d := s(next);
        next' := next + 1;
        if Fires(variant, Percent(variant, d), ruleChances[ruleNum]) {
          piece := ruleStrings[ruleNum];
        }
      }
    }

    // ----- The turtle walk -----

    /** BuildTheTree: the turtle turned 90 degrees about X with the initial radius, the trunk
        appended with its first section at the origin, then one symbol of the rule string at a
        time, each followed by a cancellation poll. On a generator whose branch and leaf
        collections are empty, the collections, the deepest layer and the draws and polls
        used are those of the turtle walk Build. */
    method BuildTheTree(branch: BranchData, trunk: BranchData) returns (ok: bool)
      requires ValidStream(session.Draws()) && branches == [] && leaves == [] && meshdata.maxLayers >= 0
      modifies this`branches, this`leaves, this`meshdata, session`next, session`polls
      ensures var o := old(Build(Cfg(branch, trunk), treedata.rule, meshdata.maxLayers, session.next, session.polls));
              && ok == o.ok && branches == o.st.branches && leaves == o.st.leaves
              && meshdata == old(meshdata).(maxLayers := o.st.maxLayers)
              && session.next == o.st.next && session.polls == o.st.polls
    {
      var c := Cfg(branch, trunk);
      var turtle := NewTurtle();
      turtle := turtle.(world := geometry.rotate(turtle.world, XAxis, DegToRad(90.0)));
      turtle := turtle.(radius := treedata.initialRadius, branchIndex := 0, sectionIndex := 0,
                        layerIndex := 0, branchParent := -1, branchEnded := false);
      var trunkBranch := NewBranch().(layer := 0, parentIndex := -1);
      trunkBranch := trunkBranch.(sections := trunkBranch.sections + [Section(Origin, treedata.initialRadius)]);
      branches := branches + [trunkBranch];
      var start := BuildState(turtle, [], TrunkStyle, branches, leaves, meshdata.maxLayers,
                              session.next, session.polls);
      assert start == Start(c, meshdata.maxLayers, session.next, session.polls) by {
        assert [] + [Section(Origin, treedata.initialRadius)] == [Section(Origin, treedata.initialRadius)];
        assert [] + [trunkBranch] == [trunkBranch];
      }
      ghost var good := StartGood(c, meshdata.maxLayers, session.next, session.polls);
      var o := Walk(c, treedata.rule, start, good);
      branches, leaves := o.st.branches, o.st.leaves;
      meshdata := meshdata.(maxLayers := o.st.maxLayers);
      session.next, session.polls := o.st.next, o.st.polls;
      ok := o.ok;
    }

    /** BuildTheTree's loop over the rule string, from the given state: the symbol at j, then
        the poll, which stops the walk as cancelled or moves on past the symbol's position.
        good is the set of well-formed states (Skeleton.WellFormedStates). */
    static method Walk(c: Config, rule: string, start: BuildState, ghost good: iset<BuildState>)
      returns (o: Outcome)
      requires ValidStream(c.stream) && WellFormedStates(c, good) && start in good
      ensures o == Run(c, rule, start, 0)
    {
      var st, j := start, 0;
      while j < |rule|
        invariant j <= |rule| + 1
        invariant st in good && Run(c, rule, st, j) == Run(c, rule, start, 0)
        decreases |rule| + 1 - j
      {
        var st1, j1 := Interpret(c, rule, st, j, good);
        st := st1.(polls := st1.polls + 1);
        if c.cancel(st1.polls) {
          return Outcome(st, false);
        }
        j := j1 + 1;
      }
      return Outcome(st, true);
    }

    /** One pass of BuildTheTree's switch: the state after the symbol at j (Step) and the
        position the loop continues after. Its contract is the walk's: from (st, j) the walk is
        the poll after the new state followed, unless cancelled, by the walk from j' + 1; and
        the new state stays well formed. */
    static method Interpret(c: Config, rule: string, st: BuildState, j: nat, ghost good: iset<BuildState>)
      returns (st': BuildState, j': nat)
      requires ValidStream(c.stream) && j < |rule| && WellFormedStates(c, good) && st in good
      ensures j <= j' <= |rule| && st'.(polls := st'.polls + 1) in good
      ensures Run(c, rule, st, j) ==
                if c.cancel(st'.polls) then Outcome(st'.(polls := st'.polls + 1), false)
                else Run(c, rule, st'.(polls := st'.polls + 1), j' + 1)
    {
      GoodTurtleFits(c, st, good);
      var values := Values(c, st.style);
      st', j' := st, j;
      match rule[j] {
        case 'F' =>
          st' := DrawForwardSymbol(c, values, st);
        case 'G' =>
          var world := DetermineForwardMovement(c, values, st);
          st' := st.(turtle := st.turtle.(world := world), next := st.next + 4);
        case '[' =>
          st', j' := BranchSymbol(c, rule, st, j);
        case ']' =>
          if |st.stack| > 0 {
            var turtle := st.stack[|st.stack| - 1];
            st' := st.(turtle := turtle, stack := st.stack[..|st.stack| - 1],
                       style := if turtle.branchIndex == 0 then TrunkStyle else BranchStyle);
          }
        case '+' => st' := TurnSymbol(c, values, st, YAxis, false);
        case '-' => st' := TurnSymbol(c, values, st, YAxis, true);
        case '>' => st' := TurnSymbol(c, values, st, XAxis, false);
        case '<' => st' := TurnSymbol(c, values, st, XAxis, true);
        case '^' => st' := TurnSymbol(c, values, st, ZAxis, false);
        case 'v' => st' := TurnSymbol(c, values, st, ZAxis, true);
        case 'L' => st' := LeafSymbol(c, st);
        case _ =>
      }
      AdvanceFrom(c, rule, st, j, st', j', good);
    }

    /** DetermineForwardMovement followed by Translate: four draws x, y, z and length, in that
        order, and the pose moved by them; the geometry itself is the Geometry's. */
    static method DetermineForwardMovement(c: Config, values: BranchData, st: BuildState) returns (world: Pose)
      requires ValidStream(c.stream) && values == Values(c, st.style)
      ensures world == Moved(c, st)
    {
      var x := Unit(c.variant, c.stream(st.next));
      var y := Unit(c.variant, c.stream(st.next + 1));
      var z := Unit(c.variant, c.stream(st.next + 2));
      var length := Unit(c.variant, c.stream(st.next + 3));
      world := c.geometry.advance(st.turtle.world,
                                  DegToRad(Spread(values.forwardAngle, y)), DegToRad(Spread(values.forwardAngle, x)),
                                  DegToRad(Spread(values.forwardAngle, z)), Vary(values.forward, values.forwardVariance, length));
    }

    /** 'F': the move, the radius decreased and floored, and a section appended to the turtle's
        branch. */
    static method DrawForwardSymbol(c: Config, values: BranchData, st: BuildState) returns (st': BuildState)
      requires ValidStream(c.stream) && values == Values(c, st.style) && TurtleFits(st.turtle, st.branches)
      ensures st' == DrawForward(c, st)
    {
      var world := DetermineForwardMovement(c, values, st);
      var turtle := st.turtle.(world := world);
      var radius := turtle.radius * values.radiusDecrease;
      if radius < c.minimumRadius {
        radius := c.minimumRadius;
      }
      turtle := turtle.(radius := radius);
      var b := st.branches[turtle.branchIndex];
      var bs := st.branches[turtle.branchIndex := b.(sections := b.sections + [Section(world.position, radius)])];
      turtle := turtle.(sectionIndex := turtle.sectionIndex + 1);
      st' := st.(turtle := turtle, branches := bs, next := st.next + 4);
    }

    /** A rotation symbol: one draw in [-1, 1] and a turn about the given axis. */
    static method TurnSymbol(c: Config, values: BranchData, st: BuildState, axis: Axis, negative: bool)
      returns (st': BuildState)
      requires ValidStream(c.stream) && values == Values(c, st.style)
      ensures st' == Turn(c, st, axis, negative)
    {
      var angle := Unit(c.variant, c.stream(st.next));
      var degrees := Vary(if negative then -values.angle else values.angle, values.angleVariance, angle);
      st' := st.(turtle := st.turtle.(world := c.geometry.rotate(st.turtle.world, axis, DegToRad(degrees))),
                 next := st.next + 1);
    }

    /** 'L': a leaf when leaves are on, the turtle is off the trunk, at or below the leaf
        layer and past its branch's first section. */
    static method LeafSymbol(c: Config, st: BuildState) returns (st': BuildState)
      requires TurtleFits(st.turtle, st.branches)
      ensures st' == AddLeaf(c, st)
    {
      st' := st;
      var turtle := st.turtle;
      if c.treeHasLeaves && turtle.branchIndex != 0
         && turtle.layerIndex >= AsInt32(c.leafLayer) && turtle.sectionIndex != 0
      {
        var sections := st.branches[turtle.branchIndex].sections;
        var axis := sections[turtle.sectionIndex].position.Minus(sections[turtle.sectionIndex - 1].position);
        st' := st.(leaves := st.leaves + [NewLeaf(turtle.world.position, c.geometry.normalized(axis),
                                                  turtle.layerIndex, turtle.radius)]);
      }
    }

    /** '[': TryKillBranch; a branch that lives saves the turtle, marked as ended, and starts
        a new branch with BuildNewBranch. */
    static method BranchSymbol(c: Config, rule: string, st: BuildState, j: nat) returns (st': BuildState, j': nat)
      requires ValidStream(c.stream) && j < |rule| && rule[j] == '[' && TurtleFits(st.turtle, st.branches)
      ensures (st', j') == Step(c, rule, st, j)
    {
      var dead;
      dead, j' := TryKillBranch(c, rule, st.next, j);
      st' := st.(next := st.next + 1);
      if !dead {
        ghost var st1 := st';
        var saved := st'.turtle.(branchEnded := true);
        st' := st'.(stack := st'.stack + [saved]);
        st' := BuildNewBranch(c, st1, st');
      }
    }

    /** TryKillBranch (BranchIsAlive in the 2012 copy, which returns the negation): the draw at
        `next`, in [0,100], decides; a dead branch moves the index to the bracket that closes
        it, or to the end of the string, and a living one leaves it where it was. */
    static method TryKillBranch(c: Config, rule: string, next: nat, index: nat) returns (dead: bool, newIndex: nat)
      requires ValidStream(c.stream) && index <= |rule|
      ensures dead == Kills(c.variant, Percent(c.variant, c.stream(next)), c.branchDeathProbability)
      ensures newIndex == if dead then ScanClose(rule, index, 1) else index
    {
      dead := Kills(c.variant, Percent(c.variant, c.stream(next)), c.branchDeathProbability);
      newIndex := index;
      if dead {
        var searchnumber := 1;
        while newIndex < |rule|
          invariant index <= newIndex <= |rule|
          invariant ScanClose(rule, newIndex, searchnumber) == ScanClose(rule, index, 1)
          decreases |rule| - newIndex
        {
          newIndex := newIndex + 1;
          if CharAt(rule, newIndex) == '[' {
            searchnumber := searchnumber + 1;
          }
          if CharAt(rule, newIndex) == ']' {
            searchnumber := searchnumber - 1;
          }
          if searchnumber == 0 {
            break;
          }
        }
      }
    }

    /** BuildNewBranch, called right after the turtle of `before` was saved: in the current
        code the branch style takes over when the turtle leaves the trunk (the 2012 code
        changes only its own copy of the pointer, so the style stays); the radius is
        decreased and floored, the layer deepened, and the new branch appended and listed
        among its parent's children. */
    static method BuildNewBranch(c: Config, ghost before: BuildState, st: BuildState) returns (st': BuildState)
      requires TurtleFits(before.turtle, before.branches)
      requires st == before.(stack := before.stack + [before.turtle.(branchEnded := true)])
      ensures st' == Grow(c, before)
    {
      var turtle := st.turtle;
      var style := st.style;
      if c.variant == Current && turtle.branchIndex == 0 {
        style := BranchStyle;
      }
      var radius := turtle.radius * c.branchRadiusDecrease;
      if radius < c.minimumRadius {
        radius := c.minimumRadius;
      }
      turtle := turtle.(radius := radius, layerIndex := turtle.layerIndex + 1);
      var maxLayers := Max(st.maxLayers, turtle.layerIndex);
      turtle := turtle.(branchParent := turtle.branchIndex, branchIndex := |st.branches|, branchEnded := false);
      var child := NewBranch();
      child := child.(sections := child.sections + [Section(turtle.world.position, radius)]);
      child := child.(layer := turtle.layerIndex, parentIndex := turtle.branchParent,
                      sectionIndex := turtle.sectionIndex);
      var bs := st.branches + [child];
      var parent := bs[turtle.branchParent];
      bs := bs[turtle.branchParent := parent.(children := parent.children + [turtle.branchIndex])];
      turtle := turtle.(sectionIndex := 0);
      assert child == Sprout(c, before.turtle);
      assert bs == WithChild(before.branches, before.turtle.branchIndex, child);
      st' := st.(turtle := turtle, style := style, branches := bs, maxLayers := maxLayers);
    }

    // ----- The Maya nodes -----

    /** CreateTreeGroup: the tree counter moves on and numbers the tree group; the deepest
        layer becomes a count of layers, each given a leaves group when the tree has leaves
        and a branches group when it is meshed; then a poll. Every command runs on a fresh
        object, so there are no layers yet. */
    method CreateTreeGroup() returns (ok: bool)
      requires layers == [] && meshdata.maxLayers >= 0
      modifies this`layers, this`meshdata, this`treeId, session`treeNumber, session`polls
      ensures session.treeNumber == old(session.treeNumber) + 1 && treeId == session.treeNumber
      ensures meshdata == old(meshdata).(maxLayers := old(meshdata.maxLayers) + 1)
      ensures layers == LayerGroups(meshdata.maxLayers, leafdata.treeHasLeaves, meshdata.createAsCurves)
      ensures ok == !session.cancel(old(session.polls)) && session.polls == old(session.polls) + 1
    {
      session.treeNumber := session.treeNumber + 1;
      treeId := session.treeNumber;
      meshdata := meshdata.(maxLayers := meshdata.maxLayers + 1);
      var i := 0;
      while i < meshdata.maxLayers
        invariant 0 <= i <= meshdata.maxLayers
        modifies this`layers
        invariant layers == LayerGroups(i, leafdata.treeHasLeaves, meshdata.createAsCurves)
      {
        layers := layers + [Layer(leafdata.treeHasLeaves, !meshdata.createAsCurves)];
        i := i + 1;
      }
      var cancelled := session.Poll();
      ok := !cancelled;
    }

    /** CreateCurve: a curve whose edit points are the branch's section positions, in order. */
    static method CreateCurve(b: Branch, i: nat) returns (c: Created)
      ensures c == CurveOf(b, i)
    {
      var editPoints: seq<Float3> := [];
      var k := 0;
      while k < |b.sections|
        invariant 0 <= k <= |b.sections| && |editPoints| == k
        invariant forall x :: 0 <= x < k ==> editPoints[x] == b.sections[x].position
      {
        editPoints := editPoints + [b.sections[k].position];
        k := k + 1;
      }
      assert editPoints == Positions(b.sections);
      c := BranchCurve(i, b.layer, editPoints);
    }

    /** CreateCurves: a curve for every branch with more than one section, each branch
        followed by a poll; a poll that finds the button pressed ends it as failed. The nodes
        go to Maya, so the object itself is not changed; the poll count is carried through. */
    static method CreateCurves(bs: seq<Branch>, next: nat, cancel: CancelOracle, polls: nat) returns (m: Made)
      ensures m == Each(|bs|, PerLongBranch(bs, CurveOf), 0, next, cancel, polls)
    {
      ghost var goal := Each(|bs|, PerLongBranch(bs, CurveOf), 0, next, cancel, polls);
      var out: seq<Created> := [];
      var j, p := 0, polls;
      while j < |bs|
        invariant j <= |bs| && Resumes(out, Each(|bs|, PerLongBranch(bs, CurveOf), j, next, cancel, p), goal)
      {
        var stop;
        out, p, stop := CurveStep(bs, goal, out, j, next, cancel, p);
        if stop {
          return Made(out, next, p, false);
        }
        j := j + 1;
      }
      return Made(out, next, p, true);
    }

    /** One branch of CreateCurves' loop: its curve when it is long, then a poll. */
    static method CurveStep(bs: seq<Branch>, ghost goal: Made, out: seq<Created>, j: nat, next: nat,
                            cancel: CancelOracle, p: nat) returns (out': seq<Created>, p': nat, stop: bool)
      requires j < |bs| && Resumes(out, Each(|bs|, PerLongBranch(bs, CurveOf), j, next, cancel, p), goal)
      ensures stop ==> goal == Made(out', next, p', false)
      ensures !stop ==> Resumes(out', Each(|bs|, PerLongBranch(bs, CurveOf), j + 1, next, cancel, p'), goal)
    {
      ResumeStep(out, |bs|, PerLongBranch(bs, CurveOf), j, next, cancel, p, goal);
      out' := out;
      if |bs[j].sections| > 1 {
        var curve := CreateCurve(bs[j], j);
        out' := out + [curve];
      } else {
        assert out + [] == out;
      }
      stop := cancel(p);
      p' := p + 1;
    }

    /** CreateMeshes: the disks of the layerCount layers, then a mesh for every branch with
        more than one section on the disk of its layer, capped when the branch has no children
        and capEnds is set, each branch followed by a poll; a poll that finds the button
        pressed ends it as failed. The branch's layer indexes the disks. */
    static method CreateMeshes(bs: seq<Branch>, layerCount: nat, md: MeshData, bleed: real,
                               circle: (nat, nat) -> Float3, next: nat, cancel: CancelOracle, polls: nat)
      returns (m: Made)
      requires forall b :: 0 <= b < |bs| ==> 0 <= bs[b].layer < layerCount
      ensures m == Each(|bs|, PerLongBranch(bs, MeshFor(Disks(md, layerCount, circle), bleed, md.capEnds)),
                        0, next, cancel, polls)
    {
      var disks := CreateDisks(md, layerCount, circle);
      assert disks == Disks(md, layerCount, circle);
      ghost var goal := Each(|bs|, PerLongBranch(bs, MeshFor(disks, bleed, md.capEnds)), 0, next, cancel, polls);
      var out: seq<Created> := [];
      var j, p := 0, polls;
      while j < |bs|
        invariant j <= |bs|
        invariant Resumes(out, Each(|bs|, PerLongBranch(bs, MeshFor(disks, bleed, md.capEnds)), j, next, cancel, p), goal)
      {
        var stop;
        out, p, stop := MeshStep(bs, disks, bleed, md.capEnds, goal, out, j, next, cancel, p);
        if stop {
          return Made(out, next, p, false);
        }
        j := j + 1;
      }
      return Made(out, next, p, true);
    }

    /** One branch of CreateMeshes' loop: its mesh when it is long, then a poll. */
    static method MeshStep(bs: seq<Branch>, disks: seq<Disk>, bleed: real, capEnds: bool, ghost goal: Made,
                           out: seq<Created>, j: nat, next: nat, cancel: CancelOracle, p: nat)
      returns (out': seq<Created>, p': nat, stop: bool)
      requires j < |bs| && 0 <= bs[j].layer < |disks|
      requires Resumes(out, Each(|bs|, PerLongBranch(bs, MeshFor(disks, bleed, capEnds)), j, next, cancel, p), goal)
      ensures stop ==> goal == Made(out', next, p', false)
      ensures !stop ==>
                Resumes(out', Each(|bs|, PerLongBranch(bs, MeshFor(disks, bleed, capEnds)), j + 1, next, cancel, p'), goal)
    {
      ResumeStep(out, |bs|, PerLongBranch(bs, MeshFor(disks, bleed, capEnds)), j, next, cancel, p, goal);
      out' := out;
      if |bs[j].sections| > 1 {
        var mesh := MeshBranch(disks, bs[j], j, bleed, capEnds);
        out' := out + [mesh];
      } else {
        assert out + [] == out;
      }
      stop := cancel(p);
      p' := p + 1;
    }

    /** CreateMesh for branch j on the disk of its layer, capped when it has no children. */
    static method MeshBranch(disks: seq<Disk>, b: Branch, j: nat, bleed: real, capEnds: bool)
      returns (c: Created)
      requires |b.sections| > 1 && 0 <= b.layer < |disks|
      ensures c == MeshFor(disks, bleed, capEnds)(b, j)
    {
      var mesh := CreateMesh(|b.sections|, disks[b.layer].points, bleed, b.children != [], capEnds);
      c := BranchMesh(j, b.layer, mesh);
    }

    /** CreateLeaf's draws for leaf i, from the next unused draw: the spin, the width and the
        height, then the bends of the two middle vertices of a bent leaf. */
    static method CreateLeaf(v: Variant, ld: LeafData, s: Stream, leaves: seq<Leaf>, i: nat, next: nat)
      returns (c: Created, next': nat)
      requires ValidStream(s) && i < |leaves|
      ensures PerLeaf(LeafDrawer(v, ld, s), leaves)(i, next) == ([c], next')
    {
      var angle := Degrees(v, s(next));
      var width := Vary(ld.width, ld.widthVariance, Unit(v, s(next + 1)));
      var height := Vary(ld.height, ld.heightVariance, Unit(v, s(next + 2)));
      next' := next + 3;
      var bends := [];
      if ld.bendAmount != 0.0 {
        var left := Spread(ld.bendAmount, Unit(v, s(next + 3)));
        var right := Spread(ld.bendAmount, Unit(v, s(next + 4)));
        bends := [left, right];
        next' := next + 5;
      }
      c := LeafMesh(i, leaves[i].layer, LeafShape(angle, width, height, bends));
    }

    /** CreateLeaves: the template every leaf mesh shares is appended to the leaf arrays, then
        every leaf is drawn and meshed in turn, each followed by a poll. */
    method CreateLeaves() returns (ok: bool)
      requires ValidStream(session.Draws())
      modifies this`leafVertexCount, this`leafFaces, this`leafU, this`leafV, this`leafUVFaces,
               this`created, session`next, session`polls
      ensures var t := old(Template(leafdata.bendAmount, fxdata.uvBleedSpace));
              && leafVertexCount == old(leafVertexCount) + t.vertexCount
              && leafFaces == old(leafFaces) + t.faces && leafUVFaces == old(leafUVFaces) + t.uvFaces
              && leafU == old(leafU) + t.u && leafV == old(leafV) + t.v
      ensures ok == old(LeafStage(variant, leafdata, session.Draws(), leaves, session.next, session.cancel, session.polls)).ok
      ensures created == old(created + LeafStage(variant, leafdata, session.Draws(), leaves, session.next, session.cancel, session.polls).created)
      ensures session.next == old(LeafStage(variant, leafdata, session.Draws(), leaves, session.next, session.cancel, session.polls)).next
      ensures session.polls == old(LeafStage(variant, leafdata, session.Draws(), leaves, session.next, session.cancel, session.polls)).polls
    {
      var m := LeafLoop(variant, leafdata, session.Draws(), leaves, session.next, session.cancel, session.polls);
      var t := Template(leafdata.bendAmount, fxdata.uvBleedSpace);
      leafVertexCount := leafVertexCount + t.vertexCount;
      leafFaces, leafUVFaces := leafFaces + t.faces, leafUVFaces + t.uvFaces;
      leafU, leafV := leafU + t.u, leafV + t.v;
      created := created + m.created;
      session.next, session.polls := m.next, m.polls;
      ok := m.ok;
    }

    /** CreateLeaves' loop over the leaves, from the given draw and poll count. */
    static method LeafLoop(v: Variant, ld: LeafData, s: Stream, leaves: seq<Leaf>,
                           next: nat, cancel: CancelOracle, polls: nat) returns (m: Made)
      requires ValidStream(s)
      ensures m == LeafStage(v, ld, s, leaves, next, cancel, polls)
    {
      ghost var goal := Each(|leaves|, PerLeaf(LeafDrawer(v, ld, s), leaves), 0, next, cancel, polls);
      var out: seq<Created> := [];
      var i, n, p := 0, next, polls;
      while i < |leaves|
        invariant i <= |leaves|
        invariant Resumes(out, Each(|leaves|, PerLeaf(LeafDrawer(v, ld, s), leaves), i, n, cancel, p), goal)
      {
        var stop;
        out, n, p, stop := LeafStep(v, ld, s, leaves, goal, out, i, n, cancel, p);
        if stop {
          return Made(out, n, p, false);
        }
        i := i + 1;
      }
      return Made(out, n, p, true);
    }

    /** One leaf of CreateLeaves' loop: the leaf drawn and meshed, then a poll. */
    static method LeafStep(v: Variant, ld: LeafData, s: Stream, leaves: seq<Leaf>, ghost goal: Made,
                           out: seq<Created>, i: nat, n: nat, cancel: CancelOracle, p: nat)
      returns (out': seq<Created>, n': nat, p': nat, stop: bool)
      requires ValidStream(s) && i < |leaves|
      requires Resumes(out, Each(|leaves|, PerLeaf(LeafDrawer(v, ld, s), leaves), i, n, cancel, p), goal)
      ensures stop ==> goal == Made(out', n', p', false)
      ensures !stop ==>
                Resumes(out', Each(|leaves|, PerLeaf(LeafDrawer(v, ld, s), leaves), i + 1, n', cancel, p'), goal)
    {
      var leaf;
      leaf, n' := CreateLeaf(v, ld, s, leaves, i, n);
      ResumeStep(out, |leaves|, PerLeaf(LeafDrawer(v, ld, s), leaves), i, n, cancel, p, goal);
      out' := out + [leaf];
      stop := cancel(p);
      p' := p + 1;
    }

    /** DeleteNodes: the tree counter steps back, and the tree group and the shaders are
        deleted. */
    method DeleteNodes()
      modifies session`treeNumber, this`deleted
      ensures session.treeNumber == old(session.treeNumber) - 1 && deleted
    {
      session.treeNumber := session.treeNumber - 1;
      deleted := true;
    }

    /** MeshTheTree: the tree group (whose poll's answer is ignored), then a poll; then the
        curves or the meshes, then the leaves when the tree has them. The first stage that is
        cancelled deletes the tree and fails, which also takes back the tree's number. */
    method MeshTheTree() returns (ok: bool)
      requires ValidStream(session.Draws()) && layers == [] && meshdata.maxLayers >= 0
      requires forall b :: 0 <= b < |branches| ==> 0 <= branches[b].layer <= meshdata.maxLayers
      requires forall i :: 0 <= i < |leaves| ==> 1 <= leaves[i].layer <= meshdata.maxLayers
      modifies this`layers, this`meshdata, this`treeId, this`created, this`deleted,
               this`leafVertexCount, this`leafFaces, this`leafU, this`leafV, this`leafUVFaces,
               session`treeNumber, session`next, session`polls
      ensures meshdata == old(meshdata).(maxLayers := old(meshdata.maxLayers) + 1)
      ensures layers == LayerGroups(meshdata.maxLayers, leafdata.treeHasLeaves, meshdata.createAsCurves)
      ensures treeId == old(session.treeNumber) + 1
      ensures |layers| == meshdata.maxLayers
      ensures forall b :: 0 <= b < |branches| ==> 0 <= branches[b].layer < |layers|
      ensures forall i :: 0 <= i < |leaves| ==> 1 <= leaves[i].layer < |layers|
      ensures var m := old(Meshing(branches, leaves, meshdata.maxLayers + 1, meshdata.(maxLayers := meshdata.maxLayers + 1),
                                   leafdata.treeHasLeaves, fxdata.uvBleedSpace, circle,
                                   LeafDrawer(variant, leafdata, session.Draws()), session.next, session.cancel,
                                   session.polls + 1));
              && ok == m.ok && created == old(created) + m.created
              && session.next == m.next && session.polls == m.polls
      ensures session.treeNumber == old(session.treeNumber) + (if ok then 1 else 0)
      ensures deleted == (old(deleted) || !ok)
      ensures ok && leafdata.treeHasLeaves ==>
                leafFaces == old(leafFaces) + Template(leafdata.bendAmount, fxdata.uvBleedSpace).faces
      ensures !leafdata.treeHasLeaves ==> leafFaces == old(leafFaces)
    {
      var grouped := CreateTreeGroup();
      ok := PollAndMesh();
    }

    /** MeshTheTree after the tree group: a poll, then the stages; a cancelled poll or stage
        deletes the tree. */
    method PollAndMesh() returns (ok: bool)
      requires ValidStream(session.Draws()) && meshdata.maxLayers >= 0
      requires forall b :: 0 <= b < |branches| ==> 0 <= branches[b].layer < meshdata.maxLayers
      modifies this`created, this`deleted,
               this`leafVertexCount, this`leafFaces, this`leafU, this`leafV, this`leafUVFaces,
               session`treeNumber, session`next, session`polls
      ensures ok == old(Meshing(branches, leaves, meshdata.maxLayers, meshdata, leafdata.treeHasLeaves, fxdata.uvBleedSpace,
                                circle, LeafDrawer(variant, leafdata, session.Draws()), session.next, session.cancel, session.polls)).ok
      ensures created == old(created + Meshing(branches, leaves, meshdata.maxLayers, meshdata, leafdata.treeHasLeaves, fxdata.uvBleedSpace,
                                circle, LeafDrawer(variant, leafdata, session.Draws()), session.next, session.cancel, session.polls).created)
      ensures session.next == old(Meshing(branches, leaves, meshdata.maxLayers, meshdata, leafdata.treeHasLeaves, fxdata.uvBleedSpace,
                                circle, LeafDrawer(variant, leafdata, session.Draws()), session.next, session.cancel, session.polls)).next
      ensures session.polls == old(Meshing(branches, leaves, meshdata.maxLayers, meshdata, leafdata.treeHasLeaves, fxdata.uvBleedSpace,
                                circle, LeafDrawer(variant, leafdata, session.Draws()), session.next, session.cancel, session.polls)).polls
      ensures session.treeNumber == old(session.treeNumber) - (if ok then 0 else 1)
      ensures deleted == (old(deleted) || !ok)
      ensures ok && leafdata.treeHasLeaves ==>
                leafFaces == old(leafFaces) + Template(leafdata.bendAmount, fxdata.uvBleedSpace).faces
      ensures !leafdata.treeHasLeaves ==> leafFaces == old(leafFaces)
    {
      ghost var draw := LeafDrawer(variant, leafdata, session.Draws());
      ghost var goal := Meshing(branches, leaves, meshdata.maxLayers, meshdata, leafdata.treeHasLeaves, fxdata.uvBleedSpace,
                                circle, draw, session.next, session.cancel, session.polls);
      ghost var made := created;
      var cancelled := session.Poll();
      if cancelled {
        assert goal == Made([], session.next, session.polls, false);
        DeleteNodes();
        return false;
      }
      ghost var stages := Stages(branches, leaves, meshdata.maxLayers, meshdata, leafdata.treeHasLeaves, fxdata.uvBleedSpace,
                                 circle, draw, session.next, session.cancel, session.polls);
      assert goal == stages;
      ok := MeshStages();
      assert ok == stages.ok && created == made + stages.created;
      if !ok {
        DeleteNodes();
      }
    }

    /** MeshTheTree after its poll: the branch stage, then the leaf stage when the branch
        stage runs to the end and the tree has leaves. */
    method MeshStages() returns (ok: bool)
      requires ValidStream(session.Draws()) && meshdata.maxLayers >= 0
      requires forall b :: 0 <= b < |branches| ==> 0 <= branches[b].layer < meshdata.maxLayers
      modifies this`created, this`leafVertexCount, this`leafFaces, this`leafU, this`leafV, this`leafUVFaces,
               session`next, session`polls
      ensures ok == old(Stages(branches, leaves, meshdata.maxLayers, meshdata, leafdata.treeHasLeaves, fxdata.uvBleedSpace,
                               circle, LeafDrawer(variant, leafdata, session.Draws()), session.next, session.cancel, session.polls)).ok
      ensures created == old(created + Stages(branches, leaves, meshdata.maxLayers, meshdata, leafdata.treeHasLeaves, fxdata.uvBleedSpace,
                               circle, LeafDrawer(variant, leafdata, session.Draws()), session.next, session.cancel, session.polls).created)
      ensures session.next == old(Stages(branches, leaves, meshdata.maxLayers, meshdata, leafdata.treeHasLeaves, fxdata.uvBleedSpace,
                               circle, LeafDrawer(variant, leafdata, session.Draws()), session.next, session.cancel, session.polls)).next
      ensures session.polls == old(Stages(branches, leaves, meshdata.maxLayers, meshdata, leafdata.treeHasLeaves, fxdata.uvBleedSpace,
                               circle, LeafDrawer(variant, leafdata, session.Draws()), session.next, session.cancel, session.polls)).polls
      ensures leafFaces == old(leafFaces) +
                (if leafdata.treeHasLeaves && old(BranchStage(branches, meshdata.maxLayers, meshdata, fxdata.uvBleedSpace,
                                                              circle, session.next, session.cancel, session.polls)).ok
                 then Template(leafdata.bendAmount, fxdata.uvBleedSpace).faces else [])
    {
      ghost var goal := Stages(branches, leaves, meshdata.maxLayers, meshdata, leafdata.treeHasLeaves, fxdata.uvBleedSpace,
                               circle, LeafDrawer(variant, leafdata, session.Draws()), session.next, session.cancel, session.polls);
      ghost var b := BranchStage(branches, meshdata.maxLayers, meshdata, fxdata.uvBleedSpace, circle,
                                 session.next, session.cancel, session.polls);
      BranchStageResult(branches, meshdata.maxLayers, meshdata, fxdata.uvBleedSpace, circle,
                        session.next, session.cancel, session.polls, b);
      ghost var made := created;
      ghost var s := session.Draws();
      ok := MeshBranches();
      assert ok == b.ok && created == made + b.created && session.polls == b.polls && session.next == b.next;
      if ok && leafdata.treeHasLeaves {
        assert session.Draws() == s;
        ghost var l := LeafStage(variant, leafdata, session.Draws(), leaves, session.next, session.cancel, session.polls);
        assert goal == Made(b.created + l.created, l.next, l.polls, l.ok);
        ghost var before := created;
        ok := CreateLeaves();
        assert created == before + l.created;
        AppendInTwoSteps(made, b.created, l.created);
      } else {
        assert goal == b;
      }
    }

    /** The branch stage: a curve or a mesh for every long branch, one poll after each. */
    method MeshBranches() returns (ok: bool)
      requires meshdata.maxLayers >= 0
      requires forall b :: 0 <= b < |branches| ==> 0 <= branches[b].layer < meshdata.maxLayers
      modifies this`created, session`polls
      ensures ok == old(BranchStage(branches, meshdata.maxLayers, meshdata, fxdata.uvBleedSpace, circle,
                                    session.next, session.cancel, session.polls)).ok
      ensures created == old(created + BranchStage(branches, meshdata.maxLayers, meshdata, fxdata.uvBleedSpace, circle,
                                    session.next, session.cancel, session.polls).created)
      ensures session.polls == old(BranchStage(branches, meshdata.maxLayers, meshdata, fxdata.uvBleedSpace, circle,
                                    session.next, session.cancel, session.polls)).polls
    {
      var b;
      if meshdata.createAsCurves {
        b := CreateCurves(branches, session.next, session.cancel, session.polls);
      } else {
        b := CreateMeshes(branches, meshdata.maxLayers, meshdata, fxdata.uvBleedSpace, circle,
                          session.next, session.cancel, session.polls);
      }
      created := created + b.created;
      session.polls := b.polls;
      ok := b.ok;
    }

    // ----- The command -----

    /** The seeding at the start of doIt: the current code reseeds its engine from the clock
        only when randomize is set; the 2012 code copies the clock into its stored seed when
        randomize is set, and reseeds rand() from the stored seed every time. */
    method SeedEngine(now: uint32)
      modifies session`seed, session`next
      ensures variant == Current ==>
                if meshdata.randomize then session.seed == now && session.next == 0
                else session.seed == old(session.seed) && session.next == old(session.next)
      ensures variant == Legacy ==>
                session.seed == (if meshdata.randomize then now else old(session.seed)) && session.next == 0
    {
      if variant == Current {
        if meshdata.randomize {
          session.Reseed(now);
        }
      } else {
        var seed := if meshdata.randomize then now else session.seed;
        session.Reseed(seed);
      }
    }

    /** doIt: the default rule and the rule pieces, the preview switches, the seeding, the
        progress steps, then CreateRuleString from the start rule, the prerule and postrule
        put round the expansion, BuildTheTree and MeshTheTree, stopping at the first that
        fails. trunk and branch are the styles the command runs with; the 2012 copy's rule
        table and iteration count are locals that start from the same defaults. */
    method DoIt(rp: Option<RulePieces>, branch: BranchData, trunk: BranchData, now: uint32) returns (ok: bool)
      requires Valid() && branches == [] && leaves == [] && layers == [] && meshdata.maxLayers >= 0
      modifies this`treedata, this`meshdata, this`leafdata, this`fxdata, this`iterations,
               this`progressIncrease, this`progressStep, this`branches, this`leaves, this`layers,
               this`treeId, this`created, this`deleted, this`leafVertexCount, this`leafFaces,
               this`leafU, this`leafV, this`leafUVFaces, ruleIDs, ruleStrings, ruleChances,
               session`seed, session`next, session`polls, session`treeNumber
      ensures ruleIDs[0] == "A" && ruleStrings[0] == DefaultRuleString && ruleChances[0] == 100
      ensures old(meshdata.preview) ==>
                meshdata.createAsCurves && !leafdata.treeHasLeaves
                && !fxdata.createTreeShader && !fxdata.createLeafShader
      ensures progressStep == 2
      ensures ok ==>
                var p := Pieces(rp);
                && |p.prerule| + |p.postrule| <= |treedata.rule|
                && treedata.rule[..|p.prerule|] == p.prerule
                && treedata.rule[|treedata.rule| - |p.postrule|..] == p.postrule
      ensures ok ==>
                && |layers| == meshdata.maxLayers
                && (forall b :: 0 <= b < |branches| ==> 0 <= branches[b].layer < |layers|)
                && (forall i :: 0 <= i < |leaves| ==> 1 <= leaves[i].layer < |layers|)
      ensures session.treeNumber == old(session.treeNumber) + (if ok then 1 else 0)
    {
      Setup(now);
      ok := GrowShaped(Pieces(rp), branch, trunk);
    }

    /** The first half of doIt: the rule cleared, the rule table, the preview switches, the
        seeding and the progress steps. */
    method Setup(now: uint32)
      requires ruleIDs.Length == ruleStrings.Length == ruleChances.Length == RuleNumber && ruleIDs != ruleStrings
      modifies this`treedata, this`meshdata, this`leafdata, this`fxdata, this`iterations,
               this`progressIncrease, this`progressStep, ruleIDs, ruleStrings, ruleChances,
               session`seed, session`next
      ensures treedata == old(treedata).(rule := [])
      ensures ruleIDs[0] == "A" && ruleStrings[0] == DefaultRuleString && ruleChances[0] == 100
      ensures meshdata == if old(meshdata.preview) then old(meshdata).(createAsCurves := true) else old(meshdata)
      ensures leafdata == if old(meshdata.preview) then old(leafdata).(treeHasLeaves := false) else old(leafdata)
      ensures fxdata == if old(meshdata.preview) then old(fxdata).(createTreeShader := false, createLeafShader := false)
                        else old(fxdata)
      ensures progressStep == 2 && progressIncrease == 100 / (if leafdata.treeHasLeaves then 3 else 2)
      ensures variant == Current ==>
                if meshdata.randomize then session.seed == now && session.next == 0
                else session.seed == old(session.seed) && session.next == old(session.next)
      ensures variant == Legacy ==>
                session.seed == (if meshdata.randomize then now else old(session.seed)) && session.next == 0
    {
      treedata := treedata.(rule := []);
      SetRuleTable();
      if meshdata.preview {
        meshdata := meshdata.(createAsCurves := true);
        leafdata := leafdata.(treeHasLeaves := false);
        fxdata := fxdata.(createTreeShader := false, createLeafShader := false);
      }
      SeedEngine(now);
      progressIncrease := 100 / (if leafdata.treeHasLeaves then 3 else 2);
      progressStep := 2;
    }

    /** doIt's rule table: rule "A" in slot 0, with DefaultRuleString and chance 100. The 2012
        copy's table and iteration count are locals of doIt, so there every other slot starts
        empty and there are four passes; the current copy keeps the rest of its table and its
        iteration count. */
    method SetRuleTable()
      requires ruleIDs.Length == ruleStrings.Length == ruleChances.Length == RuleNumber && ruleIDs != ruleStrings
      modifies ruleIDs, ruleStrings, ruleChances, this`iterations
      ensures ruleIDs[0] == "A" && ruleStrings[0] == DefaultRuleString && ruleChances[0] == 100
      ensures variant == Legacy ==>
                && iterations == 4
                && forall k :: 1 <= k < RuleNumber ==> ruleIDs[k] == [] && ruleStrings[k] == [] && ruleChances[k] == 0
      ensures variant == Current ==>
                && iterations == old(iterations)
                && forall k :: 1 <= k < RuleNumber ==>
                     ruleIDs[k] == old(ruleIDs[k]) && ruleStrings[k] == old(ruleStrings[k])
                     && ruleChances[k] == old(ruleChances[k])
    {
      ruleIDs[0] := "A";
      ruleStrings[0] := DefaultRuleString;
      ruleChances[0] := 100;
      if variant == Legacy {
        var k := 1;
        while k < RuleNumber
          invariant 1 <= k <= RuleNumber
          modifies ruleIDs, ruleStrings, ruleChances
          invariant ruleIDs[0] == "A" && ruleStrings[0] == DefaultRuleString && ruleChances[0] == 100
          invariant forall j :: 1 <= j < k ==> ruleIDs[j] == [] && ruleStrings[j] == [] && ruleChances[j] == 0
        {
          ruleIDs[k], ruleStrings[k], ruleChances[k] := [], [], 0;
          k := k + 1;
        }
        iterations := 4;
      }
    }

    /** GrowTree seen through GrownShape: the rule framed by the prerule and postrule, and the
        branches and leaves within the layer groups made for them. */
    method GrowShaped(pieces: RulePieces, branch: BranchData, trunk: BranchData) returns (ok: bool)
      requires ruleIDs.Length == ruleStrings.Length == ruleChances.Length == RuleNumber && ValidStream(session.Draws())
      requires branches == [] && leaves == [] && layers == [] && meshdata.maxLayers >= 0
      modifies this`treedata, this`branches, this`leaves, this`meshdata, this`layers, this`treeId,
               this`created, this`deleted, this`leafVertexCount, this`leafFaces, this`leafU, this`leafV,
               this`leafUVFaces, session`next, session`polls, session`treeNumber
      ensures ok ==>
                && |pieces.prerule| + |pieces.postrule| <= |treedata.rule|
                && treedata.rule[..|pieces.prerule|] == pieces.prerule
                && treedata.rule[|treedata.rule| - |pieces.postrule|..] == pieces.postrule
      ensures ok ==>
                && |layers| == meshdata.maxLayers
                && (forall b :: 0 <= b < |branches| ==> 0 <= branches[b].layer < |layers|)
                && (forall i :: 0 <= i < |leaves| ==> 1 <= leaves[i].layer < |layers|)
      ensures meshdata == old(meshdata).(maxLayers := meshdata.maxLayers)
      ensures session.treeNumber == old(session.treeNumber) + (if ok then 1 else 0)
    {
      ok := GrowTree(pieces, branch, trunk);
      GrownShape(variant, old(Table()), old(iterations), pieces, old(Cfg(branch, trunk)), old(meshdata), leafdata.treeHasLeaves,
                 fxdata.uvBleedSpace, circle, LeafDrawer(variant, leafdata, session.Draws()),
                 old(session.next), old(session.polls));
    }

    /** The second half of doIt: the start rule expanded, the prerule and postrule put round
        it, the walk, then the meshes. */
    method GrowTree(pieces: RulePieces, branch: BranchData, trunk: BranchData) returns (ok: bool)
      requires ruleIDs.Length == ruleStrings.Length == ruleChances.Length == RuleNumber && ValidStream(session.Draws())
      requires branches == [] && leaves == [] && layers == [] && meshdata.maxLayers >= 0
      modifies this`treedata, this`branches, this`leaves, this`meshdata, this`layers, this`treeId,
               this`created, this`deleted, this`leafVertexCount, this`leafFaces, this`leafU, this`leafV,
               this`leafUVFaces, session`next, session`polls, session`treeNumber
      ensures var g := Grown(variant, old(Table()), old(iterations), pieces, old(Cfg(branch, trunk)), old(meshdata),
                            leafdata.treeHasLeaves, fxdata.uvBleedSpace, circle,
                            LeafDrawer(variant, leafdata, session.Draws()), old(session.next), old(session.polls));
              && ok == g.ok && treedata == old(treedata).(rule := g.rule)
              && branches == g.branches && leaves == g.leaves
              && meshdata == old(meshdata).(maxLayers := g.maxLayers) && created == old(created) + g.created
              && session.next == g.next && session.polls == g.polls
              && (g.walked ==> layers == LayerGroups(g.maxLayers, leafdata.treeHasLeaves, meshdata.createAsCurves))
              && (!g.walked ==> layers == old(layers) && deleted == old(deleted))
      ensures session.treeNumber == old(session.treeNumber) + (if ok then 1 else 0)
    {
      ghost var c := Cfg(branch, trunk);
      ghost var e := Expand(variant, Table(), pieces.start, iterations, c.stream, session.next, c.cancel, session.polls);
      treedata := treedata.(rule := pieces.start);
      assert Table() == old(Table()) && session.Draws() == c.stream;
      ok := CreateRuleString();
      assert ok == e.ok && treedata.rule == e.rule && session.next == e.next && session.polls == e.polls;
      if !ok {
        return;
      }
      treedata := treedata.(rule := CommandString(pieces.prerule, treedata.rule, pieces.postrule));
      assert Cfg(branch, trunk) == c;
      ok := BuildAndMesh(branch, trunk);
    }

    /** The end of doIt: BuildTheTree, then MeshTheTree when the walk was not cancelled. */
    method BuildAndMesh(branch: BranchData, trunk: BranchData) returns (ok: bool)
      requires ValidStream(session.Draws()) && branches == [] && leaves == [] && layers == [] && meshdata.maxLayers >= 0
      modifies this`branches, this`leaves, this`meshdata, this`layers, this`treeId,
               this`created, this`deleted, this`leafVertexCount, this`leafFaces, this`leafU, this`leafV,
               this`leafUVFaces, session`next, session`polls, session`treeNumber
      ensures var b := old(Build(Cfg(branch, trunk), treedata.rule, meshdata.maxLayers, session.next, session.polls));
              var g := Meshed(old(treedata.rule), b, old(meshdata), leafdata.treeHasLeaves, fxdata.uvBleedSpace, circle,
                              LeafDrawer(variant, leafdata, session.Draws()), session.cancel);
              && ok == g.ok && branches == g.branches && leaves == g.leaves
              && meshdata == old(meshdata).(maxLayers := g.maxLayers) && created == old(created) + g.created
              && session.next == g.next && session.polls == g.polls
              && (g.walked ==> layers == LayerGroups(g.maxLayers, leafdata.treeHasLeaves, meshdata.createAsCurves))
              && (!g.walked ==> layers == old(layers) && deleted == old(deleted))
      ensures session.treeNumber == old(session.treeNumber) + (if ok then 1 else 0)
    {
      ghost var c := Cfg(branch, trunk);
      ghost var md0 := meshdata;
      ghost var b := Build(c, treedata.rule, md0.maxLayers, session.next, session.polls);
      BuiltLayersInRange(c, treedata.rule, md0.maxLayers, session.next, session.polls);
      ok := BuildTheTree(branch, trunk);
      if !ok {
        return;
      }
      ok := MeshWalked(treedata.rule, b, md0);
    }

    /** BuildAndMesh after a walk that ran to the end in state st: MeshTheTree over the walked
        tree, from the poll after its tree group. */
    method MeshWalked(ghost rule: string, ghost b: Outcome, ghost md0: MeshData) returns (ok: bool)
      requires ValidStream(session.Draws()) && b.ok && b.st.maxLayers >= 0 && layers == []
      requires branches == b.st.branches && leaves == b.st.leaves && meshdata == md0.(maxLayers := b.st.maxLayers)
      requires session.next == b.st.next && session.polls == b.st.polls
      requires forall k :: 0 <= k < |branches| ==> 0 <= branches[k].layer <= meshdata.maxLayers
      requires forall i :: 0 <= i < |leaves| ==> 1 <= leaves[i].layer <= meshdata.maxLayers
      modifies this`layers, this`meshdata, this`treeId, this`created, this`deleted,
               this`leafVertexCount, this`leafFaces, this`leafU, this`leafV, this`leafUVFaces,
               session`treeNumber, session`next, session`polls
      ensures var g := Meshed(rule, b, md0, old(leafdata.treeHasLeaves), old(fxdata.uvBleedSpace), circle,
                              old(LeafDrawer(variant, leafdata, session.Draws())), session.cancel);
              && ok == g.ok && meshdata == md0.(maxLayers := g.maxLayers) && created == old(created) + g.created
              && session.next == g.next && session.polls == g.polls
              && layers == LayerGroups(g.maxLayers, leafdata.treeHasLeaves, meshdata.createAsCurves)
      ensures session.treeNumber == old(session.treeNumber) + (if ok then 1 else 0)
    {
      ghost var md := meshdata.(maxLayers := meshdata.maxLayers + 1);
      assert md == md0.(maxLayers := b.st.maxLayers + 1);
      ghost var m := Meshing(branches, leaves, meshdata.maxLayers + 1, md, leafdata.treeHasLeaves, fxdata.uvBleedSpace,
                             circle, LeafDrawer(variant, leafdata, session.Draws()), session.next, session.cancel,
                             session.polls + 1);
      assert Meshed(rule, b, md0, leafdata.treeHasLeaves, fxdata.uvBleedSpace, circle,
                    LeafDrawer(variant, leafdata, session.Draws()), session.cancel)
             == Growth(rule, true, true, m.ok, branches, leaves, md.maxLayers, m.created, m.next, m.polls);
      ok := MeshTheTree();
    }
  }

  // ----- Lemmas for the loops -----


  /** The slot a left-to-right search stops at is FirstMatch's. */
  lemma {:induction false} FirstMatchIs(table: seq<Rule>, c: char, k: nat, m: nat)
    requires k <= m <= |table|
    requires forall i :: k <= i < m ==> Trigger(table[i].id) != c
    requires m < |table| ==> Trigger(table[m].id) == c
    ensures FirstMatch(table, c, k) == m
    decreases m - k
  {
    if k < m {
      FirstMatchIs(table, c, k + 1, m);
    }
  }

  /** One step of Expand, given the outcome of its first pass: the poll decides between
      stopping with that outcome and the remaining passes. */
  lemma ExpandAfterPass(v: Variant, table: seq<Rule>, w: string, iterations: nat, s: Stream, next: nat,
                        cancel: CancelOracle, polls: nat, text: string, next': nat)
    requires ValidStream(s) && iterations > 0
    requires Piece(text, next') == Pass(v, table, w, s, next)
    ensures Expand(v, table, w, iterations, s, next, cancel, polls) ==
              if cancel(polls) then Expansion(text, next', polls + 1, false)
              else Expand(v, table, text, iterations - 1, s, next', cancel, polls + 1)
  { }

  /** A pass over the rest of w from position j is the rewrite of w[j] followed by a pass over
      the rest from j + 1. */
  lemma PassUnfold(v: Variant, table: seq<Rule>, w: string, j: nat, s: Stream, next: nat)
    requires ValidStream(s) && j < |w|
    ensures var h := RewriteChar(v, table, w[j], s, next);
            var t := Pass(v, table, w[j + 1..], s, h.next);
            Pass(v, table, w[j..], s, next) == Piece(h.text + t.text, t.next)
  {
    assert w[j..][0] == w[j];
    assert w[j..][1..] == w[j + 1..];
  }
}
