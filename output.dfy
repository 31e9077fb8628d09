/** What MeshTheTree hands to Maya once the skeleton is built (src/treeGenerator.cpp:398-764,
    TreeGenerator/treegenerator.cpp:497-870): one group per layer, then a curve or a mesh for
    every branch with more than one section, then a mesh for every leaf. The three loops
    share one shape, Each: an item's output, then a poll of the cancel button. */
module TreeOutput {
  import opened TreeComponents
  import opened Randomness
  import opened Mesh
  import opened Leaves
  import opened Skeleton
  import opened TurtleWalk

  /** One node handed to Maya: the arrays of a branch mesh, the edit points of a branch curve,
      or the drawn shape of a leaf, with the layer whose group it is parented under. */
  datatype Created =
    | BranchMesh(branch: nat, layer: int, mesh: MeshArrays)
    | BranchCurve(branch: nat, layer: int, editPoints: seq<Float3>)
    | LeafMesh(leaf: nat, layer: int, shape: LeafShape)

  /** The outcome of a cancellable loop: what it created, the next unused draw, the next poll
      and whether it ran to the end. */
  datatype Made = Made(created: seq<Created>, next: nat, polls: nat, ok: bool)

  /** What one item of a loop creates, given the item and the next unused draw, with the
      next unused draw after it. */
  type Emit = (nat, nat) -> (seq<Created>, nat)

  /** The loops of CreateCurves, CreateMeshes and CreateLeaves from item j of n: the item's
      output, then a poll; a poll that finds the button pressed ends the loop as failed. */
  function Each(n: nat, emit: Emit, j: nat, next: nat, cancel: CancelOracle, polls: nat): Made
    decreases n - j
  {
    if j >= n then Made([], next, polls, true)
    else
      var here := emit(j, next);
      if cancel(polls) then Made(here.0, here.1, polls + 1, false)
      else
        var rest := Each(n, emit, j + 1, here.1, cancel, polls + 1);
        Made(here.0 + rest.created, rest.next, rest.polls, rest.ok)
  }

  /** A loop that has created `done` so far, and whose remaining items would make e, ends
      as goal does. */
  predicate Resumes(done: seq<Created>, e: Made, goal: Made)
  {
    done + e.created == goal.created && e.next == goal.next && e.polls == goal.polls && e.ok == goal.ok
  }

  /** Output appended in two steps is the same as the two pieces appended at once. */
  lemma AppendInTwoSteps<T>(before: seq<T>, first: seq<T>, second: seq<T>)
    ensures (before + first) + second == before + (first + second)
  {
  }

  /** One item of such a loop: after item j's output, a poll that finds the button pressed
      ends the loop where goal does, and otherwise the loop resumes at item j + 1. */
  lemma ResumeStep(done: seq<Created>, n: nat, emit: Emit, j: nat, next: nat, cancel: CancelOracle,
                   polls: nat, goal: Made)
    requires j < n && Resumes(done, Each(n, emit, j, next, cancel, polls), goal)
    ensures cancel(polls) ==>
              && done + emit(j, next).0 == goal.created && emit(j, next).1 == goal.next
              && polls + 1 == goal.polls && !goal.ok
    ensures !cancel(polls) ==>
              Resumes(done + emit(j, next).0, Each(n, emit, j + 1, emit(j, next).1, cancel, polls + 1), goal)
  {
    var here := emit(j, next);
    if !cancel(polls) {
      var rest := Each(n, emit, j + 1, here.1, cancel, polls + 1);
      assert done + (here.0 + rest.created) == (done + here.0) + rest.created;
    }
  }

  /** CreateLeaves' stage: every leaf drawn from s and meshed, from the given draw and poll
      count. */
  function LeafStage(v: Variant, ld: LeafData, s: Stream, leaves: seq<Leaf>, next: nat, cancel: CancelOracle, polls: nat): Made
    requires ValidStream(s)
  {
    Each(|leaves|, PerLeaf(LeafDrawer(v, ld, s), leaves), 0, next, cancel, polls)
  }

  // ----- The layer groups -----

  /** CreateTreeGroup's groups: `count` layers, each with a leaves group when the tree has
      leaves and a branches group when it is built as meshes. */
  function LayerGroups(count: int, hasLeaves: bool, asCurves: bool): seq<Layer>
  {
    seq(if count < 0 then 0 else count, _ => Layer(hasLeaves, !asCurves))
  }

  // ----- Branches -----

  /** The indices in [j, k) of the branches with more than one section, in ascending order:
      the branches CreateCurves and CreateMeshes give a node. */
  function LongBranches(bs: seq<Branch>, j: nat, k: nat): (ids: seq<nat>)
    requires j <= k <= |bs|
    ensures forall x :: 0 <= x < |ids| ==> j <= ids[x] < k && |bs[ids[x]].sections| > 1
    decreases k - j
  {
    if j == k then []
    else (if |bs[j].sections| > 1 then [j] else []) + LongBranches(bs, j + 1, k)
  }

  /** The loop body CreateCurves and CreateMeshes share: a branch with more than one section
      gets one node, made from the branch and its index; no draws are taken. */
  function PerLongBranch(bs: seq<Branch>, make: (Branch, nat) -> Created): Emit
  {
    (i: nat, next: nat) =>
      (if i < |bs| && |bs[i].sections| > 1 then [make(bs[i], i)] else [], next)
  }

  /** The nodes make gives the long branches in [j, k), in branch order. */
  function LongNodes(bs: seq<Branch>, make: (Branch, nat) -> Created, j: nat, k: nat): seq<Created>
    requires j <= k <= |bs|
    decreases k - j
  {
    if j == k then []
    else (if |bs[j].sections| > 1 then [make(bs[j], j)] else []) + LongNodes(bs, make, j + 1, k)
  }

  /** The edit points of a curve: the section positions, in order. */
  function Positions(ss: seq<Section>): (ps: seq<Float3>)
    ensures |ps| == |ss|
  {
    seq(|ss|, i requires 0 <= i < |ss| => ss[i].position)
  }

  /** CreateCurve: a curve through the branch's section positions, under its layer. */
  function CurveOf(b: Branch, i: nat): Created
  {
    BranchCurve(i, b.layer, Positions(b.sections))
  }

  /** CreateMesh on the disk of the branch's layer, capped when the branch has no children
      and capEnds is set. */
  function MeshFor(disks: seq<Disk>, bleed: real, capEnds: bool): (Branch, nat) -> Created
  {
    (b: Branch, i: nat) =>
      var disk := if 0 <= b.layer < |disks| then disks[b.layer].points else [];
      BranchMesh(i, b.layer, MeshOf(|b.sections|, disk, bleed, b.children == [] && capEnds))
  }

  // ----- Leaves -----

  /** How a leaf's shape is drawn from the next unused draw: the shape and the next unused
      draw after it. */
  type Drawer = nat -> (LeafShape, nat)

  /** CreateLeaf's draws over a random stream. */
  function LeafDrawer(v: Variant, ld: LeafData, s: Stream): Drawer
    requires ValidStream(s)
  {
    (next: nat) => DrawLeaf(v, ld, s, next)
  }

  /** CreateLeaves' loop body: leaf i is drawn from the next unused draws and gets one mesh. */
  function PerLeaf(draw: Drawer, leaves: seq<Leaf>): Emit
  {
    (i: nat, next: nat) =>
      if i < |leaves| then ([LeafMesh(i, leaves[i].layer, draw(next).0)], draw(next).1)
      else ([], next)
  }

  /** The draws one leaf takes: the spin, the width and the height, and two bends when the
      leaf is bent. */
  function LeafDraws(ld: LeafData): nat
  {
    if ld.bendAmount == 0.0 then 3 else 5
  }

  /** The meshes of `count` leaves from leaf j, each drawn in turn from the draws after
      the previous one's. */
  function LeafNodes(draw: Drawer, leaves: seq<Leaf>, j: nat, next: nat, count: nat): seq<Created>
    requires j + count <= |leaves|
    decreases count
  {
    if count == 0 then []
    else [LeafMesh(j, leaves[j].layer, draw(next).0)] + LeafNodes(draw, leaves, j + 1, draw(next).1, count - 1)
  }

  // ----- MeshTheTree -----

  /** CreateMeshes' disks as one sequence: the disk of each layer, and the trunk's alone when
      there are no layers. */
  function Disks(md: MeshData, layerCount: nat, circle: (nat, nat) -> Float3): (ds: seq<Disk>)
    ensures |ds| == if layerCount == 0 then 1 else layerCount
  {
    seq(if layerCount == 0 then 1 else layerCount, j requires 0 <= j => DiskOf(md, j, circle))
  }

  /** MeshTheTree's branch stage over `groups` layer groups: a curve for every long branch,
      or a mesh on the disk of its layer. */
  function BranchStage(bs: seq<Branch>, groups: nat, md: MeshData, bleed: real, circle: (nat, nat) -> Float3,
                       next: nat, cancel: CancelOracle, polls: nat): Made
  {
    if md.createAsCurves then Each(|bs|, PerLongBranch(bs, CurveOf), 0, next, cancel, polls)
    else Each(|bs|, PerLongBranch(bs, MeshFor(Disks(md, groups, circle), bleed, md.capEnds)), 0, next, cancel, polls)
  }

  /** MeshTheTree from its own poll on (the one after CreateTreeGroup's, whose answer is
      ignored): a cancel there stops before anything is made; otherwise the branch stage, and
      when it runs to the end and the tree has leaves, the leaf stage. */
  function Meshing(bs: seq<Branch>, leaves: seq<Leaf>, groups: nat, md: MeshData, hasLeaves: bool,
                   bleed: real, circle: (nat, nat) -> Float3, draw: Drawer,
                   next: nat, cancel: CancelOracle, polls: nat): Made
  {
    if cancel(polls) then Made([], next, polls + 1, false)
    else Stages(bs, leaves, groups, md, hasLeaves, bleed, circle, draw, next, cancel, polls + 1)
  }

  /** The branch stage and, when it runs to the end and the tree has leaves, the leaf stage. */
  function Stages(bs: seq<Branch>, leaves: seq<Leaf>, groups: nat, md: MeshData, hasLeaves: bool,
                  bleed: real, circle: (nat, nat) -> Float3, draw: Drawer,
                  next: nat, cancel: CancelOracle, polls: nat): Made
  {
    var b := BranchStage(bs, groups, md, bleed, circle, next, cancel, polls);
    if !b.ok || !hasLeaves then b
    else
      var l := Each(|leaves|, PerLeaf(draw, leaves), 0, b.next, cancel, b.polls);
      Made(b.created + l.created, l.next, l.polls, l.ok)
  }

  // ----- Lemmas -----

  /** The loop stops at the first poll that finds the button pressed: it runs to the end
      exactly when none of its n - j polls does, and it polls once per item it reaches. */
  lemma {:induction false} EachPolls(n: nat, emit: Emit, j: nat, next: nat, cancel: CancelOracle, polls: nat)
    requires j <= n
    ensures var e := Each(n, emit, j, next, cancel, polls);
            && polls <= e.polls <= polls + (n - j)
            && (e.ok <==> forall p :: polls <= p < polls + (n - j) ==> !cancel(p))
            && (e.ok ==> e.polls == polls + (n - j))
            && (!e.ok ==> polls < e.polls && cancel(e.polls - 1))
            && (forall p :: polls <= p < e.polls - 1 ==> !cancel(p))
    decreases n - j
  {
    if j < n && !cancel(polls) {
      EachPolls(n, emit, j + 1, emit(j, next).1, cancel, polls + 1);
    }
  }

  /** The long-branch indices are exactly those in [j, k) of branches with more than one
      section. */
  lemma {:induction false} LongBranchesExact(bs: seq<Branch>, j: nat, k: nat)
    requires j <= k <= |bs|
    ensures forall b :: b in LongBranches(bs, j, k) <==> j <= b < k && |bs[b].sections| > 1
    decreases k - j
  {
    if j < k {
      LongBranchesExact(bs, j + 1, k);
    }
  }

  /** The long-branch indices are in ascending order, so each appears once. */
  lemma {:induction false} LongBranchesAscending(bs: seq<Branch>, j: nat, k: nat)
    requires j <= k <= |bs|
    ensures forall x, y :: 0 <= x < y < |LongBranches(bs, j, k)| ==>
              LongBranches(bs, j, k)[x] < LongBranches(bs, j, k)[y]
    decreases k - j
  {
    if j < k {
      LongBranchesAscending(bs, j + 1, k);
      var ids := LongBranches(bs, j, k);
      var rest := LongBranches(bs, j + 1, k);
      var h := if |bs[j].sections| > 1 then 1 else 0;
      assert ids == (if h == 1 then [j] else []) + rest;
      forall x, y | 0 <= x < y < |ids|
        ensures ids[x] < ids[y]
      {
        assert ids[y] == rest[y - h];
        if x >= h {
          assert ids[x] == rest[x - h];
        } else {
          assert ids[x] == j;
        }
      }
    }
  }

  /** Extending the range by one branch adds that branch at the end when it is long. */
  lemma {:induction false} LongBranchesSnoc(bs: seq<Branch>, j: nat, k: nat)
    requires j <= k < |bs|
    ensures LongBranches(bs, j, k + 1) ==
              LongBranches(bs, j, k) + (if |bs[k].sections| > 1 then [k] else [])
    decreases k - j
  {
    if j < k {
      LongBranchesSnoc(bs, j + 1, k);
    }
  }

  /** CreateCurves' and CreateMeshes' loop from branch j creates one node for each long branch
      it reaches, in branch order, and takes no draws; run to the end, that is every long
      branch from j on. */
  lemma {:induction false} EachLongBranch(bs: seq<Branch>, make: (Branch, nat) -> Created, j: nat,
                                          next: nat, cancel: CancelOracle, polls: nat)
    requires j <= |bs|
    ensures var e := Each(|bs|, PerLongBranch(bs, make), j, next, cancel, polls);
            && polls <= e.polls <= polls + (|bs| - j) && e.next == next
            && e.created == LongNodes(bs, make, j, j + (e.polls - polls))
            && (e.ok ==> e.created == LongNodes(bs, make, j, |bs|))
    decreases |bs| - j
  {
    var emit := PerLongBranch(bs, make);
    EachPolls(|bs|, emit, j, next, cancel, polls);
    if j < |bs| {
      var here := if |bs[j].sections| > 1 then [make(bs[j], j)] else [];
      assert emit(j, next) == (here, next);
      if cancel(polls) {
        assert LongNodes(bs, make, j, j + 1) == here + [];
      } else {
        EachLongBranch(bs, make, j + 1, next, cancel, polls + 1);
      }
    }
  }

  /** Node x of LongNodes is make applied to long branch x of LongBranches. */
  lemma {:induction false} LongNodesAt(bs: seq<Branch>, make: (Branch, nat) -> Created, j: nat, k: nat)
    requires j <= k <= |bs|
    ensures |LongNodes(bs, make, j, k)| == |LongBranches(bs, j, k)|
    ensures forall x :: 0 <= x < |LongBranches(bs, j, k)| ==>
              LongNodes(bs, make, j, k)[x] == make(bs[LongBranches(bs, j, k)[x]], LongBranches(bs, j, k)[x])
    decreases k - j
  {
    if j < k {
      LongNodesAt(bs, make, j + 1, k);
      var ids := LongBranches(bs, j, k);
      var nodes := LongNodes(bs, make, j, k);
      var restIds := LongBranches(bs, j + 1, k);
      var restNodes := LongNodes(bs, make, j + 1, k);
      var h := if |bs[j].sections| > 1 then 1 else 0;
      assert ids == (if h == 1 then [j] else []) + restIds;
      assert nodes == (if h == 1 then [make(bs[j], j)] else []) + restNodes;
      forall x | 0 <= x < |ids|
        ensures nodes[x] == make(bs[ids[x]], ids[x])
      {
        if x >= h {
          assert ids[x] == restIds[x - h];
          assert nodes[x] == restNodes[x - h];
        } else {
          assert ids[x] == j;
        }
      }
    }
  }

  /** Node k of the loop's output is make applied to the k-th long branch it reached. */
  lemma LongBranchOutputs(bs: seq<Branch>, make: (Branch, nat) -> Created,
                          next: nat, cancel: CancelOracle, polls: nat, e: Made)
    requires e == Each(|bs|, PerLongBranch(bs, make), 0, next, cancel, polls)
    ensures polls <= e.polls <= polls + |bs|
    ensures |e.created| == |LongBranches(bs, 0, e.polls - polls)|
    ensures forall k :: 0 <= k < |e.created| ==>
              e.created[k] == make(bs[LongBranches(bs, 0, e.polls - polls)[k]], LongBranches(bs, 0, e.polls - polls)[k])
  {
    EachLongBranch(bs, make, 0, next, cancel, polls);
    LongNodesAt(bs, make, 0, e.polls - polls);
  }

  /** CreateCurves: every curve belongs to a branch with more than one section and runs through
      that branch's section positions in order, under its layer. */
  lemma CurvesFollowSections(bs: seq<Branch>, next: nat, cancel: CancelOracle, polls: nat)
    ensures var e := Each(|bs|, PerLongBranch(bs, CurveOf), 0, next, cancel, polls);
            forall k :: 0 <= k < |e.created| ==>
              var c := e.created[k];
              && c.BranchCurve? && c.branch < |bs| && |bs[c.branch].sections| > 1
              && c.layer == bs[c.branch].layer
              && |c.editPoints| == |bs[c.branch].sections|
              && forall i :: 0 <= i < |c.editPoints| ==> c.editPoints[i] == bs[c.branch].sections[i].position
  {
    var e := Each(|bs|, PerLongBranch(bs, CurveOf), 0, next, cancel, polls);
    LongBranchOutputs(bs, CurveOf, next, cancel, polls, e);
    var ids := LongBranches(bs, 0, e.polls - polls);
    forall k | 0 <= k < |e.created|
      ensures var c := e.created[k];
              && c.BranchCurve? && c.branch < |bs| && |bs[c.branch].sections| > 1
              && c.layer == bs[c.branch].layer
              && |c.editPoints| == |bs[c.branch].sections|
              && forall i :: 0 <= i < |c.editPoints| ==> c.editPoints[i] == bs[c.branch].sections[i].position
    {
      var b := ids[k];
      assert e.created[k] == CurveOf(bs[b], b);
    }
  }

  /** CreateMeshes: every mesh belongs to a branch with more than one section, is built on the
      disk of that branch's layer, capped exactly when the branch has no children and capEnds
      is set, and is a mesh Maya accepts. */
  lemma MeshesOnLayerDisks(bs: seq<Branch>, disks: seq<Disk>, bleed: real, capEnds: bool,
                           next: nat, cancel: CancelOracle, polls: nat)
    requires forall b :: 0 <= b < |bs| ==> 0 <= bs[b].layer < |disks|
    ensures var e := Each(|bs|, PerLongBranch(bs, MeshFor(disks, bleed, capEnds)), 0, next, cancel, polls);
            forall k :: 0 <= k < |e.created| ==>
              var c := e.created[k];
              && c.BranchMesh? && c.branch < |bs| && |bs[c.branch].sections| > 1
              && c.layer == bs[c.branch].layer
              && c.mesh == MeshOf(|bs[c.branch].sections|, disks[c.layer].points, bleed,
                                  bs[c.branch].children == [] && capEnds)
              && MeshValid(c.mesh)
  {
    var make := MeshFor(disks, bleed, capEnds);
    var e := Each(|bs|, PerLongBranch(bs, make), 0, next, cancel, polls);
    LongBranchOutputs(bs, make, next, cancel, polls, e);
    var ids := LongBranches(bs, 0, e.polls - polls);
    forall k | 0 <= k < |e.created|
      ensures var c := e.created[k];
              && c.BranchMesh? && c.branch < |bs| && |bs[c.branch].sections| > 1
              && c.layer == bs[c.branch].layer
              && c.mesh == MeshOf(|bs[c.branch].sections|, disks[c.layer].points, bleed,
                                  bs[c.branch].children == [] && capEnds)
              && MeshValid(c.mesh)
    {
      var b := ids[k];
      var m := MeshOf(|bs[b].sections|, disks[bs[b].layer].points, bleed, bs[b].children == [] && capEnds);
      assert e.created[k] == make(bs[b], b) == BranchMesh(b, bs[b].layer, m);
      MeshOfValid(|bs[b].sections|, disks[bs[b].layer].points, bleed, bs[b].children == [] && capEnds);
    }
  }

  /** CreateLeaves' loop from leaf j makes one mesh per leaf it reaches, and each leaf takes
      d draws. */
  lemma {:induction false} LeavesCount(draw: Drawer, d: nat, leaves: seq<Leaf>, j: nat,
                                       next: nat, cancel: CancelOracle, polls: nat)
    requires forall n: nat :: draw(n).1 == n + d
    requires j <= |leaves|
    ensures var e := Each(|leaves|, PerLeaf(draw, leaves), j, next, cancel, polls);
            && |e.created| == e.polls - polls <= |leaves| - j
            && e.next == next + |e.created| * d
    decreases |leaves| - j
  {
    var emit := PerLeaf(draw, leaves);
    if j < |leaves| {
      var here := LeafMesh(j, leaves[j].layer, draw(next).0);
      assert emit(j, next) == ([here], next + d);
      if !cancel(polls) {
        var rest := Each(|leaves|, emit, j + 1, next + d, cancel, polls + 1);
        LeavesCount(draw, d, leaves, j + 1, next + d, cancel, polls + 1);
        assert Each(|leaves|, emit, j, next, cancel, polls)
            == Made([here] + rest.created, rest.next, rest.polls, rest.ok);
        MulStep(|rest.created|, d);
      }
    }
  }

  /** CreateLeaves' loop from leaf j makes the meshes of the leaves it reaches, in order. */
  lemma {:induction false} LeavesInOrder(draw: Drawer, leaves: seq<Leaf>, j: nat,
                                         next: nat, cancel: CancelOracle, polls: nat)
    requires j <= |leaves|
    ensures var e := Each(|leaves|, PerLeaf(draw, leaves), j, next, cancel, polls);
            && polls <= e.polls && j + (e.polls - polls) <= |leaves|
            && e.created == LeafNodes(draw, leaves, j, next, e.polls - polls)
    decreases |leaves| - j
  {
    var emit := PerLeaf(draw, leaves);
    if j < |leaves| {
      var here := LeafMesh(j, leaves[j].layer, draw(next).0);
      assert emit(j, next) == ([here], draw(next).1);
      var e := Each(|leaves|, emit, j, next, cancel, polls);
      if cancel(polls) {
        assert e == Made([here], draw(next).1, polls + 1, false);
        assert LeafNodes(draw, leaves, j, next, 1) == [here] + [];
      } else {
        var rest := Each(|leaves|, emit, j + 1, draw(next).1, cancel, polls + 1);
        LeavesInOrder(draw, leaves, j + 1, draw(next).1, cancel, polls + 1);
        assert e == Made([here] + rest.created, rest.next, rest.polls, rest.ok);
        assert LeafNodes(draw, leaves, j, next, rest.polls - polls)
            == [here] + LeafNodes(draw, leaves, j + 1, draw(next).1, rest.polls - (polls + 1));
      }
    }
  }

  /** Mesh k of LeafNodes is leaf j + k's, under that leaf's layer, with the shape drawn from
      next + k * d. */
  lemma {:induction false} LeafNodesAt(draw: Drawer, d: nat, leaves: seq<Leaf>, j: nat,
                                       next: nat, count: nat)
    requires forall n: nat :: draw(n).1 == n + d
    requires j + count <= |leaves|
    ensures |LeafNodes(draw, leaves, j, next, count)| == count
    ensures forall k :: 0 <= k < count ==>
              LeafNodes(draw, leaves, j, next, count)[k]
                == LeafMesh(j + k, leaves[j + k].layer, draw(next + k * d).0)
    decreases count
  {
    if count > 0 {
      LeafNodesAt(draw, d, leaves, j + 1, next + d, count - 1);
      var nodes := LeafNodes(draw, leaves, j, next, count);
      var rest := LeafNodes(draw, leaves, j + 1, next + d, count - 1);
      assert nodes == [LeafMesh(j, leaves[j].layer, draw(next).0)] + rest;
      forall k | 1 <= k < count
        ensures nodes[k] == LeafMesh(j + k, leaves[j + k].layer, draw(next + k * d).0)
      {
        assert nodes[k] == rest[k - 1];
        MulStep(k - 1, d);
      }
    }
  }

  /** CreateLeaves: the loop makes one mesh per leaf it reaches, in leaf order, each under
      its leaf's layer and shaped by the d draws after the previous leaf's; run to the end,
      every leaf has its mesh. */
  lemma LeavesDrawnInTurn(draw: Drawer, d: nat, leaves: seq<Leaf>,
                          next: nat, cancel: CancelOracle, polls: nat, e: Made)
    requires forall n: nat :: draw(n).1 == n + d
    requires e == Each(|leaves|, PerLeaf(draw, leaves), 0, next, cancel, polls)
    ensures |e.created| == e.polls - polls <= |leaves|
    ensures e.ok ==> |e.created| == |leaves|
    ensures e.next == next + |e.created| * d
    ensures forall k :: 0 <= k < |e.created| ==>
              e.created[k] == LeafMesh(k, leaves[k].layer, draw(next + k * d).0)
  {
    EachPolls(|leaves|, PerLeaf(draw, leaves), 0, next, cancel, polls);
    LeavesCount(draw, d, leaves, 0, next, cancel, polls);
    LeavesInOrder(draw, leaves, 0, next, cancel, polls);
    LeafNodesAt(draw, d, leaves, 0, next, e.polls - polls);
  }

  /** Drawing over a stream is CreateLeaf's DrawLeaf, and each leaf takes LeafDraws draws. */
  lemma LeafDrawerTakes(v: Variant, ld: LeafData, s: Stream)
    requires ValidStream(s)
    ensures forall n: nat :: LeafDrawer(v, ld, s)(n) == DrawLeaf(v, ld, s, n)
    ensures forall n: nat :: LeafDrawer(v, ld, s)(n).1 == n + LeafDraws(ld)
  {
    forall n: nat
      ensures LeafDrawer(v, ld, s)(n).1 == n + LeafDraws(ld)
    {
      assert LeafDrawer(v, ld, s)(n) == DrawLeaf(v, ld, s, n);
    }
  }

  /** Every branch and leaf layer of a built skeleton lies between 0 and the deepest layer
      the walk saw, which is never negative; leaves are never on the trunk's layer 0. So
      CreateTreeGroup's groups, one more than the deepest layer, cover them all. */
  lemma BuiltLayersInRange(c: Config, rule: string, maxLayers: int, next: nat, polls: nat)
    requires ValidStream(c.stream) && maxLayers >= 0
    ensures var st := Build(c, rule, maxLayers, next, polls).st;
            && st.maxLayers >= 0
            && (forall b :: 0 <= b < |st.branches| ==> 0 <= st.branches[b].layer <= st.maxLayers)
            && (forall i :: 0 <= i < |st.leaves| ==> 1 <= st.leaves[i].layer <= st.maxLayers)
  {
    BuildWF(c, rule, maxLayers, next, polls);
    var st := Build(c, rule, maxLayers, next, polls).st;
    assert 0 <= st.branches[0].layer <= st.maxLayers;
  }

  /** The branch stage takes no draws, polls once per branch it reaches, and run to the end
      has made one node per long branch. */
  lemma BranchStageResult(bs: seq<Branch>, groups: nat, md: MeshData, bleed: real,
                          circle: (nat, nat) -> Float3, next: nat, cancel: CancelOracle, polls: nat, b: Made)
    requires b == BranchStage(bs, groups, md, bleed, circle, next, cancel, polls)
    ensures b.next == next && polls <= b.polls <= polls + |bs|
    ensures b.ok <==> forall p :: polls <= p < polls + |bs| ==> !cancel(p)
    ensures b.ok ==> b.polls == polls + |bs| && |b.created| == |LongBranches(bs, 0, |bs|)|
    ensures !b.ok ==> polls < b.polls && cancel(b.polls - 1)
  {
    var make := if md.createAsCurves then CurveOf
                else MeshFor(Disks(md, groups, circle), bleed, md.capEnds);
    assert b == Each(|bs|, PerLongBranch(bs, make), 0, next, cancel, polls);
    EachPolls(|bs|, PerLongBranch(bs, make), 0, next, cancel, polls);
    EachLongBranch(bs, make, 0, next, cancel, polls);
    LongNodesAt(bs, make, 0, |bs|);
  }

  /** MeshTheTree succeeds exactly when none of its polls finds the button pressed; a failure
      is the poll that found it. On success it has polled once, then once per branch and,
      with leaves, once per leaf; it has made a node for every long branch then a mesh for
      every leaf, and taken d draws per leaf. */
  lemma MeshingResult(bs: seq<Branch>, leaves: seq<Leaf>, groups: nat, md: MeshData, hasLeaves: bool,
                      bleed: real, circle: (nat, nat) -> Float3, draw: Drawer, d: nat,
                      next: nat, cancel: CancelOracle, polls: nat, m: Made)
    requires forall n: nat :: draw(n).1 == n + d
    requires m == Meshing(bs, leaves, groups, md, hasLeaves, bleed, circle, draw, next, cancel, polls)
    ensures polls < m.polls
    ensures m.ok <==> forall p :: polls <= p < m.polls ==> !cancel(p)
    ensures m.ok ==> m.polls == polls + 1 + |bs| + (if hasLeaves then |leaves| else 0)
    ensures m.ok ==> |m.created| == |LongBranches(bs, 0, |bs|)| + (if hasLeaves then |leaves| else 0)
    ensures m.ok ==> m.next == next + (if hasLeaves then |leaves| * d else 0)
  {
    if !cancel(polls) {
      var b := BranchStage(bs, groups, md, bleed, circle, next, cancel, polls + 1);
      BranchStageResult(bs, groups, md, bleed, circle, next, cancel, polls + 1, b);
      if b.ok && hasLeaves {
        var l := Each(|leaves|, PerLeaf(draw, leaves), 0, b.next, cancel, b.polls);
        EachPolls(|leaves|, PerLeaf(draw, leaves), 0, b.next, cancel, b.polls);
        LeavesDrawnInTurn(draw, d, leaves, b.next, cancel, b.polls, l);
      }
    }
  }
}
