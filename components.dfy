/** The plain records the generator works with (src/treeComponents.h). Maya handles
    (MObject, MString names) and the rotation/scale matrices cached on a branch are not
    modelled; a turtle's world matrix is kept as an opaque Pose. */
module TreeComponents {

  /** Unsigned 32-bit integers, as the source's `unsigned` fields. */
  type uint32 = x: int | 0 <= x < 0x1_0000_0000

  /** Conversion of an unsigned value to a 32-bit signed int (static_cast<int>), two's complement. */
  function AsInt32(u: uint32): (i: int)
    ensures -0x8000_0000 <= i < 0x8000_0000
    ensures u < 0x8000_0000 <==> i == u
    ensures i == u || i == u - 0x1_0000_0000
  {
    if u < 0x8000_0000 then u else u - 0x1_0000_0000
  }

  datatype Float3 = Float3(x: real, y: real, z: real)
  {
    function Minus(other: Float3): Float3
    {
      Float3(x - other.x, y - other.y, z - other.z)
    }
  }

  const Origin: Float3 := Float3(0.0, 0.0, 0.0)

  /** A turtle's world transform. The rotation part is opaque to this model: it is only
      ever produced and consumed by the geometry supplied to the interpreter. */
  datatype Pose = Pose(position: Float3, right: Float3, up: Float3, forward: Float3)

  /** The identity world matrix a default-constructed turtle starts from. */
  const IdentityPose: Pose :=
    Pose(Origin, Float3(1.0, 0.0, 0.0), Float3(0.0, 1.0, 0.0), Float3(0.0, 0.0, 1.0))

  /** Shading data for the tree and leaves. */
  datatype ShadingData = ShadingData(
    lightcolorR: real, lightcolorB: real, lightcolorG: real,
    darkcolorR: real, darkcolorB: real, darkcolorG: real,
    bumpAmount: real, uvBleedSpace: real,
    createTreeShader: bool, createLeafShader: bool, createBump: bool)

  /** ShadingData's constructor: note that it takes colours in R, G, B order while the
      record declares R, B, G; each argument lands in its own channel. */
  function NewShadingData(lightR: real, lightG: real, lightB: real, darkR: real, darkG: real,
                          darkB: real, usetreeShader: bool, useleafshader: bool, bump: bool,
                          bumpAmount: real, bleedAmount: real): (d: ShadingData)
    ensures d.lightcolorR == lightR && d.lightcolorG == lightG && d.lightcolorB == lightB
    ensures d.darkcolorR == darkR && d.darkcolorG == darkG && d.darkcolorB == darkB
    ensures d.createTreeShader == usetreeShader && d.createLeafShader == useleafshader
    ensures d.createBump == bump && d.bumpAmount == bumpAmount && d.uvBleedSpace == bleedAmount
  {
    ShadingData(lightR, lightB, lightG, darkR, darkB, darkG, bumpAmount, bleedAmount,
                usetreeShader, useleafshader, bump)
  }

  /** Rule data for the overall tree. */
  datatype TreeData = TreeData(
    initialRadius: real, branchRadiusDecrease: real, minimumRadius: real,
    branchDeathProbability: uint32, rule: string)

  /** TreeData's constructor stores the four shape parameters and leaves the rule string empty. */
  function NewTreeData(radius: real, radiusDecrease: real, minRadius: real, deathProbability: uint32): (d: TreeData)
    ensures d.initialRadius == radius && d.branchRadiusDecrease == radiusDecrease
    ensures d.minimumRadius == minRadius && d.branchDeathProbability == deathProbability
    ensures d.rule == []
  {
    TreeData(radius, radiusDecrease, minRadius, deathProbability, "")
  }

  /** Parameters of one class of branch (the trunk style or the branch style); the positional
      constructor stores forward, forwardAngle, forwardVariance, angle, angleVariance and
      radiusDecrease in that order. */
  datatype BranchData = BranchData(
    forward: real, forwardAngle: real, forwardVariance: real,
    angle: real, angleVariance: real, radiusDecrease: real)

  /** BranchData's constructor: each of the six arguments lands in its own field. */
  function NewBranchData(forwardAmount: real, forward_angle: real, forward_variance: real,
                         branchAngle: real, branchAngleVariance: real, radius_decrease: real): (d: BranchData)
    ensures d.forward == forwardAmount && d.forwardAngle == forward_angle
    ensures d.forwardVariance == forward_variance
    ensures d.angle == branchAngle && d.angleVariance == branchAngleVariance
    ensures d.radiusDecrease == radius_decrease
  {
    BranchData(forwardAmount, forward_angle, forward_variance, branchAngle, branchAngleVariance, radius_decrease)
  }

  /** Mesh configuration; maxLayers tracks the deepest branch layer seen. */
  datatype MeshData = MeshData(
    maxLayers: int, preview: bool, capEnds: bool, createAsCurves: bool, randomize: bool,
    trunkfaces: uint32, branchfaces: uint32, faceDecrease: uint32)

  /** MeshData's constructor: maxLayers always starts at 0, everything else as given. */
  function NewMeshData(numTrunkFaces: uint32, numBranchFaces: uint32, numFaceDecrease: uint32,
                       useCurves: bool, capBranchEnds: bool, randomizeTree: bool, previewTree: bool): (d: MeshData)
    ensures d.maxLayers == 0
    ensures d.trunkfaces == numTrunkFaces && d.branchfaces == numBranchFaces && d.faceDecrease == numFaceDecrease
    ensures d.createAsCurves == useCurves && d.capEnds == capBranchEnds
    ensures d.randomize == randomizeTree && d.preview == previewTree
  {
    MeshData(0, previewTree, capBranchEnds, useCurves, randomizeTree, numTrunkFaces, numBranchFaces, numFaceDecrease)
  }

  /** Leaf configuration. */
  datatype LeafData = LeafData(
    leafshadername: string, leafLayer: uint32, treeHasLeaves: bool,
    width: real, height: real, widthVariance: real, heightVariance: real,
    bendAmount: real, file: string)

  /** LeafData's constructor stores each argument unchanged; the shader name and texture
      file start empty. */
  function NewLeafData(leafTree: bool, leafWidth: real, leafHeight: real, leafWidthVariance: real,
                       leafHeightVariance: real, bend: real, layerNumber: uint32): (d: LeafData)
    ensures d.treeHasLeaves == leafTree && d.leafLayer == layerNumber && d.bendAmount == bend
    ensures d.width == leafWidth && d.height == leafHeight
    ensures d.widthVariance == leafWidthVariance && d.heightVariance == leafHeightVariance
    ensures d.leafshadername == [] && d.file == []
  {
    LeafData("", layerNumber, leafTree, leafWidth, leafHeight, leafWidthVariance, leafHeightVariance, bend, "")
  }

  /** One sampled point along a branch's centre line. */
  datatype Section = Section(position: Float3, radius: real)

  /** A branch: its layer, parent link, the index of the parent's section it grew from,
      its vertex count once meshed, its sections and its children (indices into the same
      branch collection). */
  datatype Branch = Branch(
    parentIndex: int, sectionIndex: int, layer: int, vertNumber: int,
    sections: seq<Section>, children: seq<int>)

  /** Branch's default constructor. */
  function NewBranch(): (b: Branch)
    ensures b.parentIndex == -1 && b.sectionIndex == -1 && b.layer == 0 && b.vertNumber == 0
    ensures b.sections == [] && b.children == []
  {
    Branch(-1, -1, 0, 0, [], [])
  }

  /** A leaf anchored on a branch section. */
  datatype Leaf = Leaf(layer: int, position: Float3, sectionAxis: Float3, sectionRadius: real)

  /** Leaf's constructor records position, axis, layer and radius unchanged. */
  function NewLeaf(pos: Float3, axis: Float3, layerIndex: int, radius: real): (l: Leaf)
    ensures l.position == pos && l.sectionAxis == axis
    ensures l.layer == layerIndex && l.sectionRadius == radius
  {
    Leaf(layerIndex, pos, axis, radius)
  }

  /** The cursor that walks the command string. */
  datatype Turtle = Turtle(
    world: Pose, radius: real, branchIndex: int, sectionIndex: int,
    branchParent: int, layerIndex: int, branchEnded: bool)

  /** Turtle's default constructor. */
  function NewTurtle(): (t: Turtle)
    ensures t.world == IdentityPose && t.radius == 0.0
    ensures t.branchIndex == -1 && t.sectionIndex == -1 && t.branchParent == 0
    ensures t.layerIndex == 0 && !t.branchEnded
  {
    Turtle(IdentityPose, 0.0, -1, -1, 0, 0, false)
  }

  /** The ring of unit-circle points one mesh layer is built from. */
  datatype Disk = Disk(points: seq<Float3>)

  /** The Maya groups created for one layer of the tree: the layer group always, a leaves
      group when the tree has leaves and a branches group when it is built as meshes. */
  datatype Layer = Layer(hasLeavesGroup: bool, hasBranchesGroup: bool)
}
