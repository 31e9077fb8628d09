/** The leaf mesh: one fixed template of faces and UVs, shared by every leaf (CreateLeaves),
    and the per-leaf draws that size and bend it (CreateLeaf). Rotating the template about the
    section axis and pushing it out of the branch are geometry and are not modelled. */
module Leaves {
  import opened TreeComponents
  import opened Randomness
  import opened Mesh
  import opened TreeHelpers

  /** The arrays every leaf mesh shares: vertex count, faces (polycount = length), UVs and
      the UV ids of each face corner. */
  datatype LeafTemplate = LeafTemplate(
    vertexCount: nat, faces: seq<seq<int>>, u: seq<real>, v: seq<real>, uvFaces: seq<seq<int>>)

  /** A flat leaf is one quad over four vertices with UVs at the exact texture corners (the
      bleed is ignored); a bent leaf is two quads over six vertices in three rows, with UVs
      inset by the bleed and the middle row at v = 0.5. */
  function Template(bendAmount: real, bleed: real): LeafTemplate
  {
    if bendAmount == 0.0 then
      LeafTemplate(4, [[0, 1, 3, 2]],
                   [0.0, 1.0, 1.0, 0.0], [0.0, 0.0, 1.0, 1.0],
                   [[0, 1, 2, 3]])
    else
      LeafTemplate(6, [[0, 1, 3, 2], [2, 3, 5, 4]],
                   [0.0 + bleed, 1.0 - bleed, 1.0 - bleed, 0.0 + bleed, 1.0 - bleed, 0.0 + bleed],
                   [0.0 + bleed, 0.0 + bleed, 0.5, 0.5, 1.0 - bleed, 1.0 - bleed],
                   [[0, 1, 2, 3], [3, 2, 4, 5]])
  }

  /** The number of vertex rows of the template: two for a flat leaf, three for a bent one. */
  function Rows(bendAmount: real): nat
  {
    if bendAmount == 0.0 then 2 else 3
  }

  /** The u of the template's left (column 0) and right (column 1) edge. */
  function ColumnU(bendAmount: real, bleed: real, column: nat): real
  {
    var inset := if bendAmount == 0.0 then 0.0 else bleed;
    if column == 0 then inset else 1.0 - inset
  }

  /** The v of row r: 0 and 1 for a flat leaf; bleed, 0.5 and 1 - bleed for a bent one. */
  function RowV(bendAmount: real, bleed: real, row: nat): real
  {
    if bendAmount == 0.0 then (if row == 0 then 0.0 else 1.0)
    else if row == 0 then bleed else if row == 1 then 0.5 else 1.0 - bleed
  }

  /** The sizes and bends CreateLeaf draws for one leaf. */
  datatype LeafShape = LeafShape(angle: int, width: real, height: real, bends: seq<real>)

  /** CreateLeaf's draws, in order: the spin about the section axis in whole degrees, the
      width and the height varied by their variances, and for a bent leaf the bends of the
      two middle vertices. Returns the shape and the next unused draw. */
  function DrawLeaf(v: Variant, ld: LeafData, s: Stream, next: nat): (r: (LeafShape, nat))
    requires ValidStream(s)
    ensures r.1 == next + (if ld.bendAmount == 0.0 then 3 else 5)
    ensures -360 <= r.0.angle <= 360
    ensures ld.width - Abs(ld.widthVariance) <= r.0.width <= ld.width + Abs(ld.widthVariance)
    ensures ld.height - Abs(ld.heightVariance) <= r.0.height <= ld.height + Abs(ld.heightVariance)
    ensures |r.0.bends| == (if ld.bendAmount == 0.0 then 0 else 2)
    ensures forall k :: 0 <= k < |r.0.bends| ==> -Abs(ld.bendAmount) <= r.0.bends[k] <= Abs(ld.bendAmount)
  {
    var angle := Degrees(v, s(next));
    var width := Vary(ld.width, ld.widthVariance, Unit(v, s(next + 1)));
    var height := Vary(ld.height, ld.heightVariance, Unit(v, s(next + 2)));
    if ld.bendAmount == 0.0 then (LeafShape(angle, width, height, []), next + 3)
    else
      var bends := [Spread(ld.bendAmount, Unit(v, s(next + 3))), Spread(ld.bendAmount, Unit(v, s(next + 4)))];
      (LeafShape(angle, width, height, bends), next + 5)
  }

  /** The template's vertices before rotation: vertex k sits in column k % 2 (left at
      -width/2, right at width/2) and row k / 2 (z from 0 up to the height); the middle row
      of a bent leaf is lifted by the drawn bends. */
  function TemplateVertices(shape: LeafShape, bendAmount: real): seq<Float3>
    requires bendAmount != 0.0 ==> |shape.bends| == 2
  {
    var w := shape.width;
    var h := shape.height;
    if bendAmount != 0.0 then
      [Float3(-(w / 2.0), 0.0, 0.0), Float3(w / 2.0, 0.0, 0.0),
       Float3(-(w / 2.0), shape.bends[0], h / 2.0), Float3(w / 2.0, shape.bends[1], h / 2.0),
       Float3(-(w / 2.0), 0.0, h), Float3(w / 2.0, 0.0, h)]
    else
      [Float3(-(w / 2.0), 0.0, 0.0), Float3(w / 2.0, 0.0, 0.0),
       Float3(-(w / 2.0), 0.0, h), Float3(w / 2.0, 0.0, h)]
  }

  // ----- Lemmas -----

  /** The template is a mesh Maya accepts: one v per u and one UV per vertex, four-cornered
      faces with matching UV faces, and every id in range; one face flat, two bent. */
  lemma TemplateValid(bendAmount: real, bleed: real)
    ensures var t := Template(bendAmount, bleed);
            && |t.u| == |t.v| == t.vertexCount == 2 * Rows(bendAmount)
            && |t.faces| == Rows(bendAmount) - 1
            && FacesIn(t.faces, t.uvFaces, t.vertexCount, |t.u|)
  {
  }

  /** Every face corner gets the UV at its own place on the texture: the UV of a corner on
      vertex k has the u of column k % 2 and the v of row k / 2. So the texture is neither
      mirrored nor flipped on either face. */
  lemma TemplateCornersAgree(bendAmount: real, bleed: real)
    ensures var t := Template(bendAmount, bleed);
            forall f, k :: 0 <= f < |t.faces| && 0 <= k < |t.faces[f]| ==>
              var vid := t.faces[f][k];
              var uid := t.uvFaces[f][k];
              && 0 <= vid < t.vertexCount && 0 <= uid < |t.u|
              && t.u[uid] == ColumnU(bendAmount, bleed, vid % 2)
              && t.v[uid] == RowV(bendAmount, bleed, vid / 2)
  {
  }

  /** Vertex k of the template is in column k % 2 and row k / 2 of a grid whose columns are
      width apart and whose rows evenly split the height. */
  lemma TemplateVertexGrid(shape: LeafShape, bendAmount: real)
    requires bendAmount != 0.0 ==> |shape.bends| == 2
    ensures |TemplateVertices(shape, bendAmount)| == 2 * Rows(bendAmount)
    ensures forall k :: 0 <= k < 2 * Rows(bendAmount) ==>
              var p := TemplateVertices(shape, bendAmount)[k];
              && p.x == (if k % 2 == 0 then -(shape.width / 2.0) else shape.width / 2.0)
              && p.z * (Rows(bendAmount) - 1) as real == (k / 2) as real * shape.height
  {
    forall k | 0 <= k < 2 * Rows(bendAmount)
      ensures var p := TemplateVertices(shape, bendAmount)[k];
              && p.x == (if k % 2 == 0 then -(shape.width / 2.0) else shape.width / 2.0)
              && p.z * (Rows(bendAmount) - 1) as real == (k / 2) as real * shape.height
    {
      assert k == 0 || k == 1 || k == 2 || k == 3 || k == 4 || k == 5;
    }
  }

  /** The UVs stay on the texture: with a bleed in [0, 0.5] every coordinate is in [0, 1]. */
  lemma TemplateUVsOnTexture(bendAmount: real, bleed: real)
    requires 0.0 <= bleed <= 0.5
    ensures var t := Template(bendAmount, bleed);
            forall k :: 0 <= k < |t.u| ==> 0.0 <= t.u[k] <= 1.0 && 0.0 <= t.v[k] <= 1.0
  {
  }
}
