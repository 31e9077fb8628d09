/** The topology of a branch mesh (CreateMesh, src/treeGenerator.cpp and its legacy twin) and
    the disks it is built from (CreateMeshes). Vertex positions come from rotation and scale
    matrices and are not modelled: a vertex is named by the ring and disk point it stands on.
    The flat arrays Maya receives are kept one face at a time: a face lists its vertex ids
    (their count is the face's polycount) and, in uvFaces, its UV ids in the same order. */
module Mesh {
  import opened TreeComponents
  import opened TreeHelpers

  /** Ring vertex `point` of the ring around section `ring`, or the centre of the end cap. */
  datatype Vertex = RingVertex(ring: nat, point: nat) | Centre

  datatype MeshArrays = MeshArrays(
    vertices: seq<Vertex>, faces: seq<seq<int>>, u: seq<real>, v: seq<real>, uvFaces: seq<seq<int>>)

  /** Faces whose corners are vertex ids below nv, each with a UV face of the same length
      whose ids are below nuv: what Maya's create and assignUVs need of the face arrays. */
  predicate FacesIn(faces: seq<seq<int>>, uvFaces: seq<seq<int>>, nv: int, nuv: int)
  {
    && |faces| == |uvFaces|
    && (forall f :: 0 <= f < |faces| ==> |faces[f]| >= 3 && |uvFaces[f]| == |faces[f]|)
    && (forall f, k :: 0 <= f < |faces| && 0 <= k < |faces[f]| ==> 0 <= faces[f][k] < nv)
    && (forall f, k :: 0 <= f < |uvFaces| && 0 <= k < |uvFaces[f]| ==> 0 <= uvFaces[f][k] < nuv)
  }

  /** A mesh Maya accepts: one u for each v, and faces within the vertex and UV arrays. */
  predicate MeshValid(m: MeshArrays)
  {
    |m.u| == |m.v| && FacesIn(m.faces, m.uvFaces, |m.vertices|, |m.u|)
  }

  // ----- Disks -----

  /** The number of points on the disk of layer j: the trunk's face count on layer 0; on deeper
      layers branchfaces - faceDecrease * j, computed in unsigned 32-bit arithmetic, read back
      as a signed int and raised to at least 3. */
  function FaceCount(md: MeshData, j: nat): (f: nat)
    ensures j == 0 ==> f == md.trunkfaces
    ensures j > 0 ==> f >= 3
  {
    if j == 0 then md.trunkfaces
    else
      var product := (md.faceDecrease * j) % 0x1_0000_0000;
      var n := AsInt32((md.branchfaces - product) % 0x1_0000_0000);
      if n < 3 then 3 else n
  }

  /** With a face count below 2^31 and a total decrease of at most 2^31, the wrap-around
      never shows: a branch layer gets max(3, branchfaces - faceDecrease * j) faces. */
  lemma FaceCountNoWrap(md: MeshData, j: nat)
    requires j > 0 && md.branchfaces < 0x8000_0000 && md.faceDecrease * j <= 0x8000_0000
    ensures FaceCount(md, j) == if md.branchfaces - md.faceDecrease * j < 3 then 3
                                else md.branchfaces - md.faceDecrease * j
  {
    var d := md.faceDecrease * j;
    assert (md.faceDecrease * j) % 0x1_0000_0000 == d;
    if md.branchfaces < d {
      assert (md.branchfaces - d) % 0x1_0000_0000 == md.branchfaces - d + 0x1_0000_0000;
    }
  }

  /** The disk of layer j: FaceCount(md, j) points, point i being `circle(i, n)`, the point at
      i/n of a turn round the unit circle (the cos/sin arithmetic is not modelled). */
  function DiskOf(md: MeshData, j: nat, circle: (nat, nat) -> Float3): (d: Disk)
    ensures |d.points| == FaceCount(md, j)
  {
    var n := FaceCount(md, j);
    Disk(seq(n, i requires 0 <= i => circle(i, n)))
  }

  /** CreateMeshes' disks: disk 0 for the trunk, then one per further layer. */
  method CreateDisks(md: MeshData, layerCount: nat, circle: (nat, nat) -> Float3) returns (disks: seq<Disk>)
    ensures |disks| == if layerCount == 0 then 1 else layerCount
    ensures forall j :: 0 <= j < |disks| ==> disks[j] == DiskOf(md, j, circle)
  {
    var points: seq<Float3> := [];
    var i := 0;
    while i < md.trunkfaces
      invariant 0 <= i <= md.trunkfaces
      invariant points == seq(i, k requires 0 <= k => circle(k, md.trunkfaces))
    {
      points := points + [circle(i, md.trunkfaces)];
      i := i + 1;
    }
    disks := [Disk(points)];
    var j := 1;
    while j < layerCount
      invariant 1 <= j <= if layerCount == 0 then 1 else layerCount
      invariant |disks| == j
      invariant forall k :: 0 <= k < j ==> disks[k] == DiskOf(md, k, circle)
    {
      var facenumber := AsInt32((md.branchfaces - (md.faceDecrease * j) % 0x1_0000_0000) % 0x1_0000_0000);
      if facenumber < 3 {
        facenumber := 3;
      }
      points := [];
      i := 0;
      while i < facenumber
        invariant 0 <= i <= facenumber
        invariant points == seq(i, k requires 0 <= k => circle(k, facenumber))
      {
        points := points + [circle(i, facenumber)];
        i := i + 1;
      }
      disks := disks + [Disk(points)];
      j := j + 1;
    }
  }

  // ----- Rings of vertices, quads and UVs -----

  /** The vertices of the first n rings, ring by ring, each with F points. */
  function Rings(F: nat, n: nat): (vs: seq<Vertex>)
    ensures |vs| == n * F
  {
    if n == 0 then [] else Rings(F, n - 1) + seq(F, j requires 0 <= j => RingVertex(n - 1, j))
  }

  /** Quad j between ring i and ring i - 1, corners in the order the source appends them. */
  function Quad(i: nat, j: nat, F: nat): seq<int>
  {
    var s := i * F;
    var p := (i - 1) * F;
    var index := s + j;
    var past := p + j;
    [index, if index + 1 == s + F then s else index + 1,
     if past + 1 == p + F then p else past + 1, past]
  }

  /** The UV ids of quad j: each ring has F + 1 UVs, the last repeating the first column. */
  function UvQuad(i: nat, j: nat, F: nat): seq<int>
  {
    var uvIndex := i * (F + 1);
    var uvPast := (i - 1) * (F + 1);
    [uvIndex + j, uvIndex + j + 1, uvPast + j + 1, uvPast + j]
  }

  /** The quads joining the first n rings. */
  function Quads(F: nat, n: nat): seq<seq<int>>
  {
    if n <= 1 then [] else Quads(F, n - 1) + seq(F, j requires 0 <= j => Quad(n - 1, j, F))
  }

  function UvQuads(F: nat, n: nat): seq<seq<int>>
  {
    if n <= 1 then [] else UvQuads(F, n - 1) + seq(F, j requires 0 <= j => UvQuad(n - 1, j, F))
  }

  /** The u coordinates of one ring: point j at j/F of the way from bleed to 1 - bleed, and
      one more at 1 - bleed where the seam closes. */
  function RingU(F: nat, bleed: real): seq<real>
  {
    seq(F, j requires 0 <= j < F => ChangeRange(j as real, 0.0, F as real, bleed, 1.0 - bleed)) + [1.0 - bleed]
  }

  /** The v coordinate of ring i of S: bleed on the first ring, then ChangeRange of i. */
  function RingV(i: nat, S: nat, bleed: real): real
  {
    if i == 0 || S <= 1 then bleed else ChangeRange(i as real, 0.0, (S - 1) as real, bleed, 1.0 - bleed)
  }

  function Us(F: nat, n: nat, bleed: real): seq<real>
  {
    if n == 0 then [] else Us(F, n - 1, bleed) + RingU(F, bleed)
  }

  function Vs(F: nat, n: nat, S: nat, bleed: real): seq<real>
  {
    if n == 0 then [] else Vs(F, n - 1, S, bleed) + seq(F + 1, _ => RingV(n - 1, S, bleed))
  }

  // ----- The end cap -----

  /** Cap triangle j, walking the last ring backwards from its top vertex S*F - 1: from the
      vertex after index1 (wrapping to the top at the last triangle) to the centre and index1. */
  function CapTriangle(S: nat, F: nat, j: nat): seq<int>
  {
    var top := S * F - 1;
    var index1 := top - j;
    [if j == F - 1 then top else index1 - 1, S * F, index1]
  }

  /** UV ids of cap triangle j: the cap's own UVs start after the centre UV. */
  function CapUvTriangle(S: nat, F: nat, j: nat): seq<int>
  {
    var middle := S * (F + 1);
    var start := middle + 1;
    [start + j, middle, if j == F - 1 then start else start + j + 1]
  }

  function CapFan(S: nat, F: nat): seq<seq<int>>
  {
    seq(F, j requires 0 <= j => CapTriangle(S, F, j))
  }

  function CapUvFan(S: nat, F: nat): seq<seq<int>>
  {
    seq(F, j requires 0 <= j => CapUvTriangle(S, F, j))
  }

  /** The cap UVs: the centre at (0.5, 0.5), then the disk points in reverse scaled by 0.25 about it. */
  function CapU(disk: seq<Float3>): seq<real>
  {
    [0.5] + seq(|disk|, j requires 0 <= j < |disk| => disk[|disk| - 1 - j].x * 0.25 + 0.5)
  }

  function CapV(disk: seq<Float3>): seq<real>
  {
    [0.5] + seq(|disk|, j requires 0 <= j < |disk| => disk[|disk| - 1 - j].z * 0.25 + 0.5)
  }

  /** The arrays CreateMesh hands to Maya for a branch of S sections on a disk, capped or not. */
  function MeshOf(S: nat, disk: seq<Float3>, bleed: real, cap: bool): MeshArrays
  {
    var F := |disk|;
    if cap then
      MeshArrays(Rings(F, S) + [Centre],
                 Quads(F, S) + CapFan(S, F),
                 Us(F, S, bleed) + CapU(disk), Vs(F, S, S, bleed) + CapV(disk),
                 UvQuads(F, S) + CapUvFan(S, F))
    else
      MeshArrays(Rings(F, S), Quads(F, S), Us(F, S, bleed), Vs(F, S, S, bleed), UvQuads(F, S))
  }

  // ----- The loops -----

  /** CreateMesh's index, UV-id and UV generation for a branch of S sections (only branches
      with more than one section are meshed). The end is capped when the branch has no
      children and capEnds is set. */
  method CreateMesh(S: nat, disk: seq<Float3>, bleed: real, hasChildren: bool, capEnds: bool)
    returns (m: MeshArrays)
    requires S >= 2
    ensures m == MeshOf(S, disk, bleed, !hasChildren && capEnds)
    ensures MeshValid(m)
  {
    var F := |disk|;
    var vertices, u, v := FirstRing(F, S, bleed);
    var faces: seq<seq<int>> := [];
    var uvFaces: seq<seq<int>> := [];
    var i := 1;
    while i < S
      invariant 1 <= i <= S
      invariant vertices == Rings(F, i) && faces == Quads(F, i) && uvFaces == UvQuads(F, i)
      invariant u == Us(F, i, bleed) && v == Vs(F, i, S, bleed)
    {
      UsLength(F, i, bleed);
      var ringVerts, ringFaces, ringUvFaces, ringU, ringV := NextRing(i, S, F, bleed, u);
      vertices, faces, uvFaces := vertices + ringVerts, faces + ringFaces, uvFaces + ringUvFaces;
      u, v := u + ringU, v + ringV;
      i := i + 1;
    }
    if !hasChildren && capEnds {
      vertices := vertices + [Centre];
      u := u + [0.5];
      v := v + [0.5];
      UsLength(F, S, bleed);
      var capFaces, capUvFaces, capU, capV := CapEnd(S, disk, |vertices| - 2, |vertices| - 1, |u| - 1, |u|);
      faces, uvFaces := faces + capFaces, uvFaces + capUvFaces;
      u, v := u + capU, v + capV;
    }
    m := MeshArrays(vertices, faces, u, v, uvFaces);
    MeshOfValid(S, disk, bleed, !hasChildren && capEnds);
  }

  /** The first ring, around section 0: its vertices, and u running from bleed across the
      ring plus the closing 1 - bleed, all at v = bleed. */
  method FirstRing(F: nat, S: nat, bleed: real) returns (vertices: seq<Vertex>, u: seq<real>, v: seq<real>)
    ensures vertices == Rings(F, 1) && u == Us(F, 1, bleed) && v == Vs(F, 1, S, bleed)
  {
    vertices, u, v := [], [], [];
    var j := 0;
    while j < F
      invariant 0 <= j <= F
      invariant vertices == seq(j, k requires 0 <= k => RingVertex(0, k))
      invariant u == RingU(F, bleed)[..j]
      invariant v == seq(j, _ => bleed)
    {
      vertices := vertices + [RingVertex(0, j)];
      u := u + [ChangeRange(j as real, 0.0, F as real, bleed, 1.0 - bleed)];
      v := v + [bleed];
      j := j + 1;
    }
    u := u + [1.0 - bleed];
    v := v + [bleed];
    assert u == RingU(F, bleed);
  }

  /** Ring i (1 <= i < S): F vertices, each joined by a quad to the ring before; u copied from
      the first ring's entries already in `uSoFar`, v from ChangeRange of i. */
  method NextRing(i: nat, S: nat, F: nat, bleed: real, uSoFar: seq<real>)
    returns (vertices: seq<Vertex>, faces: seq<seq<int>>, uvFaces: seq<seq<int>>, u: seq<real>, v: seq<real>)
    requires 1 <= i < S && |uSoFar| >= F + 1 && uSoFar[..F + 1] == RingU(F, bleed)
    ensures vertices == seq(F, k requires 0 <= k => RingVertex(i, k))
    ensures faces == seq(F, k requires 0 <= k => Quad(i, k, F))
    ensures uvFaces == seq(F, k requires 0 <= k => UvQuad(i, k, F))
    ensures u == RingU(F, bleed) && v == seq(F + 1, _ => RingV(i, S, bleed))
  {
    var sIndex := i * F;
    var sPastindex := (i - 1) * F;
    var uvIndex := i * (F + 1);
    var uvPastindex := (i - 1) * (F + 1);
    var vcoordinate := ChangeRange(i as real, 0.0, (S - 1) as real, bleed, 1.0 - bleed);
    vertices, faces, uvFaces, u, v := [], [], [], [], [];
    var j := 0;
    while j < F
      invariant 0 <= j <= F
      invariant vertices == seq(j, k requires 0 <= k => RingVertex(i, k))
      invariant faces == seq(j, k requires 0 <= k => Quad(i, k, F))
      invariant uvFaces == seq(j, k requires 0 <= k => UvQuad(i, k, F))
      invariant u == RingU(F, bleed)[..j]
      invariant v == seq(j, _ => vcoordinate)
    {
      vertices := vertices + [RingVertex(i, j)];
      u := u + [uSoFar[j]];
      v := v + [vcoordinate];
      var index := sIndex + j;
      var pastindex := sPastindex + j;
      faces := faces + [[index, if index + 1 == sIndex + F then sIndex else index + 1,
                         if pastindex + 1 == sPastindex + F then sPastindex else pastindex + 1, pastindex]];
      uvFaces := uvFaces + [[uvIndex + j, uvIndex + j + 1, uvPastindex + j + 1, uvPastindex + j]];
      j := j + 1;
    }
    u := u + [1.0 - bleed];
    v := v + [vcoordinate];
    assert u == RingU(F, bleed);
  }

  /** The cap fan, given the index of the last ring's top vertex, of the centre vertex, of the
      centre UV and of the first cap UV, as the source reads them off the array lengths. */
  method CapEnd(S: nat, disk: seq<Float3>, topindex: int, midindex: int, middleuv: int, startuv: int)
    returns (faces: seq<seq<int>>, uvFaces: seq<seq<int>>, u: seq<real>, v: seq<real>)
    requires topindex == S * |disk| - 1 && midindex == S * |disk|
    requires middleuv == S * (|disk| + 1) && startuv == middleuv + 1
    ensures faces == CapFan(S, |disk|) && uvFaces == CapUvFan(S, |disk|)
    ensures [0.5] + u == CapU(disk) && [0.5] + v == CapV(disk)
  {
    var F := |disk|;
    var topj := F - 1;
    faces, uvFaces, u, v := [], [], [], [];
    var j := 0;
    while j < F
      invariant 0 <= j <= F
      invariant faces == CapFan(S, F)[..j] && uvFaces == CapUvFan(S, F)[..j]
      invariant [0.5] + u == CapU(disk)[..j + 1] && [0.5] + v == CapV(disk)[..j + 1]
    {
      CapStep(S, disk, j);
      var index1 := topindex - j;
      var index2 := if j == topj then topindex else index1 - 1;
      assert [index2, midindex, index1] == CapTriangle(S, F, j);
      faces := faces + [[index2, midindex, index1]];
      var p := disk[topj - j];
      u := u + [p.x * 0.25 + 0.5];
      v := v + [p.z * 0.25 + 0.5];
      assert [startuv + j, middleuv, if j == topj then startuv else startuv + j + 1] == CapUvTriangle(S, F, j);
      uvFaces := uvFaces + [[startuv + j, middleuv, if j == topj then startuv else startuv + j + 1]];
      j := j + 1;
    }
  }

  /** One round of CapEnd's loop: each of the cap's sequences grows by its item j. */
  lemma CapStep(S: nat, disk: seq<Float3>, j: nat)
    requires j < |disk|
    ensures CapFan(S, |disk|)[..j + 1] == CapFan(S, |disk|)[..j] + [CapTriangle(S, |disk|, j)]
    ensures CapUvFan(S, |disk|)[..j + 1] == CapUvFan(S, |disk|)[..j] + [CapUvTriangle(S, |disk|, j)]
    ensures CapU(disk)[..j + 2] == CapU(disk)[..j + 1] + [disk[|disk| - 1 - j].x * 0.25 + 0.5]
    ensures CapV(disk)[..j + 2] == CapV(disk)[..j + 1] + [disk[|disk| - 1 - j].z * 0.25 + 0.5]
  {
    var F := |disk|;
    assert CapFan(S, F)[..j + 1] == CapFan(S, F)[..j] + [CapFan(S, F)[j]];
    assert CapUvFan(S, F)[..j + 1] == CapUvFan(S, F)[..j] + [CapUvFan(S, F)[j]];
    assert CapU(disk)[..j + 2] == CapU(disk)[..j + 1] + [CapU(disk)[j + 1]];
    assert CapV(disk)[..j + 2] == CapV(disk)[..j + 1] + [CapV(disk)[j + 1]];
  }

  // ----- Lemmas -----

  lemma MulStep(i: nat, F: nat)
    ensures (i + 1) * F == i * F + F
  {
  }

  /** The point after j round a ring of F points. */
  lemma NextRound(j: nat, F: nat)
    requires j < F
    ensures (j + 1) % F == if j + 1 < F then j + 1 else 0
  {
    if j + 1 == F {
      assert (j + 1) % F == F % F;
    }
  }

  /** Vertex i*F + j is point j of ring i. */
  lemma {:induction false} RingsAt(F: nat, n: nat, i: nat, j: nat)
    requires i < n && j < F
    ensures i * F + j < n * F
    ensures Rings(F, n)[i * F + j] == RingVertex(i, j)
  {
    MulStep(n - 1, F);
    if i < n - 1 {
      RingsAt(F, n - 1, i, j);
    } else {
    }
  }

  /** Every vertex of the rings is a ring vertex of one of the n rings. */
  lemma {:induction false} RingsOnly(F: nat, n: nat)
    ensures forall k :: 0 <= k < |Rings(F, n)| ==>
              Rings(F, n)[k].RingVertex? && Rings(F, n)[k].ring < n && Rings(F, n)[k].point < F
  {
    if n > 0 {
      RingsOnly(F, n - 1);
    }
  }

  lemma {:induction false} QuadsLength(F: nat, n: nat)
    requires n >= 1
    ensures |Quads(F, n)| == (n - 1) * F && |UvQuads(F, n)| == (n - 1) * F
  {
    if n > 1 {
      QuadsLength(F, n - 1);
      MulStep(n - 2, F);
    }
  }

  /** Face (i - 1)*F + j of the ring part is quad j between rings i - 1 and i. */
  lemma {:induction false} QuadsAt(F: nat, n: nat, i: nat, j: nat)
    requires 1 <= i < n && j < F
    ensures (i - 1) * F + j < |Quads(F, n)| == |UvQuads(F, n)|
    ensures Quads(F, n)[(i - 1) * F + j] == Quad(i, j, F)
    ensures UvQuads(F, n)[(i - 1) * F + j] == UvQuad(i, j, F)
  {
    QuadsLength(F, n);
    QuadsLength(F, n - 1);
    MulStep(n - 2, F);
    if i < n - 1 {
      QuadsAt(F, n - 1, i, j);
    }
  }

  /** A quad joins point j and the next point round the ring (wrapping from F - 1 to 0) on
      ring i, then the same two points on ring i - 1, in reverse. */
  lemma QuadCorners(i: nat, j: nat, F: nat)
    requires 1 <= i && j < F
    ensures Quad(i, j, F) == [i * F + j, i * F + (j + 1) % F, (i - 1) * F + (j + 1) % F, (i - 1) * F + j]
    ensures Quad(i, j, F)[0] != Quad(i, j, F)[1] <==> F >= 2
  {
    NextRound(j, F);
  }

  lemma FacesInConcat(a: seq<seq<int>>, ua: seq<seq<int>>, b: seq<seq<int>>, ub: seq<seq<int>>, nv: int, nuv: int)
    requires FacesIn(a, ua, nv, nuv) && FacesIn(b, ub, nv, nuv)
    ensures FacesIn(a + b, ua + ub, nv, nuv)
  {
    var fs, us := a + b, ua + ub;
    forall f | 0 <= f < |fs|
      ensures fs[f] == (if f < |a| then a[f] else b[f - |a|])
      ensures us[f] == (if f < |a| then ua[f] else ub[f - |a|])
    {
    }
  }

  lemma FacesInWeaken(a: seq<seq<int>>, ua: seq<seq<int>>, nv: int, nuv: int, nv': int, nuv': int)
    requires FacesIn(a, ua, nv, nuv) && nv <= nv' && nuv <= nuv'
    ensures FacesIn(a, ua, nv', nuv')
  {
  }

  /** The quads of ring i lie on rings i - 1 and i and on their UVs, below nv = (i + 1)*F
      vertices and nuv = (i + 1)*(F + 1) UVs. */
  lemma RingQuadsIn(i: nat, F: nat, nv: int, nuv: int)
    requires i >= 1 && nv == (i + 1) * F && nuv == (i + 1) * (F + 1)
    ensures FacesIn(seq(F, j requires 0 <= j => Quad(i, j, F)), seq(F, j requires 0 <= j => UvQuad(i, j, F)), nv, nuv)
  {
    var fs := seq(F, j requires 0 <= j => Quad(i, j, F));
    var us := seq(F, j requires 0 <= j => UvQuad(i, j, F));
    forall f | 0 <= f < F
      ensures |fs[f]| == 4 && |us[f]| == 4
      ensures forall k :: 0 <= k < 4 ==> 0 <= fs[f][k] < nv && 0 <= us[f][k] < nuv
    {
      QuadBounds(i, f, F, nv, nuv);
    }
  }

  lemma QuadBounds(i: nat, j: nat, F: nat, nv: int, nuv: int)
    requires i >= 1 && j < F && nv == (i + 1) * F && nuv == (i + 1) * (F + 1)
    ensures forall k :: 0 <= k < 4 ==> 0 <= Quad(i, j, F)[k] < nv
    ensures forall k :: 0 <= k < 4 ==> 0 <= UvQuad(i, j, F)[k] < nuv
  {
    MulStep(i, F);
    MulStep(i, F + 1);
    MulStep(i - 1, F);
    MulStep(i - 1, F + 1);
  }

  /** Every corner of every ring quad is a vertex of the first n rings, and every UV id is
      below the n*(F + 1) ring UVs. */
  lemma {:induction false} QuadsInRange(F: nat, n: nat)
    ensures FacesIn(Quads(F, n), UvQuads(F, n), n * F, n * (F + 1))
  {
    if n > 1 {
      QuadsInRange(F, n - 1);
      MulMonotone(n - 1, n, F);
      MulMonotone(n - 1, n, F + 1);
      FacesInWeaken(Quads(F, n - 1), UvQuads(F, n - 1), (n - 1) * F, (n - 1) * (F + 1), n * F, n * (F + 1));
      RingQuadsIn(n - 1, F, n * F, n * (F + 1));
      FacesInConcat(Quads(F, n - 1), UvQuads(F, n - 1),
                    seq(F, j requires 0 <= j => Quad(n - 1, j, F)), seq(F, j requires 0 <= j => UvQuad(n - 1, j, F)),
                    n * F, n * (F + 1));
    }
  }

  /** The cap triangles use the ring vertices and the centre S*F, and the ring and cap UVs. */
  lemma CapFanIn(S: nat, F: nat)
    requires S >= 1
    ensures FacesIn(CapFan(S, F), CapUvFan(S, F), S * F + 1, S * (F + 1) + F + 1)
  {
    MulStep(S - 1, F);
  }

  lemma MulMonotone(a: nat, b: nat, F: nat)
    requires a <= b
    ensures a * F <= b * F
  {
  }

  lemma {:induction false} UsLength(F: nat, n: nat, bleed: real)
    ensures |Us(F, n, bleed)| == n * (F + 1)
    ensures n >= 1 ==> Us(F, n, bleed)[..F + 1] == RingU(F, bleed)
  {
    if n > 0 {
      UsLength(F, n - 1, bleed);
      MulStep(n - 1, F + 1);
      if n > 1 {
        assert Us(F, n, bleed)[..F + 1] == Us(F, n - 1, bleed)[..F + 1];
      }
    }
  }

  lemma {:induction false} VsLength(F: nat, n: nat, S: nat, bleed: real)
    ensures |Vs(F, n, S, bleed)| == n * (F + 1)
  {
    if n > 0 {
      VsLength(F, n - 1, S, bleed);
      MulStep(n - 1, F + 1);
    }
  }

  /** With a bleed of at most half, every ring UV coordinate lies in [bleed, 1 - bleed]. */
  lemma {:induction false} RingUVsInside(F: nat, n: nat, S: nat, bleed: real)
    requires 0.0 <= bleed <= 0.5 && n <= S
    ensures forall k :: 0 <= k < |Us(F, n, bleed)| ==> bleed <= Us(F, n, bleed)[k] <= 1.0 - bleed
    ensures forall k :: 0 <= k < |Vs(F, n, S, bleed)| ==> bleed <= Vs(F, n, S, bleed)[k] <= 1.0 - bleed
  {
    if n > 0 {
      RingUVsInside(F, n - 1, S, bleed);
      var i := n - 1;
      assert bleed <= RingV(i, S, bleed) <= 1.0 - bleed;
      forall j | 0 <= j < F + 1
        ensures bleed <= RingU(F, bleed)[j] <= 1.0 - bleed
      {
      }
    }
  }

  /** The cap fan: triangle j is (point F-1-((j+1) mod F), centre, point F-1-j) of the last
      ring, so each triangle's third corner is a different last-ring vertex, and consecutive
      triangles share the edge to the centre. */
  lemma CapFanShape(S: nat, F: nat, j: nat)
    requires S >= 1 && j < F
    ensures var t := CapTriangle(S, F, j);
            && t[1] == S * F
            && t[2] == (S - 1) * F + (F - 1 - j)
            && t[0] == (S - 1) * F + (F - 1 - (j + 1) % F)
    ensures j + 1 < F ==> CapTriangle(S, F, j + 1)[2] == CapTriangle(S, F, j)[0]
    ensures j == F - 1 ==> CapTriangle(S, F, j)[0] == CapTriangle(S, F, 0)[2]
  {
    MulStep(S - 1, F);
    NextRound(j, F);
  }

  /** The third corners of the cap triangles are pairwise distinct. */
  lemma CapCornersDistinct(S: nat, F: nat, j1: nat, j2: nat)
    requires j1 < F && j2 < F && j1 != j2
    ensures CapTriangle(S, F, j1)[2] != CapTriangle(S, F, j2)[2]
  {
  }

  /** Every mesh CreateMesh produces is one Maya accepts: counts agree and every id is in range. */
  lemma MeshOfValid(S: nat, disk: seq<Float3>, bleed: real, cap: bool)
    requires S >= 1
    ensures MeshValid(MeshOf(S, disk, bleed, cap))
  {
    var F := |disk|;
    UsLength(F, S, bleed);
    VsLength(F, S, S, bleed);
    QuadsInRange(F, S);
    if cap {
      FacesInWeaken(Quads(F, S), UvQuads(F, S), S * F, S * (F + 1), S * F + 1, S * (F + 1) + F + 1);
      CapFanIn(S, F);
      FacesInConcat(Quads(F, S), UvQuads(F, S), CapFan(S, F), CapUvFan(S, F), S * F + 1, S * (F + 1) + F + 1);
    }
  }

  /** The mesh has S*F ring vertices, (S - 1)*F quads and S*(F + 1) ring UVs, plus, when
      capped, a centre vertex, F triangles and F + 1 cap UVs. */
  lemma MeshOfCounts(S: nat, disk: seq<Float3>, bleed: real, cap: bool)
    requires S >= 1
    ensures var m := MeshOf(S, disk, bleed, cap);
            var F := |disk|;
            && |m.vertices| == S * F + (if cap then 1 else 0)
            && |m.faces| == (S - 1) * F + (if cap then F else 0)
            && |m.u| == S * (F + 1) + (if cap then F + 1 else 0)
            && (forall k :: 0 <= k < S * F ==> m.vertices[k].RingVertex?)
            && (cap ==> m.vertices[S * F] == Centre)
  {
    var F := |disk|;
    QuadsLength(F, S);
    UsLength(F, S, bleed);
    RingsOnly(F, S);
  }

  /** The ring UVs all lie within the bleed margins. */
  lemma MeshOfRingUVs(S: nat, disk: seq<Float3>, bleed: real, cap: bool)
    requires S >= 1 && 0.0 <= bleed <= 0.5
    ensures var m := MeshOf(S, disk, bleed, cap);
            && |m.u| >= S * (|disk| + 1) && |m.v| >= S * (|disk| + 1)
            && forall k :: 0 <= k < S * (|disk| + 1) ==> bleed <= m.u[k] <= 1.0 - bleed && bleed <= m.v[k] <= 1.0 - bleed
  {
    var F := |disk|;
    UsLength(F, S, bleed);
    VsLength(F, S, S, bleed);
    RingUVsInside(F, S, S, bleed);
  }
}
