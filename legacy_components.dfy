/** The 2012 copy's records (TreeGenerator/treegenerator_components.h). Unlike the current
    records, ShadingData, TreeData, MeshStruct and LeafData are filled in by `Set` methods that
    overwrite an existing object field by field, so they are classes here. The plain
    initialisers (BranchData, Section, Leaf) are the same as the current ones and reuse
    TreeComponents. Maya names and objects are not modelled. */
module LegacyComponents {
  import opened TreeComponents

  class ShadingData {
    var lightcolorR: real
    var lightcolorB: real
    var lightcolorG: real
    var darkcolorR: real
    var darkcolorB: real
    var darkcolorG: real
    var bumpAmount: real
    var uvBleedSpace: real
    var createTreeShader: bool
    var createLeafShader: bool
    var createBump: bool

    constructor () { }

    /** Overwrites every field; colours are passed in R, G, B order into R, B, G fields. */
    method Set(lr: real, lg: real, lb: real, dr: real, dg: real, db: real,
               treeShader: bool, leafShader: bool, bump: bool, bumpamount: real, bleed: real)
      modifies this
      ensures lightcolorR == lr && lightcolorG == lg && lightcolorB == lb
      ensures darkcolorR == dr && darkcolorG == dg && darkcolorB == db
      ensures createTreeShader == treeShader && createLeafShader == leafShader
      ensures createBump == bump && bumpAmount == bumpamount && uvBleedSpace == bleed
    {
      uvBleedSpace := bleed;
      lightcolorR := lr;
      darkcolorR := dr;
      lightcolorG := lg;
      darkcolorG := dg;
      lightcolorB := lb;
      darkcolorB := db;
      createTreeShader := treeShader;
      createLeafShader := leafShader;
      createBump := bump;
      bumpAmount := bumpamount;
    }
  }

  class TreeData {
    var initialRadius: real
    var branchRadDec: real
    var minRadius: real
    var branchDeathProb: uint32
    var rule: string

    constructor () { }

    /** Overwrites the radius fields and death probability and resets the rule to "". */
    method Set(rad: real, raddec: real, minrad: real, branchdeath: uint32)
      modifies this
      ensures initialRadius == rad && branchRadDec == raddec && minRadius == minrad
      ensures branchDeathProb == branchdeath && rule == []
    {
      minRadius := minrad;
      rule := "";
      initialRadius := rad;
      branchRadDec := raddec;
      branchDeathProb := branchdeath;
    }
  }

  class MeshStruct {
    var maxLayers: int
    var preview: bool
    var merge: bool
    var capends: bool
    var createAsCurves: bool
    var randomize: bool
    var trunkfaces: uint32
    var branchfaces: uint32
    var facedec: uint32

    constructor () { }

    /** Resets maxLayers to 0 and stores face counts and flags. */
    method Set(trunkFaces: uint32, branchFaces: uint32, faceDec: uint32, curves: bool,
               capEnds: bool, rand: bool, merge': bool, preview': bool)
      modifies this
      ensures maxLayers == 0 && preview == preview' && randomize == rand && merge == merge'
      ensures trunkfaces == trunkFaces && branchfaces == branchFaces && facedec == faceDec
      ensures createAsCurves == curves && capends == capEnds
    {
      maxLayers := 0;
      preview := preview';
      randomize := rand;
      merge := merge';
      trunkfaces := trunkFaces;
      branchfaces := branchFaces;
      facedec := faceDec;
      createAsCurves := curves;
      capends := capEnds;
    }
  }

  class LeafData {
    var leafshadername: string
    var leafStartLayer: uint32
    var leafTree: bool
    var w: real
    var h: real
    var wv: real
    var hv: real
    var bend: real
    var file: string

    constructor () { }

    /** Clears the shader name and texture file and stores size, variance, bend and start layer. */
    method Set(leafTree': bool, width: real, height: real, wVar: real, hVar: real, bend': real, leafLayer: uint32)
      modifies this
      ensures leafshadername == [] && file == []
      ensures leafStartLayer == leafLayer && leafTree == leafTree'
      ensures w == width && h == height && wv == wVar && hv == hVar && bend == bend'
    {
      leafshadername := "";
      leafStartLayer := leafLayer;
      w := width;
      h := height;
      wv := wVar;
      hv := hVar;
      bend := bend';
      leafTree := leafTree';
      file := "";
    }
  }

  /** The legacy branch: its default constructor sets only the two merge flags; the other
      fields are left indeterminate. */
  class Branch {
    var parentIndex: int
    var sectionIndex: int
    var layer: int
    var vertno: int
    var mergedtop: bool
    var mergedbot: bool
    var sections: seq<Section>
    var children: seq<int>

    constructor ()
      ensures !mergedtop && !mergedbot
    {
      mergedtop, mergedbot := false, false;
    }
  }
}
