# Tree generator: a verified model

This project models the core of a Maya plug-in. The plug-in's `GenerateTree` command grows a
tree from an L-system and builds it in the Maya scene. One command runs through four stages:

1. **Setup.** `doIt` fills in the default rule table and reads the command's flags. It applies
   the preview switches and seeds the random engine when the tree is to be randomised. It
   also sets up the progress steps.
2. **Rewriting.** `CreateRuleString` applies the rule table to the start rule `iterations`
   times. Each character is rewritten by the first slot whose ID starts with it. Whether the
   slot fires depends on its chance in percent. The cancel button is polled after every pass.
3. **Walk.** `doIt` puts the prerule and the postrule round the expanded rule.
   `BuildTheTree` then walks the result with a turtle:
   - `F` draws a section of the current branch;
   - `G` moves without drawing;
   - `[` lets the branch die, skipping to its matching `]`, or starts a new branch;
   - `]` restores the saved turtle;
   - `+ - > < ^ v` turn the turtle;
   - `L` adds a leaf.

   The cancel button is polled after every symbol.
4. **Output.** `MeshTheTree` creates the tree group with one group per layer. It then makes a
   curve or a tube mesh for every branch with more than one section. Last, it makes a leaf mesh
   for every leaf. Any cancelled poll deletes the tree.

Two copies of the command exist:
- the current one under `src/`;
- the 2012 one under `TreeGenerator/`. The 2012 copy draws with `rand()` and keeps a static
  seed.

Both copies can take the rule table and the iteration count as flags (-i, -r1, -rc1, -rp1, -r2,
-rc2, -rp2). The current copy reads them after `doIt` has written the default rule into slot 0,
so a given flag overrides that default.

The model covers both copies. They are distinguished by `Randomness.Variant` (`Current` or
`Legacy`) wherever their behaviour differs.

The random engine is modelled as a stream of draws indexed by how many were taken. The
cancel button is modelled as an oracle indexed by how many polls were made. Both live in
`PluginSession.Session`, next to the static tree counter. The command object is the class
`Generator.TreeGenerator`. Its methods update its fields as the source does, and each is
proved against a specification function of the modules below:

| module | stage |
|---|---|
| `Grammar` | rewriting |
| `Skeleton` | one symbol of the walk |
| `TurtleWalk` | the whole walk |
| `TreeOutput` | output |
| `Mesh` | a branch mesh |
| `Leaves` | leaf meshes |

## Model

| member | source | states |
|---|---|---|
| TreeComponents.AsInt32 | src/treeGenerator.cpp:310 | The unsigned-to-int cast the current copy applies to a rule chance is two's complement: values below 2^31 are unchanged, and larger ones become the value minus 2^32. |
| TreeComponents.NewShadingData | src/treeComponents.h:40-55 | Each colour argument lands in its own channel, even though the record declares R, B, G while the constructor takes R, G, B; flags, bump and bleed are stored unchanged. |
| TreeComponents.NewTreeData | src/treeComponents.h:79-85 | The four shape parameters are stored, and the rule string starts empty. |
| TreeComponents.NewBranchData | src/treeComponents.h:109-118 | Forward amount, forward angle, forward variance, branch angle, angle variance and radius decrease each land in their own field, none swapped. |
| TreeComponents.NewMeshData | src/treeComponents.h:145-156 | maxLayers starts at 0; face counts and flags are stored as given. |
| TreeComponents.NewLeafData | src/treeComponents.h:184-194 | Size, variances, bend and start layer are stored; the shader name and texture file start empty. |
| TreeComponents.NewBranch | src/treeComponents.h:254-260 | A default branch has no parent (-1), no section index (-1), layer 0, no vertices, no sections and no children. |
| TreeComponents.NewLeaf | src/treeComponents.h:289-295 | A leaf records its position, axis, layer and radius unchanged. |
| TreeComponents.NewTurtle | src/treeComponents.h:314-322 | A default turtle stands at the identity pose, with radius 0, no branch or section (-1), parent 0, layer 0, and its branch not ended. |
| Randomness.Percent | src/randomGenerator.cpp:23-27 | Both copies' percentage draws (Generate(0,100), or rand() % 101) lie in [0, 100]. |
| Randomness.Unit | TreeGenerator/treegenerator.cpp:1191-1194 | Both copies' unit draws (Generate(-1,1), or (rand() % 201) / 100 - 1) lie in [-1, 1]. |
| Randomness.Degrees | TreeGenerator/treegenerator.cpp:796 | Both copies' angle draws (Generate(-360,360), or rand() % 721 - 360) lie in [-360, 360]. |
| PluginSession.Session.constructor | src/randomGenerator.cpp:12-21 | At plug-in load no tree exists yet (the counter is 0), the engine is seeded once, and no draw or poll has been made. |
| PluginSession.Session.Take | src/randomGenerator.cpp:23-39 | One call to the generator returns the next draw of the current seed, lies within the distributions' ranges, and advances the draw count by one. |
| PluginSession.Session.Reseed | src/randomGenerator.cpp:17-21 | Reseeding installs the new seed and restarts its draws from the first. |
| PluginSession.Session.Poll | src/treeGenerator.cpp:1119-1128 | One poll of the cancel button answers the oracle's value at the current poll count, then advances the count. |
| TreeHelpers.DegToRad | TreeGenerator/treeHelpers.h:10-13 | The conversion is the linear map that takes 180 degrees to pi. |
| TreeHelpers.RadToDeg | TreeGenerator/treeHelpers.h:18-21 | The conversion is the linear map that takes pi to 180 degrees. |
| TreeHelpers.DegToRadHalfTurn | TreeGenerator/global.h:46-50 | DegToRad(180) is exactly pi. |
| TreeHelpers.DegRadInverse | TreeGenerator/treeHelpers.h:10-21 | DegToRad and RadToDeg undo each other in both directions. |
| TreeHelpers.DegToRadLinear | TreeGenerator/treeHelpers.h:10-13 | DegToRad preserves sums and scalar multiples. |
| TreeHelpers.Spread | src/treeGenerator.cpp:698-702 | A variance times a unit draw never exceeds the variance's magnitude in either direction. |
| TreeHelpers.Vary | src/treeGenerator.cpp:698-702 | base + variance * draw stays within the variance's magnitude of base. |
| TreeHelpers.ScaledUnit | src/treeGenerator.cpp:712-716 | A quantity scaled by a draw in [-1, 1] stays within its own magnitude. |
| TreeHelpers.ChangeRange | TreeGenerator/treeHelpers.h:26-34 | The inner bound maps to the new inner bound and the outer to the new outer; over increasing ranges, values inside the old range land inside the new one. |
| TreeHelpers.ChangeRangeAffine | TreeGenerator/global.h:58-64 | ChangeRange maps a weighted mean of two values to the same weighted mean of their images. |
| TreeHelpers.ChangeRangeMonotone | TreeGenerator/treeHelpers.h:26-34 | Over an increasing source range and a non-decreasing target range, ChangeRange preserves order. |
| Grammar.FirstMatch | src/treeGenerator.cpp:300-303 | The slot search returns the first slot at or after k whose ID starts with the character, or the slot count when there is none; every slot it skips has another trigger. |
| Grammar.RewriteChar | src/treeGenerator.cpp:298-324 | A character no slot matches is copied and costs no draw. A matched character becomes its slot's replacement or nothing. A draw is consumed exactly when the slot's chance is neither 0 nor 100. |
| Grammar.Expand | src/treeGenerator.cpp:293-334 | A completed stage has polled once per iteration. A cancelled one stopped at a poll that found the button pressed, within the iteration count. Draws are only consumed, never given back. |
| Grammar.CommandString | src/treeGenerator.cpp:84-85 | The walked string is the prerule, then the expanded rule, then the postrule, each intact in its place. |
| Grammar.PassConsumes | src/treeGenerator.cpp:296-324 | A pass consumes exactly one draw per character whose deciding slot is probabilistic. |
| Grammar.PassConcat | src/treeGenerator.cpp:296-324 | Rewriting a + b is rewriting a, then rewriting b from the draw where a stopped: each character is rewritten independently. |
| Grammar.PassCopiesUnmatched | src/treeGenerator.cpp:320-323 | A string none of whose characters matches a slot is copied unchanged by a pass, and no draw is taken. |
| Grammar.PassIgnoresStream | src/treeGenerator.cpp:304-314 | A pass that needs no draws gives the same text whatever the random stream. |
| Grammar.LaterRulesIgnored | src/treeGenerator.cpp:300-317 | First match wins: two tables that agree up to and including the deciding slot rewrite the character identically. |
| Grammar.FirstMatchAgrees | src/treeGenerator.cpp:300-303 | Tables that agree up to a slot find that slot first from any earlier start. |
| Grammar.ChanceOutcome | src/treeGenerator.cpp:304-314 | Chance 100 always substitutes and chance 0 always drops, without drawing. Any other chance draws once, substitutes when the draw fires and drops otherwise. |
| Grammar.FiresAgree | TreeGenerator/treegenerator.cpp:410-411 | The two copies decide alike for chances below 2^31. Above that, the current copy's cast makes the rule never fire, while the 2012 copy always fires. |
| Grammar.ExpandZero | src/treeGenerator.cpp:293 | With no iterations the rule string is the start rule, and nothing is drawn or polled. |
| Grammar.ExpandOkIff | src/treeGenerator.cpp:329-332 | Rewriting completes exactly when none of its polls finds the button pressed. |
| Grammar.ExpandUnmatchedFixed | src/treeGenerator.cpp:293-334 | A start string no slot matches survives any number of iterations unchanged, and draws nothing. |
| Grammar.PassVariantsAgree | TreeGenerator/treegenerator.cpp:389-426 | With percentages drawn as rand() % 101 and every chance below 2^31, both copies rewrite every string identically in one pass. |
| Grammar.ExpandVariantsAgree | TreeGenerator/treegenerator.cpp:384-434 | Under the same conditions the two copies' whole rewriting stages agree. |
| Grammar.GrowTable | src/treeGenerator.cpp:288-335 | A worked example only: a table whose slot 0 rewrites A to FA with certainty and whose other slots are unused; it is a valid table. The rule table itself is modelled by Generator.TableOf. |
| Grammar.GrowExample | src/treeGenerator.cpp:288-335 | A worked example of the all-inputs lemmas above: three certain passes of A -> FA from "A" give "FFFA", draw nothing and poll three times. |
| FlagArguments.RulePiecesFlagLost | src/treeGenerator.h:212-216 | As written, -rp is lost: for prerule "X" and start "B", the walk still expands the default start and begins with the default prerule's F. |
| FlagArguments.RulePiecesFlagHonoured | src/treeGenerator.cpp:42-49 | As intended, the flag's pieces replace the defaults when given, and otherwise the defaults apply. The prerule opens the walked string and the postrule closes it. |
| Skeleton.Floor | src/treeGenerator.cpp:162-167 | A decreased radius never falls below the minimum radius, and is either the decreased value or the minimum. |
| Skeleton.Sprout | src/treeGenerator.cpp:365-396 | A new branch hangs from the turtle's branch and section, one layer deeper. It has no children and one section at the turtle's position, with a floored radius. |
| Skeleton.ScanClose | src/treeGenerator.cpp:343-359 | The bracket scan only moves forward and stops within the string. |
| Skeleton.Step | src/treeGenerator.cpp:152-270 | One symbol leaves the walk at or after its position and never beyond the end of the string. |
| Skeleton.WithSection | src/treeGenerator.cpp:170-171 | Appending a section keeps the branch count. |
| Skeleton.WithChild | src/treeGenerator.cpp:387-394 | Starting a branch adds exactly one branch. |
| Skeleton.WithChildFrame | src/treeGenerator.cpp:387-394 | BuildNewBranch changes no existing branch except the parent's child list, which gains the new branch's index at its end. |
| Skeleton.StartWF | src/treeGenerator.cpp:127-144 | The walk starts from a well-formed skeleton: a trunk at the origin with the initial radius, and the turtle on it. |
| Skeleton.DrawForwardKeepsWF | src/treeGenerator.cpp:154-173 | 'F' keeps the skeleton well formed: parent and child links, floored radii, layer bounds, the turtle stack and the leaf rules. |
| Skeleton.MoveForwardKeepsWF | src/treeGenerator.cpp:175-183 | 'G' keeps the skeleton well formed. |
| Skeleton.TurnKeepsWF | src/treeGenerator.cpp:206-253 | A rotation keeps the skeleton well formed. |
| Skeleton.AddLeafKeepsWF | src/treeGenerator.cpp:254-269 | 'L' keeps the skeleton well formed. |
| Skeleton.PopKeepsWF | src/treeGenerator.cpp:195-205 | ']' with a saved turtle keeps the skeleton well formed. |
| Skeleton.GrowKeepsWF | src/treeGenerator.cpp:365-396 | A surviving '[' keeps the skeleton well formed: the new branch is linked both ways to its parent, and child lists stay ascending and complete. |
| Skeleton.StepKeepsWF | src/treeGenerator.cpp:152-270 | Every symbol keeps the skeleton well formed. |
| Skeleton.StepPollKeepsWF | src/treeGenerator.cpp:279-283 | A symbol followed by its poll keeps the skeleton well formed. |
| Skeleton.PassiveEffect | src/treeGenerator.cpp:175-253 | G, the six rotations and unknown characters never add branches, sections or leaves, never touch the stack, and keep the turtle on its branch and section with its radius. |
| Skeleton.BranchEffect | src/treeGenerator.cpp:184-194 | A surviving '[' draws once and saves the turtle marked as ended. It adds one branch, listed last among its parent's children, one layer deeper and within maxLayers. The branch hangs from the turtle's section and has one section with the decreased, floored radius. |
| Skeleton.KilledEffect | src/treeGenerator.cpp:337-363 | A killed '[' changes nothing but the draw count, and the walk resumes where the bracket scan stopped. |
| Skeleton.CloseEffect | src/treeGenerator.cpp:195-205 | ']' pops the most recently saved turtle, or does nothing when none is saved. The trunk style is active afterwards exactly when the restored turtle is on the trunk. |
| Skeleton.LeafEffect | src/treeGenerator.cpp:254-269 | 'L' adds a leaf exactly when the four leaf conditions hold. The leaf sits at the turtle, along its branch's last segment, with the turtle's layer and radius. |
| Skeleton.CurrentStyleIffTrunk | src/treeGenerator.cpp:195-205 | In the current copy the trunk style is active exactly while the turtle is on the trunk. |
| Skeleton.LegacyBranchKeepsStyle | TreeGenerator/treegenerator.cpp:465-471 | In the 2012 copy '[' does not switch the style. |
| Skeleton.KillsBounds | src/treeGenerator.cpp:340 | Death probability 0 never kills, and 100 kills every draw but 100; above 100 (below 2^31) every branch dies. The copies agree below 2^31. |
| Skeleton.BalanceStep | src/treeGenerator.cpp:346-354 | The bracket balance of a prefix grows by one character's contribution. |
| Skeleton.ScanCloseMatches | src/treeGenerator.cpp:343-359 | The scan passes only positions where the bracket opened at j is still open, and stops on a ']' that closes it, unless the string ends first. |
| Skeleton.KilledBranchEnd | TreeGenerator/treegenerator.cpp:436-463 | From a '[' the scan lands on its matching ']' or on the end of the string, strictly after the bracket. |
| Skeleton.StepExtends | src/treeGenerator.cpp:152-270 | No symbol removes or reorders anything: branches keep their links and layers, sections and children only grow, and leaves only grow. |
| Skeleton.ExtendsReflexive | src/treeGenerator.cpp:147-285 | Every skeleton extends itself. |
| Skeleton.ExtendsTransitive | src/treeGenerator.cpp:147-285 | Extension composes across symbols. |
| TurtleWalk.RunKeepsWF | src/treeGenerator.cpp:147-285 | The whole walk keeps the skeleton well formed, completed or cancelled. |
| TurtleWalk.RunExtends | src/treeGenerator.cpp:147-285 | The walk only ever appends to the branches, their sections and children, and the leaves. |
| TurtleWalk.RunUnfold | src/treeGenerator.cpp:147-285 | One loop round is the symbol, then the poll: a pressed button ends the walk as failed, and otherwise it resumes after the position the symbol left. |
| TurtleWalk.BuildWF | src/treeGenerator.cpp:105-286 | BuildTheTree from empty collections ends in a well-formed skeleton. |
| Mesh.FaceCount | src/treeGenerator.cpp:529-546 | The trunk disk has trunkfaces points, and every other layer's disk has at least three. |
| Mesh.FaceCountNoWrap | src/treeGenerator.cpp:542-546 | Without unsigned wrap-around, layer j gets max(3, branchfaces - faceDecrease * j) points. |
| Mesh.DiskOf | src/treeGenerator.cpp:527-555 | The disk of layer j has FaceCount(j) points. |
| Mesh.CreateDisks | src/treeGenerator.cpp:527-555 | One disk per layer (the trunk's alone when there are none), each equal to that layer's DiskOf. |
| Mesh.Rings | src/treeGenerator.cpp:802-889 | n rings of F vertices give n * F vertices. |
| Mesh.CreateMesh | src/treeGenerator.cpp:765-946 | The arrays built are MeshOf of the branch's section count and its layer's disk, capped exactly when the branch has no children and capEnds is set. Maya accepts them: every face and UV id is in range. |
| Mesh.FirstRing | src/treeGenerator.cpp:802-815 | The first ring's vertices, its u spread across [bleed, 1 - bleed] plus the seam, and v = bleed. |
| Mesh.NextRing | src/treeGenerator.cpp:818-889 | Each further ring has F vertices joined to the previous ring by F quads. Its u values are copied from the first ring and its v is ChangeRange of the ring index. |
| Mesh.CapEnd | src/treeGenerator.cpp:892-930 | The cap fan and its UVs: a centre UV at (0.5, 0.5) and the disk reversed, scaled by 0.25 about it. |
| Mesh.RingsAt | src/treeGenerator.cpp:860-867 | Vertex i * F + j is point j of ring i. |
| Mesh.RingsOnly | src/treeGenerator.cpp:802-889 | Every ring vertex belongs to one of the n rings and one of the F points. |
| Mesh.QuadsLength | src/treeGenerator.cpp:818-889 | n rings are joined by (n - 1) * F quads, with as many UV faces. |
| Mesh.QuadsAt | src/treeGenerator.cpp:871-884 | Face (i - 1) * F + j is quad j between rings i - 1 and i, with its UV face. |
| Mesh.QuadCorners | src/treeGenerator.cpp:873-878 | A quad's corners are point j and the next point round ring i (wrapping from F - 1 to 0), then the same two on ring i - 1 in reverse. The quad is non-degenerate exactly when F >= 2. |
| Mesh.QuadsInRange | src/treeGenerator.cpp:871-884 | Every quad corner is a ring vertex, and every quad UV id is a ring UV. |
| Mesh.CapFanIn | src/treeGenerator.cpp:911-929 | The cap triangles use only ring vertices and the centre, and only ring and cap UVs. |
| Mesh.UsLength | src/treeGenerator.cpp:810-888 | n rings carry n * (F + 1) u values, the first F + 1 being the first ring's. |
| Mesh.VsLength | src/treeGenerator.cpp:810-888 | n rings carry n * (F + 1) v values. |
| Mesh.RingUVsInside | src/treeGenerator.cpp:810-888 | With a bleed of at most one half, every ring UV lies within [bleed, 1 - bleed]. |
| Mesh.CapFanShape | src/treeGenerator.cpp:911-919 | Cap triangle j joins the centre to two neighbouring points of the last ring, walking it backwards, and the last triangle closes the fan onto the first. |
| Mesh.CapCornersDistinct | src/treeGenerator.cpp:915-916 | No two cap triangles share their third corner. |
| Mesh.MeshOfValid | src/treeGenerator.cpp:932-937 | Every tube mesh, capped or not, has one u per v and every face and UV id in range. |
| Mesh.MeshOfCounts | src/treeGenerator.cpp:765-946 | A tube has S * F ring vertices, (S - 1) * F quads and S * (F + 1) ring UVs. When capped it adds a centre vertex (the last one), F triangles and F + 1 cap UVs. |
| Mesh.MeshOfRingUVs | src/treeGenerator.cpp:810-888 | A tube's ring UVs lie within the bleed margins. |
| Leaves.DrawLeaf | src/treeGenerator.cpp:696-716 | A leaf takes 3 draws when flat and 5 when bent. Its spin is within [-360, 360], and width and height stay within their variances of the defaults. A bent leaf has two bends within the bend amount. |
| Leaves.TemplateValid | src/treeGenerator.cpp:594-662 | The shared leaf template is a mesh Maya accepts: one face flat and two bent, four corners each with matching UV faces, one UV per vertex, and every id in range. |
| Leaves.TemplateCornersAgree | src/treeGenerator.cpp:599-661 | Each face corner's UV is the one of its vertex's column and row. |
| Leaves.TemplateVertexGrid | src/treeGenerator.cpp:707-727 | Vertex k of a leaf lies in column k % 2, at minus or plus half the width, and in row k / 2, the rows splitting the height evenly. |
| Leaves.TemplateUVsOnTexture | src/treeGenerator.cpp:606-649 | With a bleed in [0, 0.5] every leaf UV is on the texture. |
| TreeOutput.ResumeStep | src/treeGenerator.cpp:670-686 | One item of a cancellable loop: a pressed button ends the loop where its specification does, and otherwise the loop resumes at the next item. |
| TreeOutput.EachPolls | src/treeGenerator.cpp:578-581 | A cancellable loop polls once per item it reaches, runs to the end exactly when none of its polls finds the button pressed, and stops at the first that does. |
| TreeOutput.LongBranches | src/treeGenerator.cpp:558-569 | The branches given a node are only those with more than one section. |
| TreeOutput.LongBranchesExact | src/treeGenerator.cpp:560 | A branch is given a node exactly when it has more than one section. |
| TreeOutput.LongBranchesAscending | src/treeGenerator.cpp:558 | The nodes are made in branch order, each branch at most once. |
| TreeOutput.LongBranchesSnoc | src/treeGenerator.cpp:558-569 | One more branch adds its own index at the end when it is long. |
| TreeOutput.EachLongBranch | src/treeGenerator.cpp:498-515 | The branch loops take no draws, poll at most once per branch, and have made the nodes of the long branches they reached. |
| TreeOutput.LongNodesAt | src/treeGenerator.cpp:558-569 | Node x is made from long branch x. |
| TreeOutput.LongBranchOutputs | src/treeGenerator.cpp:558-582 | Node k of a branch loop's output is made from the k-th long branch it reached. |
| TreeOutput.Positions | src/treeGenerator.cpp:952-955 | A curve has one edit point per section. |
| TreeOutput.CurvesFollowSections | src/treeGenerator.cpp:491-518 | Every curve belongs to a branch with more than one section, sits under that branch's layer, and runs through the branch's section positions in order. |
| TreeOutput.Disks | src/treeGenerator.cpp:527-555 | There is one disk per layer, or the trunk's alone. |
| TreeOutput.MeshesOnLayerDisks | src/treeGenerator.cpp:558-569 | Every branch mesh belongs to a long branch and sits under that branch's layer. It is MeshOf that branch on its layer's disk, capped exactly when the branch has no children and capEnds is set, and Maya accepts it. |
| TreeOutput.LeavesCount | src/treeGenerator.cpp:670-686 | The leaf loop makes one mesh per leaf it reaches and takes d draws per leaf. |
| TreeOutput.LeavesInOrder | src/treeGenerator.cpp:670-686 | The leaf loop's meshes are those of the leaves it reached, in order. |
| TreeOutput.LeafNodesAt | src/treeGenerator.cpp:670-673 | Mesh k is leaf j + k's, under that leaf's layer, drawn from the draws after the previous leaf's. |
| TreeOutput.LeavesDrawnInTurn | src/treeGenerator.cpp:670-686 | A completed leaf loop has made one mesh per leaf. Mesh k is leaf k's, under its layer, with the shape drawn at next + k * d. |
| TreeOutput.LeafDrawerTakes | src/treeGenerator.cpp:690-716 | Drawing a leaf over the stream is DrawLeaf, and each leaf takes its fixed number of draws. |
| TreeOutput.BuiltLayersInRange | src/treeGenerator.cpp:184-194 | After the walk every branch layer is within [0, maxLayers], and every leaf layer within [1, maxLayers]. |
| TreeOutput.BranchStageResult | src/treeGenerator.cpp:416-435 | The branch stage takes no draws and polls once per branch it reaches. It completes exactly when none of its polls is pressed, and then it has made one node per long branch. |
| TreeOutput.MeshingResult | src/treeGenerator.cpp:398-453 | Meshing completes exactly when none of its polls is pressed. A completed meshing has polled once, then once per branch and leaf. It made one node per long branch and leaf, and took d draws per leaf. |
| LegacyComponents.ShadingData.Set | TreeGenerator/treegenerator_components.h:22-37 | Every field is overwritten, each colour argument into its own channel. |
| LegacyComponents.TreeData.Set | TreeGenerator/treegenerator_components.h:54-62 | The radius fields and death probability are overwritten, and the rule is reset to empty. |
| LegacyComponents.MeshStruct.Set | TreeGenerator/treegenerator_components.h:94-107 | maxLayers is reset to 0, and face counts and flags are stored. |
| LegacyComponents.LeafData.Set | TreeGenerator/treegenerator_components.h:121-133 | The shader name and file are cleared; size, variances, bend and start layer are stored. |
| LegacyComponents.Branch.constructor | TreeGenerator/treegenerator_components.h:180-183 | A legacy branch starts with neither merge flag set. |
| Generator.TableOf | src/treeGenerator.h:238-241 | The three parallel arrays read as one table whose slot i holds ID i, replacement i and chance i. |
| Generator.TreeGenerator.Table | src/treeGenerator.h:238-241 | The table has one slot per array entry. |
| Generator.TreeGenerator.constructor | src/treeGenerator.cpp:14-24 | The constructor defaults: mesh data (8, 8, 2, …), leaf data, tree data (2.0, 0.9, 0.001, 10), the shading colours, 4 iterations, empty collections, and every rule slot empty with chance 0. |
| Generator.TreeGenerator.CreateRuleString | src/treeGenerator.cpp:288-335 | The rule string becomes the rewriting stage's result from the current draw and poll. The return value says whether it completed, and the session's counters advance as the stage's do. |
| Generator.TreeGenerator.RewritePasses | src/treeGenerator.cpp:293-334 | The outer loop computes Expand, including a stop after a cancelled pass. |
| Generator.TreeGenerator.RewritePass | src/treeGenerator.cpp:296-324 | The middle loop computes one Pass over the rule, draws in order. |
| Generator.TreeGenerator.RewriteOne | src/treeGenerator.cpp:298-323 | The slot search and chance test compute RewriteChar for one character. |
| Generator.TreeGenerator.BuildTheTree | src/treeGenerator.cpp:105-286 | The branches, leaves and maxLayers become those of the turtle walk over the rule from empty collections. The return value says whether the walk completed. Draw and poll counts advance as the walk's do. |
| Generator.TreeGenerator.Walk | src/treeGenerator.cpp:147-285 | The loop over the rule string computes the walk Run from the start state. |
| Generator.TreeGenerator.Interpret | src/treeGenerator.cpp:149-283 | The switch on one symbol gives the state and position the walk continues from, and keeps the skeleton well formed. |
| Generator.TreeGenerator.DetermineForwardMovement | src/treeGenerator.cpp:1079-1098 | Four draws (x, y, z, length) move the pose, as Moved. |
| Generator.TreeGenerator.DrawForwardSymbol | src/treeGenerator.cpp:154-173 | 'F' computes DrawForward: the move, the floored radius and the appended section. |
| Generator.TreeGenerator.TurnSymbol | src/treeGenerator.cpp:206-253 | A rotation symbol computes Turn: one unit draw and a turn about its axis. |
| Generator.TreeGenerator.LeafSymbol | src/treeGenerator.cpp:254-269 | 'L' computes AddLeaf. |
| Generator.TreeGenerator.BranchSymbol | src/treeGenerator.cpp:184-194 | '[' computes the walk's Step: a killed branch skips past its bracket, and a live one saves the turtle and grows. |
| Generator.TreeGenerator.TryKillBranch | src/treeGenerator.cpp:337-363 | The branch dies exactly when the percentage draw is below the death probability, compared as int. A dead branch's index moves to the bracket scan's stop; a live branch keeps its index. |
| Generator.TreeGenerator.BuildNewBranch | src/treeGenerator.cpp:365-396 | After the turtle is saved, the new branch and turtle are those of Grow. |
| Generator.TreeGenerator.CreateTreeGroup | src/treeGenerator.cpp:455-489 | The tree counter grows by one and names the tree. maxLayers grows by one, and there is one layer group per layer. The result is the negation of one poll. |
| Generator.TreeGenerator.CreateCurve | src/treeGenerator.cpp:948-964 | A curve through the branch's section positions, under its layer. |
| Generator.TreeGenerator.CreateCurves | src/treeGenerator.cpp:491-518 | The loop computes the cancellable branch loop with a curve per long branch. |
| Generator.TreeGenerator.CurveStep | src/treeGenerator.cpp:498-515 | One branch of the loop keeps the loop's resumption invariant, or stops where the loop's specification does. |
| Generator.TreeGenerator.CreateMeshes | src/treeGenerator.cpp:520-584 | The disks are built, and the loop computes the cancellable branch loop with a mesh per long branch on its layer's disk. |
| Generator.TreeGenerator.MeshStep | src/treeGenerator.cpp:558-582 | One branch of the loop keeps the resumption invariant, or stops where the specification does. |
| Generator.TreeGenerator.MeshBranch | src/treeGenerator.cpp:560-569 | The mesh of a long branch is MeshFor on its layer's disk. |
| Generator.TreeGenerator.CreateLeaf | src/treeGenerator.cpp:690-763 | One leaf's draws and mesh are the loop body PerLeaf at that leaf and draw position. |
| Generator.TreeGenerator.CreateLeaves | src/treeGenerator.cpp:586-688 | The leaf template is appended to the shared leaf arrays, and the leaf loop's output, draws and polls are those of LeafStage. |
| Generator.TreeGenerator.LeafLoop | src/treeGenerator.cpp:670-686 | The loop computes LeafStage. |
| Generator.TreeGenerator.LeafStep | src/treeGenerator.cpp:670-686 | One leaf keeps the loop's resumption invariant, or stops where its specification does. |
| Generator.TreeGenerator.DeleteNodes | src/treeGenerator.cpp:1053-1077 | Deleting the tree steps the tree counter back by one and marks the nodes deleted. |
| Generator.TreeGenerator.MeshTheTree | src/treeGenerator.cpp:398-453 | There is one layer group per layer, and every branch and leaf layer indexes one of them. Output, draws and polls are those of Meshing. The tree counter ends one higher exactly when meshing completes; otherwise the tree is deleted. |
| Generator.TreeGenerator.PollAndMesh | src/treeGenerator.cpp:409-452 | After the group: the poll, then the stages, as Meshing. A cancelled poll or stage deletes the tree and steps the counter back. |
| Generator.TreeGenerator.MeshStages | src/treeGenerator.cpp:416-446 | The branch stage, then the leaf stage when the branches completed and the tree has leaves, as Stages. The leaf template is appended only then. |
| Generator.TreeGenerator.MeshBranches | src/treeGenerator.cpp:416-435 | Curves or meshes for the long branches, as BranchStage. |
| Generator.TreeGenerator.SeedEngine | src/treeGenerator.cpp:61-64 | The current copy reseeds from the clock only when randomising. The 2012 copy sets its static seed from the clock when randomising, then always calls srand with it, restarting the draws. |
| Generator.TreeGenerator.DoIt | src/treeGenerator.cpp:26-103 | Slot 0 holds the default rule, and preview switches curves on and leaves and shaders off. A successful command walked a string that opens with the prerule and closes with the postrule of the intended -rp reading (`FlagArguments.Pieces`), and laid every branch and leaf on an existing layer group. The progress step is 2. The tree count rises by one exactly when the result is success. |
| Generator.TreeGenerator.Setup | src/treeGenerator.cpp:37-73 | The rule is cleared and slot 0 holds the default rule; preview switches curves on and leaves and shaders off. The progress step is 2, and the increase is 100 over 3 steps with leaves or 2 without. With randomize set, the seed becomes the clock reading and the draws restart. Without it, the current copy keeps its seed and draw position, and the 2012 copy keeps its seed but restarts its draws. |
| Generator.TreeGenerator.SetRuleTable | TreeGenerator/treegenerator.cpp:120-141 | Slot 0 gets "A" with the default replacement at chance 100. The 2012 copy also resets 4 iterations and empties the other slots; the current copy leaves them as they were. |
| Generator.TreeGenerator.GrowTree | src/treeGenerator.cpp:75-102 | The rule, branches, leaves, layer count, layer groups, output, draws and polls become those of `Generator.Grown` from the entry state. That is: the start rule is expanded; the prerule and postrule are put round the expansion; the result is walked and meshed. It stops after a cancelled expansion or walk, and then the layers and the deleted flag stay as they were. The tree count rises by one exactly when the result is success. |
| Generator.TreeGenerator.BuildAndMesh | src/treeGenerator.cpp:87-102 | The branches, leaves, layer count, layer groups, output, draws and polls become those of `Generator.Meshed` over the turtle walk `Skeleton.Build` of the entry rule. A cancelled walk meshes nothing and leaves the layers and the deleted flag as they were. The tree count rises by one exactly when the result is success. |
| Generator.GrownShape | src/treeGenerator.cpp:75-102 | `Generator.Grown` has walked only an expansion that completed. Its rule is then the prerule, the expansion and the postrule in that order. A cancelled expansion walks, meshes and creates nothing, and keeps the expansion as the rule. Success needs a completed walk. A walked tree has at least one layer group, every branch lies in one and every leaf lies past the trunk's. |
| Generator.MeshedLayersInRange | src/treeGenerator.cpp:87-102 | Over the turtle walk, `Generator.Meshed` walks exactly when the walk completed, and succeeds only then. A cancelled walk creates nothing. A completed one has maxLayers + 1 groups, with every branch layer in range and every leaf layer at least 1. |
| Generator.FirstMatchIs | src/treeGenerator.cpp:300-303 | A left-to-right slot search that stops at m finds FirstMatch's slot. |
| Generator.ExpandAfterPass | src/treeGenerator.cpp:329-332 | After a pass, the poll decides between stopping with that pass's text and the remaining passes. |
| Generator.PassUnfold | src/treeGenerator.cpp:296-324 | A pass over the rest of the string is one character's rewrite followed by a pass over what follows. |

## Left out

- Maya plumbing is not modelled: MObject handles, node names, the DAG modifier, history toggling and the command syntax. A created node is a value appended to `created`, and a deletion is the flag `deleted`.
- CreateShaders and the shading-group assignment are not modelled. Only the deletion of the tree is recorded.
- The progress window (StartProgressWindow, AdvanceProgressWindow, progressMod) is not modelled beyond the two progress fields doIt sets. It changes no output.
- Only the -rp flag of GetFlagArguments is modelled. The branch and trunk styles are parameters of DoIt, and the 2012 copy's rule-table and iteration flags are reduced to the defaults SetRuleTable writes.
- Generator.TreeGenerator.SetRuleTable and Generator.TreeGenerator.DoIt do not model the current copy's -i flag (src/treeGenerator.cpp:1243) or its rule-table flags -r1, -rc1, -rp1, -r2, -rc2 and -rp2 (src/treeGenerator.cpp:1271-1285). Those flags are read after doIt writes slot 0's defaults (src/treeGenerator.cpp:44-48), so a given flag would replace slot 0's rule and the iteration count. The model's slot 0 always ends with "A", and its iteration count is the field's value on entry.
- Generator.TreeGenerator.DoIt: its contract states what Setup does and the shape of the result: a framed rule, one more tree, layers in range. It does not restate the full outcome in terms of `Generator.Grown`. That outcome is GrowTree's contract, applied to the state Setup leaves.
- Floating-point rounding, cos, sin, matrices and normalisation are not modelled. Reals are exact, and poses and rotations go through an opaque `Geometry` and the `circle` parameter.
- Randomness is a stream of draws, and the clock is the `now` parameter. The distributions' uniformity is not modelled, only their ranges.
- maxLayers and the tree counter are unbounded integers. Their 32-bit overflow is not modelled.
- Leaves.DrawLeaf: the leaf's rotation about its axis and the offset that moves it outside the branch (src/treeGenerator.cpp:729-740) are not modelled; only the drawn shape is.
- Generator.TreeGenerator.DoIt: its contract does not restate the seed or the 2012 rule table; those are stated on Setup, SeedEngine and SetRuleTable.
- Generator.TreeGenerator.DoIt: follows the intended reading of -rp (`FlagArguments.Pieces`), so a given -rp changes the prerule, start rule and postrule it walks. As written, GetFlagArguments loses the flag (src/treeGenerator.h:212-216, src/treeGenerator.cpp:1219-1224, 1271-1273) and the command always walks the defaults `FlagArguments.PiecesAsWritten`; see Findings.
- Generator.TreeGenerator.DoIt requires empty branch, leaf and layer collections: every GenerateTree call runs on a fresh command object.
- The turtle walk runs on values (`Skeleton.BuildState`) threaded through static methods rather than on the command's fields in place. BuildTheTree writes the final values back to the fields.
- src/treeComponents.h:65 documents minimumRadius as the minimum allowed radius, yet src/treeGenerator.cpp:143-144 gives the trunk's first section the initial radius unclamped; the model follows the code (`Skeleton.RadiiFloored` floors every section but that one).
- CreateMesh's per-ring rotation matrices are not modelled. Vertices are recorded symbolically as (ring, point) pairs, and the centre vertex of a cap.
- The Maya GUI command (src/treeGeneratorGUI.cpp) and plug-in registration are not part of this model.

## Findings

| source | as written | input that shows it | evidently intended | confidence | as-written member | corrected member |
|---|---|---|---|---|---|---|
| src/treeGenerator.h:212-216 | GetFlagArguments takes prerule, postrule and start by value, so what it reads from -rp is lost when it returns, and doIt goes on with its defaults | `GenerateTree -rp "X" "B" ""` | the flag's prerule, start and postrule replace the defaults | high; not executed | FlagArguments.RulePiecesFlagLost | FlagArguments.RulePiecesFlagHonoured |
