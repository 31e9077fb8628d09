/** The -rp flag of the GenerateTree command: the prerule, the start rule and the postrule
    that doIt puts round the expanded rule string (src/treeGenerator.cpp:42-49, 76, 84-85;
    TreeGenerator/treegenerator.cpp:129-131, 172, 180-181). GetFlagArguments reads the flag
    into parameters taken by value (src/treeGenerator.h:212-216,
    TreeGenerator/treegenerator.h:197-200), so as written the flag never reaches doIt. The
    model keeps both readings and uses the intended one. */
module FlagArguments {
  import opened Grammar

  datatype Option<T> = None | Some(value: T)

  /** The three strings of -rp; the flag takes them in the order prerule, start, postrule. */
  datatype RulePieces = RulePieces(prerule: string, start: string, postrule: string)

  /** doIt's defaults for the three strings. */
  const DefaultPieces := RulePieces("FGGFGGFGGF", "A", "")

  /** The replacement doIt gives rule "A" in slot 0 of the table, with chance 100: three
      branches, each a trunk piece with leaves that ends in "A" again, turned apart about Z. */
  const DefaultRuleString := "[>FGLLLFGLLLFLLLA]^^^^^[>FGLLLFGLLLFLLLA]^^^^^^^[>FGLLLFGLLLFLLLA]"

  /** GetFlagArguments as written: the flag's strings land in by-value copies, so doIt goes
      on with its defaults whatever was passed. */
  function PiecesAsWritten(rp: Option<RulePieces>): RulePieces
  {
    DefaultPieces
  }

  /** GetFlagArguments as intended: the flag's strings, when it is given, replace the
      defaults. */
  function Pieces(rp: Option<RulePieces>): RulePieces
  {
    match rp
    case None => DefaultPieces
    case Some(p) => p
  }

  // ----- Lemmas -----

  /** As written, -rp is lost: asking for prerule "X" and start "B" still walks a string that
      begins with the default prerule's 'F' and expands the default start rule. */
  lemma RulePiecesFlagLost()
    ensures var given := RulePieces("X", "B", "");
            && PiecesAsWritten(Some(given)).start != given.start
            && CommandString(PiecesAsWritten(Some(given)).prerule, "B", PiecesAsWritten(Some(given)).postrule)[0] == 'F' != given.prerule[0]
  {
    var r := CommandString(DefaultPieces.prerule, "B", DefaultPieces.postrule);
    assert r[0] == DefaultPieces.prerule[0];
  }

  /** As intended, -rp is honoured: the expansion starts from the flag's start rule, and the
      flag's prerule and postrule open and close the command string; without the flag the
      defaults do. */
  lemma RulePiecesFlagHonoured(rp: Option<RulePieces>, expanded: string)
    ensures rp.Some? ==> Pieces(rp) == rp.value
    ensures rp.None? ==> Pieces(rp) == DefaultPieces
    ensures var p := Pieces(rp);
            var r := CommandString(p.prerule, expanded, p.postrule);
            && r[..|p.prerule|] == p.prerule
            && r[|r| - |p.postrule|..] == p.postrule
  {
  }
}
