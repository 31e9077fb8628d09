/** The L-system rewriter behind CreateRuleString (src/treeGenerator.cpp:288-335, and the
    2012 copy at TreeGenerator/treegenerator.cpp:384-434). A table of RuleNumber slots, each an
    ID whose first character triggers it, a replacement and a chance in percent, is applied
    to every character of the command string once per iteration. */
module Grammar {
  import opened TreeComponents
  import opened Randomness

  /** The number of rule slots (RULE_NUMBER / sm_ruleNumber). */
  const RuleNumber: nat := 10

  datatype Rule = Rule(id: string, replacement: string, chance: uint32)

  /** A well-formed table has exactly RuleNumber slots. */
  predicate ValidTable(table: seq<Rule>)
  {
    |table| == RuleNumber
  }

  /** The character a slot reacts to: the first character of its ID. An empty ID yields the
      string's terminating NUL, so an unused slot only ever matches '\0'. */
  function Trigger(id: string): char
  {
    if |id| == 0 then '\0' else id[0]
  }

  /** The first slot at or after k whose trigger is c, or |table| when there is none. */
  function FirstMatch(table: seq<Rule>, c: char, k: nat): (m: nat)
    requires k <= |table|
    ensures k <= m <= |table|
    ensures m < |table| ==> Trigger(table[m].id) == c
    ensures forall i :: k <= i < m ==> Trigger(table[i].id) != c
    decreases |table| - k
  {
    if k == |table| then k
    else if Trigger(table[k].id) == c then k
    else FirstMatch(table, c, k + 1)
  }

  /** Whether rewriting c consumes a draw: its deciding rule is neither certain (100) nor
      disabled (0). */
  predicate Draws(table: seq<Rule>, c: char)
  {
    var m := FirstMatch(table, c, 0);
    m < |table| && table[m].chance != 0 && table[m].chance != 100
  }

  /** Whether a draw p in [0,100] lets a rule of the given chance fire. The current code casts
      the chance to int; the 2012 code compares two unsigned values. */
  function Fires(v: Variant, p: int, chance: uint32): bool
  {
    match v
    case Current => p <= AsInt32(chance)
    case Legacy => p <= chance
  }

  /** Text produced, and the position of the next unused draw. */
  datatype Piece = Piece(text: string, next: nat)

  /** Rewrites one character with draws taken from position `next` of the stream. */
  function RewriteChar(v: Variant, table: seq<Rule>, c: char, s: Stream, next: nat): (r: Piece)
    requires ValidStream(s)
    ensures r.next == if Draws(table, c) then next + 1 else next
    ensures FirstMatch(table, c, 0) == |table| ==> r.text == [c]
    ensures FirstMatch(table, c, 0) < |table| ==>
              r.text == [] || r.text == table[FirstMatch(table, c, 0)].replacement
  {
    var m := FirstMatch(table, c, 0);
    if m == |table| then Piece([c], next)
    else if table[m].chance == 100 then Piece(table[m].replacement, next)
    else if table[m].chance == 0 then Piece([], next)
    else if Fires(v, Percent(v, s(next)), table[m].chance) then Piece(table[m].replacement, next + 1)
    else Piece([], next + 1)
  }

  /** One rewriting pass over w, left to right. */
  function Pass(v: Variant, table: seq<Rule>, w: string, s: Stream, next: nat): Piece
    requires ValidStream(s)
    decreases |w|
  {
    if |w| == 0 then Piece([], next)
    else
      var h := RewriteChar(v, table, w[0], s, next);
      var t := Pass(v, table, w[1..], s, h.next);
      Piece(h.text + t.text, t.next)
  }

  /** How many characters of w consume a draw when rewritten. */
  function DrawsNeeded(table: seq<Rule>, w: string): nat
    decreases |w|
  {
    if |w| == 0 then 0
    else (if Draws(table, w[0]) then 1 else 0) + DrawsNeeded(table, w[1..])
  }

  /** Outcome of the whole rewriting stage: the rule string, the next unused draw, the next
      unused cancellation poll, and whether it ran to completion. */
  datatype Expansion = Expansion(rule: string, next: nat, polls: nat, ok: bool)

  /** `iterations` passes, each followed by a cancellation poll; on cancellation the stage
      stops with the string of the pass just finished. */
  function Expand(v: Variant, table: seq<Rule>, w: string, iterations: nat, s: Stream, next: nat,
                  cancel: CancelOracle, polls: nat): (r: Expansion)
    requires ValidStream(s)
    ensures r.ok ==> r.polls == polls + iterations
    ensures !r.ok ==> polls < r.polls <= polls + iterations && cancel(r.polls - 1)
    ensures r.next >= next
    decreases iterations
  {
    if iterations == 0 then Expansion(w, next, polls, true)
    else
      var p := Pass(v, table, w, s, next);
      PassConsumes(v, table, w, s, next);
      if cancel(polls) then Expansion(p.text, p.next, polls + 1, false)
      else Expand(v, table, p.text, iterations - 1, s, p.next, cancel, polls + 1)
  }

  /** The command string the turtle walks: prerule and postrule are attached around the
      expanded rule after rewriting, so they are never rewritten themselves. */
  function CommandString(prerule: string, expanded: string, postrule: string): (r: string)
    ensures |r| == |prerule| + |expanded| + |postrule|
    ensures r[..|prerule|] == prerule
    ensures r[|prerule|..|prerule| + |expanded|] == expanded
    ensures r[|r| - |postrule|..] == postrule
  {
    prerule + expanded + postrule
  }

  // ----- Properties of a single pass -----

  /** A pass consumes exactly one draw per character whose deciding rule is probabilistic. */
  lemma {:induction false} PassConsumes(v: Variant, table: seq<Rule>, w: string, s: Stream, next: nat)
    requires ValidStream(s)
    ensures Pass(v, table, w, s, next).next == next + DrawsNeeded(table, w)
    decreases |w|
  {
    if |w| > 0 {
      var h := RewriteChar(v, table, w[0], s, next);
      PassConsumes(v, table, w[1..], s, h.next);
    }
  }

  /** A pass maps every character independently: rewriting a + b is rewriting a, then
      rewriting b from the draw where a stopped. */
  lemma {:induction false} PassConcat(v: Variant, table: seq<Rule>, a: string, b: string, s: Stream, next: nat)
    requires ValidStream(s)
    ensures var pa := Pass(v, table, a, s, next);
            var pb := Pass(v, table, b, s, pa.next);
            Pass(v, table, a + b, s, next) == Piece(pa.text + pb.text, pb.next)
    decreases |a|
  {
    if |a| == 0 {
      assert a + b == b;
    } else {
      var h := RewriteChar(v, table, a[0], s, next);
      assert (a + b)[0] == a[0];
      assert (a + b)[1..] == a[1..] + b;
      PassConcat(v, table, a[1..], b, s, h.next);
    }
  }

  /** Characters that match no trigger are copied unchanged, and cost no draw. */
  lemma {:induction false} PassCopiesUnmatched(v: Variant, table: seq<Rule>, w: string, s: Stream, next: nat)
    requires ValidStream(s)
    requires forall i :: 0 <= i < |w| ==> FirstMatch(table, w[i], 0) == |table|
    ensures Pass(v, table, w, s, next) == Piece(w, next)
    decreases |w|
  {
    if |w| > 0 {
      PassCopiesUnmatched(v, table, w[1..], s, next);
      assert [w[0]] + w[1..] == w;
    }
  }

  /** A pass that needs no draws does not depend on the random stream at all. */
  lemma {:induction false} PassIgnoresStream(v: Variant, table: seq<Rule>, w: string,
                                             s1: Stream, n1: nat, s2: Stream, n2: nat)
    requires ValidStream(s1) && ValidStream(s2)
    requires DrawsNeeded(table, w) == 0
    ensures Pass(v, table, w, s1, n1).text == Pass(v, table, w, s2, n2).text
    decreases |w|
  {
    if |w| > 0 {
      PassIgnoresStream(v, table, w[1..], s1, n1, s2, n2);
    }
  }

  // ----- Properties of one rule decision -----

  /** First match wins: slots after the deciding one are never consulted, so two tables
      that agree up to and including it rewrite the character identically. */
  lemma {:induction false} LaterRulesIgnored(v: Variant, t1: seq<Rule>, t2: seq<Rule>, c: char, s: Stream, next: nat)
    requires ValidStream(s)
    requires |t1| == |t2|
    requires FirstMatch(t1, c, 0) < |t1|
    requires t1[..FirstMatch(t1, c, 0) + 1] == t2[..FirstMatch(t1, c, 0) + 1]
    ensures RewriteChar(v, t1, c, s, next) == RewriteChar(v, t2, c, s, next)
  {
    var m := FirstMatch(t1, c, 0);
    FirstMatchAgrees(t1, t2, c, 0, m);
  }

  lemma {:induction false} FirstMatchAgrees(t1: seq<Rule>, t2: seq<Rule>, c: char, k: nat, m: nat)
    requires |t1| == |t2| && k <= m < |t1|
    requires FirstMatch(t1, c, k) == m
    requires t1[..m + 1] == t2[..m + 1]
    ensures FirstMatch(t2, c, k) == m
    decreases m - k
  {
    assert t1[k] == t1[..m + 1][k] == t2[..m + 1][k] == t2[k];
    if k < m {
      FirstMatchAgrees(t1, t2, c, k + 1, m);
    }
  }

  /** The three kinds of chance: 100 always substitutes and 0 always drops, whatever the
      draw; any other chance substitutes exactly when the draw lets it fire, and otherwise
      drops the character rather than copying it. */
  lemma ChanceOutcome(v: Variant, table: seq<Rule>, c: char, s: Stream, next: nat)
    requires ValidStream(s)
    requires FirstMatch(table, c, 0) < |table|
    ensures var rule := table[FirstMatch(table, c, 0)];
            var r := RewriteChar(v, table, c, s, next);
            && (rule.chance == 100 ==> r == Piece(rule.replacement, next))
            && (rule.chance == 0 ==> r == Piece([], next))
            && (rule.chance != 0 && rule.chance != 100 ==>
                  r.next == next + 1 &&
                  (Fires(v, Percent(v, s(next)), rule.chance) ==> r.text == rule.replacement) &&
                  (!Fires(v, Percent(v, s(next)), rule.chance) ==> r.text == []))
  { }

  /** The two copies decide identically for every chance below 2^31; above it the current
      code's cast makes the chance negative, so such a rule never fires, while the 2012 code
      always substitutes. */
  lemma FiresAgree(p: int, chance: uint32)
    requires 0 <= p <= 100
    ensures chance < 0x8000_0000 ==> Fires(Current, p, chance) == Fires(Legacy, p, chance)
    ensures chance >= 0x8000_0000 ==> !Fires(Current, p, chance) && Fires(Legacy, p, chance)
  { }

  // ----- Properties of the whole stage -----

  /** With no iterations the rule string is the start string. */
  lemma ExpandZero(v: Variant, table: seq<Rule>, w: string, s: Stream, next: nat, cancel: CancelOracle, polls: nat)
    requires ValidStream(s)
    ensures Expand(v, table, w, 0, s, next, cancel, polls) == Expansion(w, next, polls, true)
  { }

  /** The stage completes exactly when none of its polls reports a cancellation. */
  lemma {:induction false} ExpandOkIff(v: Variant, table: seq<Rule>, w: string, iterations: nat, s: Stream,
                                       next: nat, cancel: CancelOracle, polls: nat)
    requires ValidStream(s)
    ensures Expand(v, table, w, iterations, s, next, cancel, polls).ok <==>
            forall k :: polls <= k < polls + iterations ==> !cancel(k)
    decreases iterations
  {
    if iterations > 0 {
      var p := Pass(v, table, w, s, next);
      ExpandOkIff(v, table, p.text, iterations - 1, s, p.next, cancel, polls + 1);
    }
  }

  /** A string none of whose characters triggers a rule survives any number of passes. */
  lemma {:induction false} ExpandUnmatchedFixed(v: Variant, table: seq<Rule>, w: string, iterations: nat, s: Stream,
                                                next: nat, cancel: CancelOracle, polls: nat)
    requires ValidStream(s)
    requires forall i :: 0 <= i < |w| ==> FirstMatch(table, w[i], 0) == |table|
    ensures Expand(v, table, w, iterations, s, next, cancel, polls).rule == w
    ensures Expand(v, table, w, iterations, s, next, cancel, polls).next == next
    decreases iterations
  {
    if iterations > 0 {
      PassCopiesUnmatched(v, table, w, s, next);
      ExpandUnmatchedFixed(v, table, w, iterations - 1, s, next, cancel, polls + 1);
    }
  }

  // ----- The two copies side by side -----

  /** When the current generator's percentages are the 2012 code's rand() % 101 and every
      chance is below 2^31, both copies rewrite every string identically. */
  lemma {:induction false} PassVariantsAgree(table: seq<Rule>, w: string, s: Stream, next: nat)
    requires ValidStream(s)
    requires forall k: nat :: s(k).percent == s(k).raw % 101
    requires forall i :: 0 <= i < |table| ==> table[i].chance < 0x8000_0000
    ensures Pass(Current, table, w, s, next) == Pass(Legacy, table, w, s, next)
    decreases |w|
  {
    if |w| > 0 {
      var m := FirstMatch(table, w[0], 0);
      if m < |table| {
        FiresAgree(Percent(Current, s(next)), table[m].chance);
      }
      var h := RewriteChar(Current, table, w[0], s, next);
      PassVariantsAgree(table, w[1..], s, h.next);
    }
  }

  lemma {:induction false} ExpandVariantsAgree(table: seq<Rule>, w: string, iterations: nat, s: Stream,
                                               next: nat, cancel: CancelOracle, polls: nat)
    requires ValidStream(s)
    requires forall k: nat :: s(k).percent == s(k).raw % 101
    requires forall i :: 0 <= i < |table| ==> table[i].chance < 0x8000_0000
    ensures Expand(Current, table, w, iterations, s, next, cancel, polls) ==
            Expand(Legacy, table, w, iterations, s, next, cancel, polls)
    decreases iterations
  {
    if iterations > 0 {
      PassVariantsAgree(table, w, s, next);
      var p := Pass(Current, table, w, s, next);
      ExpandVariantsAgree(table, p.text, iterations - 1, s, p.next, cancel, polls + 1);
    }
  }

  // ----- A worked example -----

  /** A table whose only rule rewrites A to FA with certainty; the other slots are unused. */
  function GrowTable(): (t: seq<Rule>)
    ensures ValidTable(t)
  {
    [Rule("A", "FA", 100)] + seq(RuleNumber - 1, _ => Rule("", "", 0))
  }

  /** Three passes of A -> FA from "A" give "FFFA", without drawing. */
  lemma GrowExample(v: Variant, s: Stream, cancel: CancelOracle)
    requires ValidStream(s)
    requires forall k: nat :: !cancel(k)
    ensures Expand(v, GrowTable(), "A", 3, s, 0, cancel, 0) == Expansion("FFFA", 0, 3, true)
  {
    var t := GrowTable();
    assert FirstMatch(t, 'A', 0) == 0;
    assert FirstMatch(t, 'F', 0) == 10 by {
      forall i | 0 <= i < 10 ensures Trigger(t[i].id) != 'F' {
        if i > 0 { assert t[i] == Rule("", "", 0); }
      }
    }
    assert Pass(v, t, "A", s, 0) == Piece("FA", 0);
    PassConcat(v, t, "F", "A", s, 0);
    assert "F" + "A" == "FA";
    assert Pass(v, t, "FA", s, 0) == Piece("FFA", 0);
    PassConcat(v, t, "F", "FA", s, 0);
    assert "F" + "FA" == "FFA";
    assert Pass(v, t, "FFA", s, 0) == Piece("FFFA", 0);
  }
}
