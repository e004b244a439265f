/**
 * The "can see" condition: its four registered patterns, the decision
 * table by which `init` picks the negation and the roles of its two
 * operands, and the text `toString` gives.
 */
module CondCanSee {
  import opened Wrappers
  import opened Syntax

  /** Which sentence a pattern is: "X can see Y" or "X is visible for Y". */
  datatype Phrase = CanSee | VisibleFor

  /** The wording of a pattern between its two `%players%` slots; it holds no slot of its own. */
  type Wording = w: string | '%' !in w witness ""

  /**
   * A registered pattern `%players%<wording>%players%`, with what its wording
   * says: the phrase, whether it is the negative form ("isn't", "can't"),
   * and whether it has the optional `(1¦in)` that sets parse mark 1 for
   * "invisible".
   */
  datatype SyntaxPattern = SyntaxPattern(wording: Wording, phrase: Phrase, negative: bool, hasInvisibleMark: bool)
  {
    /** The pattern as registered. */
    function Text(): string
    {
      "%players%" + wording + "%players%"
    }
  }

  // The wordings of the four registered patterns, one constant each.
  const VisibleForWording: Wording := " (is|are) [(1¦in)]visible for "
  const CanSeeWording: Wording := " can see "
  const NotVisibleForWording: Wording := " (is|are)(n't| not) [(1¦in)]visible for "
  const CannotSeeWording: Wording := " can('t| not) see "

  /** The patterns in registration order; `matchedPattern` indexes this list. */
  const Patterns: seq<SyntaxPattern> := [
    SyntaxPattern(VisibleForWording, VisibleFor, false, true),
    SyntaxPattern(CanSeeWording, CanSee, false, false),
    SyntaxPattern(NotVisibleForWording, VisibleFor, true, true),
    SyntaxPattern(CannotSeeWording, CanSee, true, false)
  ]

  /** The number of expression slots (`%type%`) in a pattern text: one per pair of `%`. */
  function Slots(text: string): nat
  {
    multiset(text)['%'] / 2
  }

  /** The parse marks a match of the pattern can carry. */
  function Marks(p: SyntaxPattern): set<int>
  {
    if p.hasInvisibleMark then {0, 1} else {0}
  }

  /** `matchedPattern > 1 ^ parseResult.mark == 1`: whether `init` sets the condition negated. */
  predicate Negated(matchedPattern: int, mark: int)
  {
    (matchedPattern > 1) != (mark == 1)
  }

  /** The index of the operand `init` stores as the viewers (`players`). */
  function ViewerSlot(matchedPattern: int): nat
  {
    if matchedPattern == 1 || matchedPattern == 3 then 0 else 1
  }

  /** The index of the operand `init` stores as the targets (`targetPlayers`). */
  function TargetSlot(matchedPattern: int): nat
  {
    if matchedPattern == 1 || matchedPattern == 3 then 1 else 0
  }

  /** Whether a sentence of the pattern, with the mark, denies that the viewers see the targets. */
  predicate DeniesSight(p: SyntaxPattern, mark: int)
  {
    p.negative != (p.hasInvisibleMark && mark == 1)
  }

  /** `viewers + (negated ? " can't see " : " can see ") + targets`. */
  function Describe(viewers: string, negated: bool, targets: string): (r: string)
    ensures |r| == |viewers| + (if negated then 11 else 9) + |targets|
    ensures r[..|viewers|] == viewers && r[|r| - |targets|..] == targets
    ensures r[|viewers|..|r| - |targets|] == if negated then " can't see " else " can see "
  {
    viewers + (if negated then " can't see " else " can see ") + targets
  }

  /** Every registered pattern has exactly two expression slots. */
  lemma EveryPatternHasTwoSlots(p: SyntaxPattern)
    requires p in Patterns
    ensures Slots(p.Text()) == 2
  {
  }

  /**
   * The decision table in `init` follows the wording: for every pattern and
   * every mark it can produce, the condition is negated exactly when the
   * sentence denies sight, and the viewers are the first operand of "can
   * see" and the second of "is visible for".
   */
  lemma DecisionTableFollowsWording(i: int, mark: int)
    requires 0 <= i < |Patterns| && mark in Marks(Patterns[i])
    ensures Negated(i, mark) <==> DeniesSight(Patterns[i], mark)
    ensures ViewerSlot(i) == (if Patterns[i].phrase == CanSee then 0 else 1)
    ensures TargetSlot(i) == 1 - ViewerSlot(i)
  {
  }

  /** Two rows of the table: pattern 1 with mark 0 is positive, pattern 3 with mark 0 negative. */
  lemma NegationExamples()
    ensures !Negated(1, 0) && Negated(3, 0)
  {
  }

  class CondCanSee {
    var players: Option<Node>
    var targetPlayers: Option<Node>
    /** The negation flag `Condition.setNegated` sets and `isNegated` reads. */
    var negated: bool

    constructor ()
      ensures players == None && targetPlayers == None && !negated
    {
      players := None;
      targetPlayers := None;
      negated := false;
    }

    /**
     * `init`: sets the negation from the table and picks the viewers and
     * targets among the two operands; it always succeeds.
     */
    method Init(exprs: seq<Node>, matchedPattern: int, isDelayed: Kleenean, parseResult: ParseResult)
      returns (ok: bool)
      requires |exprs| >= 2
      modifies this
      ensures ok
      ensures negated == Negated(matchedPattern, parseResult.mark)
      ensures players == Some(exprs[ViewerSlot(matchedPattern)])
      ensures targetPlayers == Some(exprs[TargetSlot(matchedPattern)])
    {
      negated := (matchedPattern > 1) != (parseResult.mark == 1);
      if matchedPattern == 1 || matchedPattern == 3 {
        players := Some(exprs[0]);
        targetPlayers := Some(exprs[1]);
      } else {
        players := Some(exprs[1]);
        targetPlayers := Some(exprs[0]);
      }
      return true;
    }

    /**
     * `toString`, given how each operand prints: the viewers' text, then
     * "can't see" exactly when negated, then the targets' text.
     */
    function ToString(show: Node -> string): (r: string)
      reads this
      requires players.Some? && targetPlayers.Some?
      ensures |r| == |show(players.value)| + (if negated then 11 else 9) + |show(targetPlayers.value)|
      ensures r[..|show(players.value)|] == show(players.value)
      ensures r[|r| - |show(targetPlayers.value)|..] == show(targetPlayers.value)
      ensures r[|show(players.value)|..|r| - |show(targetPlayers.value)|] == if negated then " can't see " else " can see "
    {
      Describe(show(players.value), negated, show(targetPlayers.value))
    }
  }

  /**
   * What the condition says after `init` on a match of pattern `i`: for
   * "a is visible for b" it reads "b can see a", with "can't" exactly when
   * the sentence denies sight.
   */
  lemma InitThenDescribe(i: int, mark: int, a: Node, b: Node, show: Node -> string)
    requires 0 <= i < |Patterns| && mark in Marks(Patterns[i])
    ensures var exprs := [a, b];
      Describe(show(exprs[ViewerSlot(i)]), Negated(i, mark), show(exprs[TargetSlot(i)])) ==
      if Patterns[i].phrase == CanSee
      then Describe(show(a), DeniesSight(Patterns[i], mark), show(b))
      else Describe(show(b), DeniesSight(Patterns[i], mark), show(a))
  {
  }
}
