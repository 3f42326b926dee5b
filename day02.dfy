/** Rock, paper, scissors: the strategy guide's rounds (src/day02.rs). */
module Day02 {
  import opened Prelude

  datatype Hand = Rock | Paper | Scissors

  datatype Outcome = Win | Lose | Draw

  /** `Hand::wins`: how a round ends for the player holding `me`. */
  function Wins(me: Hand, other: Hand): Outcome
  {
    if me == other then Draw
    else
      match (me, other)
      case (Rock, Scissors) => Win
      case (Scissors, Paper) => Win
      case (Paper, Rock) => Win
      case _ => Lose
  }

  /** The hand `me` beats, per the rules of the game, independently of `Wins`. */
  function Beats(me: Hand): Hand
  {
    match me
    case Rock => Scissors
    case Paper => Rock
    case Scissors => Paper
  }

  /** `Wins` agrees with the rules: a hand draws against itself, wins against the
      hand it beats, and loses otherwise. */
  lemma WinsFollowsRules(me: Hand, other: Hand)
    ensures Wins(me, other) == Draw <==> me == other
    ensures Wins(me, other) == Win <==> other == Beats(me)
    ensures Wins(me, other) == Lose <==> me == Beats(other)
  {
  }

  /** Exactly one of two different hands wins. */
  lemma WinsAntisymmetric(a: Hand, b: Hand)
    requires a != b
    ensures (Wins(a, b) == Win) != (Wins(b, a) == Win)
    ensures Wins(a, b) != Draw
  {
  }

  function Score(h: Hand): (s: nat)
    ensures 1 <= s <= 3
  {
    match h
    case Rock => 1
    case Paper => 2
    case Scissors => 3
  }

  function OutcomeScore(o: Outcome): (s: nat)
    ensures s == 0 || s == 3 || s == 6
  {
    match o
    case Win => 6
    case Lose => 0
    case Draw => 3
  }

  /** `Hand::from_str`; `None` is the source's `Err("bad input")`. */
  function ParseHand(s: string): (r: Option<Hand>)
    ensures r == Some(Rock) <==> s == "A" || s == "X"
    ensures r == Some(Paper) <==> s == "B" || s == "Y"
    ensures r == Some(Scissors) <==> s == "C" || s == "Z"
  {
    if s == "A" || s == "X" then Some(Rock)
    else if s == "B" || s == "Y" then Some(Paper)
    else if s == "C" || s == "Z" then Some(Scissors)
    else None
  }

  /** `Outcome::from_str`; `None` is the source's `Err("nope")`. */
  function ParseOutcome(s: string): (r: Option<Outcome>)
    ensures r == Some(Lose) <==> s == "X"
    ensures r == Some(Draw) <==> s == "Y"
    ensures r == Some(Win) <==> s == "Z"
  {
    if s == "X" then Some(Lose)
    else if s == "Y" then Some(Draw)
    else if s == "Z" then Some(Win)
    else None
  }

  /** Gold's choice of hand: the one that gives `outcome` against `them`. */
  function Choose(them: Hand, outcome: Outcome): (you: Hand)
    ensures Wins(you, them) == outcome
  {
    match outcome
    case Draw => them
    case Win =>
      (match them
       case Rock => Paper
       case Paper => Scissors
       case Scissors => Rock)
    case Lose =>
      (match them
       case Rock => Scissors
       case Paper => Rock
       case Scissors => Paper)
  }

  /** The chosen hand is the only one that gives the wanted outcome. */
  lemma ChooseUnique(them: Hand, outcome: Outcome, h: Hand)
    requires Wins(h, them) == outcome
    ensures h == Choose(them, outcome)
  {
  }

  /** A silver round: the second column is your hand, the first theirs. */
  function SilverRound(them: Hand, you: Hand): (s: nat)
    ensures 1 <= s <= 9
  {
    OutcomeScore(Wins(you, them)) + Score(you)
  }

  /** A gold round: the second column is the outcome to reach. */
  function GoldRound(them: Hand, outcome: Outcome): (s: nat)
    ensures 1 <= s <= 9
    ensures s == SilverRound(them, Choose(them, outcome))
  {
    OutcomeScore(outcome) + Score(Choose(them, outcome))
  }

  function SumSilver(rounds: seq<(Hand, Hand)>): nat
  {
    if rounds == [] then 0
    else SumSilver(rounds[..|rounds| - 1]) + SilverRound(rounds[|rounds| - 1].0, rounds[|rounds| - 1].1)
  }

  function SumGold(rounds: seq<(Hand, Outcome)>): nat
  {
    if rounds == [] then 0
    else SumGold(rounds[..|rounds| - 1]) + GoldRound(rounds[|rounds| - 1].0, rounds[|rounds| - 1].1)
  }

  lemma {:induction false} SumSilverBounds(rounds: seq<(Hand, Hand)>)
    ensures |rounds| <= SumSilver(rounds) <= 9 * |rounds|
  {
    if rounds != [] {
      SumSilverBounds(rounds[..|rounds| - 1]);
    }
  }

  /** Silver's loop over the parsed lines `(them, you)`. */
  method Silver(rounds: seq<(Hand, Hand)>) returns (total: nat)
    ensures total == SumSilver(rounds)
    ensures |rounds| <= total <= 9 * |rounds|
  {
    total := 0;
    for i := 0 to |rounds|
      invariant total == SumSilver(rounds[..i])
    {
      assert rounds[..i + 1][..i] == rounds[..i];
      var (them, you) := rounds[i];
      total := total + OutcomeScore(Wins(you, them));
      total := total + Score(you);
    }
    assert rounds[..|rounds|] == rounds;
    SumSilverBounds(rounds);
  }

  /** Gold's loop over the parsed lines `(them, outcome)`. */
  method Gold(rounds: seq<(Hand, Outcome)>) returns (total: nat)
    ensures total == SumGold(rounds)
  {
    total := 0;
    for i := 0 to |rounds|
      invariant total == SumGold(rounds[..i])
    {
      assert rounds[..i + 1][..i] == rounds[..i];
      var (them, outcome) := rounds[i];
      total := total + OutcomeScore(outcome);
      var you := Choose(them, outcome);
      total := total + Score(you);
    }
    assert rounds[..|rounds|] == rounds;
  }
}
