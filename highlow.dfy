/**
 * The single-player higher-or-lower game. A shuffled deck is popped one card
 * at a time; before each draw the player guesses whether the drawn card will
 * rank higher or lower than the current one. A right guess extends the score
 * (the streak of right guesses), any other outcome resets it to zero.
 */
module HighLow {
  import opened Cards

  /** Suits never decide anything in this game: every pair compares Equal. */
  function SuitCompare(a: Suit, b: Suit): (o: Ordering)
    ensures o == Equal
  {
    Equal
  }

  /** The face value of a rank, Two = 2 up to Ace = 14. */
  function RankValue(r: Rank): (v: nat)
    ensures 2 <= v <= 14
  {
    match r
    case Two => 2
    case Three => 3
    case Four => 4
    case Five => 5
    case Six => 6
    case Seven => 7
    case Eight => 8
    case Nine => 9
    case Ten => 10
    case Jack => 11
    case Queen => 12
    case King => 13
    case Ace => 14
  }

  /** A rank's value is 14 less its ordinal, so different ranks have different values. */
  lemma RankValueOrdinal(r: Rank)
    ensures RankValue(r) == 14 - RankOrdinal(r)
    ensures RanksByOrdinal()[14 - RankValue(r)] == r
  {
  }

  /** Ranks compare by value; only a rank equals itself. */
  function RankCompare(a: Rank, b: Rank): (o: Ordering)
    ensures o == Less <==> RankValue(a) < RankValue(b)
    ensures o == Greater <==> RankValue(a) > RankValue(b)
    ensures o == Equal <==> a == b
  {
    RankValueOrdinal(a);
    RankValueOrdinal(b);
    if RankValue(a) < RankValue(b) then Less
    else if RankValue(a) > RankValue(b) then Greater
    else Equal
  }

  /** Cards compare by rank alone. */
  function CardCompare(a: Card, b: Card): (o: Ordering)
    ensures o == Less <==> RankValue(a.rank) < RankValue(b.rank)
    ensures o == Greater <==> RankValue(a.rank) > RankValue(b.rank)
    ensures o == Equal <==> a.rank == b.rank
  {
    RankCompare(a.rank, b.rank)
  }

  /** The card order ignores suits, and swapping the arguments flips the answer. */
  lemma CardOrderIgnoresSuit(a: Card, b: Card, s: Suit, t: Suit)
    ensures CardCompare(BaseCard(s, a.rank), BaseCard(t, b.rank)) == CardCompare(a, b)
    ensures CardCompare(a, b) == Greater <==> CardCompare(b, a) == Less
    ensures CardCompare(a, b) == Equal <==> CardCompare(b, a) == Equal
  {
  }

  /** The card order is transitive. */
  lemma CardOrderTransitive(a: Card, b: Card, c: Card)
    requires CardCompare(a, b) == Greater && CardCompare(b, c) == Greater
    ensures CardCompare(a, c) == Greater
  {
  }

  /** The player's guess. */
  datatype Action = Higher | Lower

  /** The unsigned 32-bit integers the actions are exchanged as. */
  newtype u32 = x: int | 0 <= x < 0x1_0000_0000

  /** The action with a given number: Higher is 0, Lower is 1; any other number panics (None). */
  function ActionFromU32(n: u32): (a: Option<Action>)
    ensures a.Some? <==> n < 2
    ensures a.Some? ==> ActionToU32(a.value) == n
  {
    if n == 0 then Some(Higher)
    else if n == 1 then Some(Lower)
    else None
  }

  /** The number of an action. */
  function ActionToU32(a: Action): (n: u32)
    ensures n < 2
    ensures n == 0 <==> a == Higher
    ensures n == 1 <==> a == Lower
  {
    match a
    case Higher => 0
    case Lower => 1
  }

  /** Converting an action to a number and back gives the action again. */
  lemma ActionRoundTrip(a: Action)
    ensures ActionFromU32(ActionToU32(a)) == Some(a)
  {
  }

  /** Whether the drawn card proves the guess right, by the game's card order. */
  predicate Right(action: Action, drawn: Card, current: Card): (b: bool)
    ensures b <==> (action == Higher && RankValue(drawn.rank) > RankValue(current.rank))
                   || (action == Lower && RankValue(drawn.rank) < RankValue(current.rank))
    ensures drawn.rank == current.rank ==> !b
  {
    (action == Higher && CardCompare(drawn, current) == Greater)
    || (action == Lower && CardCompare(drawn, current) == Less)
  }

  /**
   * The score after a draw: one more when the guess was right, otherwise
   * (a wrong guess, or a drawn card of the same rank) zero.
   */
  function NextScore(score: nat, action: Action, drawn: Card, current: Card): (s: nat)
    ensures s == score + 1 <==>
      (action == Higher && RankValue(drawn.rank) > RankValue(current.rank))
      || (action == Lower && RankValue(drawn.rank) < RankValue(current.rank))
    ensures s != score + 1 ==> s == 0
  {
    if Right(action, drawn, current) then score + 1 else 0
  }

  /** A card of the current card's rank resets the score whatever the guess. */
  lemma SameRankResets(score: nat, action: Action, drawn: Card, current: Card)
    requires drawn.rank == current.rank
    ensures NextScore(score, action, drawn, current) == 0
  {
  }

  /**
   * Whether each guess was right: history holds the cards turned up in
   * order, and guess i was made on history[i] before history[i + 1] was drawn.
   */
  function Outcomes(history: seq<Card>, guesses: seq<Action>): (o: seq<bool>)
    requires |history| == |guesses| + 1
    ensures |o| == |guesses|
  {
    seq(|guesses|, i requires 0 <= i < |guesses| => Right(guesses[i], history[i + 1], history[i]))
  }

  /** One more draw adds its outcome at the end. */
  lemma OutcomesExtend(history: seq<Card>, guesses: seq<Action>, action: Action, drawn: Card)
    requires |history| == |guesses| + 1
    ensures Outcomes(history + [drawn], guesses + [action])
         == Outcomes(history, guesses) + [Right(action, drawn, history[|history| - 1])]
  {
    var h, g, n := history + [drawn], guesses + [action], |guesses|;
    var before, after := Outcomes(history, guesses), Outcomes(h, g);
    forall i | 0 <= i < n
      ensures after[i] == before[i]
    {
      assert g[i] == guesses[i] && h[i + 1] == history[i + 1] && h[i] == history[i];
    }
    assert g[n] == action && h[n + 1] == drawn && h[n] == history[n];
  }

  /** The number of right guesses at the end of a run of outcomes. */
  function TrailingRun(o: seq<bool>): (k: nat)
    ensures k <= |o|
  {
    if o == [] then 0
    else if o[|o| - 1] then TrailingRun(o[..|o| - 1]) + 1
    else 0
  }

  /**
   * k is the current streak: the last k guesses were right and the one
   * before them, if any, was not.
   */
  ghost predicate Streak(o: seq<bool>, k: nat)
  {
    k <= |o|
    && (forall i :: |o| - k <= i < |o| ==> o[i])
    && (k < |o| ==> !o[|o| - k - 1])
  }

  /** The trailing run is a streak. */
  lemma {:induction false} TrailingRunIsStreak(o: seq<bool>)
    ensures Streak(o, TrailingRun(o))
  {
    if o != [] && o[|o| - 1] {
      var front := o[..|o| - 1];
      TrailingRunIsStreak(front);
      assert forall i :: 0 <= i < |front| ==> front[i] == o[i];
    }
  }

  /** Only the trailing run is a streak: the streak is unique. */
  lemma {:induction false} StreakIsTrailingRun(o: seq<bool>, k: nat)
    requires Streak(o, k)
    ensures k == TrailingRun(o)
  {
    if o != [] && k > 0 {
      var front := o[..|o| - 1];
      assert forall i :: 0 <= i < |front| ==> front[i] == o[i];
      assert Streak(front, k - 1);
      StreakIsTrailingRun(front, k - 1);
    }
  }

  /** NextScore continues the trailing run of the game one draw longer. */
  lemma RunExtends(history: seq<Card>, guesses: seq<Action>, action: Action, drawn: Card)
    requires |history| == |guesses| + 1
    ensures TrailingRun(Outcomes(history + [drawn], guesses + [action]))
         == NextScore(TrailingRun(Outcomes(history, guesses)), action, drawn, history[|history| - 1])
  {
    var o, b := Outcomes(history, guesses), Right(action, drawn, history[|history| - 1]);
    OutcomesExtend(history, guesses, action, drawn);
    assert (o + [b])[..|o|] == o;
  }

  /**
   * When the cards left and the cards turned up together make the deck, no
   * card is both left and turned up and none repeats.
   */
  lemma DrawnCardsLeftDeck(deck: seq<Card>, history: seq<Card>)
    requires multiset(deck) + multiset(history) == multiset(Deck())
    ensures Distinct(deck + history)
    ensures forall c :: c in history ==> c !in deck
  {
    var all := deck + history;
    assert multiset(all) == multiset(Deck());
    forall c | true
      ensures multiset(all)[c] <= 1
    {
      DeckHasEachCardOnce(c);
    }
    SingleCountsDistinct(all);
    forall c | c in history
      ensures c !in deck
    {
      DeckHasEachCardOnce(c);
    }
  }

  /**
   * The score plus the cards left is at most 51, so the byte-wide score
   * never overflows.
   */
  lemma ScoreBound(deck: seq<Card>, history: seq<Card>, guesses: seq<Action>)
    requires |history| == |guesses| + 1
    requires multiset(deck) + multiset(history) == multiset(Deck())
    ensures TrailingRun(Outcomes(history, guesses)) + |deck| <= 51
  {
    assert |multiset(deck) + multiset(history)| == |multiset(Deck())|;
  }

  /**
   * The game's invariant: the cards turned up end with the current card,
   * together with the cards left they make the deck, and the score is the
   * run of right guesses.
   */
  ghost predicate Playing(deck: seq<Card>, card: Card, history: seq<Card>, guesses: seq<Action>, score: nat)
  {
    |history| == |guesses| + 1 && history[|history| - 1] == card
    && multiset(deck) + multiset(history) == multiset(Deck())
    && score == TrailingRun(Outcomes(history, guesses))
  }

  /** Drawing the last card of the deck and scoring the guess keeps the invariant. */
  lemma DrawKeepsPlaying(deck: seq<Card>, card: Card, history: seq<Card>, guesses: seq<Action>, score: nat, action: Action)
    requires Playing(deck, card, history, guesses, score) && deck != []
    ensures var n := |deck| - 1;
      Playing(deck[..n], deck[n], history + [deck[n]], guesses + [action], NextScore(score, action, deck[n], card))
  {
    var n := |deck| - 1;
    RunExtends(history, guesses, action, deck[n]);
    MoveLast(deck, history);
  }

  /** Moving the last card of one sequence to the end of another keeps their joint multiset. */
  lemma MoveLast<T>(xs: seq<T>, ys: seq<T>)
    requires xs != []
    ensures multiset(xs[..|xs| - 1]) + multiset(ys + [xs[|xs| - 1]]) == multiset(xs) + multiset(ys)
  {
    assert xs == xs[..|xs| - 1] + [xs[|xs| - 1]];
  }

  /** The game: the cards left, the current card and the score. */
  class HighLow {
    var deck: seq<Card>
    var card: Card
    var score: nat
    /** The cards turned up since the last reset, oldest first; the last is the current card. */
    ghost var history: seq<Card>
    /** The guesses made since the last reset. */
    ghost var guesses: seq<Action>

    ghost predicate Valid()
      reads this
    {
      Playing(deck, card, history, guesses, score)
    }

    /** A new game over a shuffle of the deck (the shuffle is the caller's). */
    constructor (shuffled: seq<Card>)
      requires multiset(shuffled) == multiset(Deck())
      ensures Valid() && score == 0 && history == [card] && guesses == []
      ensures |deck| == 51 && deck + [card] == shuffled
    {
      new;
      Reset(shuffled);
    }

    /** Starts over with a fresh shuffle of the whole deck and turns up its last card. */
    method Reset(shuffled: seq<Card>)
      requires multiset(shuffled) == multiset(Deck())
      modifies this
      ensures Valid() && score == 0 && history == [card] && guesses == []
      ensures |deck| == 51 && deck + [card] == shuffled
    {
      assert |shuffled| == 52 by {
        assert |multiset(shuffled)| == |multiset(Deck())|;
      }
      deck := shuffled;
      var top := Pop();
      card := top.value;
      score := 0;
      history := [card];
      guesses := [];
      assert shuffled == deck + history;
    }

    /** Removes and returns the last card of the deck, None when it is empty. */
    method Pop() returns (top: Option<Card>)
      modifies this
      ensures old(deck) == [] ==> top == None && deck == []
      ensures old(deck) != [] ==> top == Some(old(deck)[|old(deck)| - 1]) && deck == old(deck)[..|old(deck)| - 1]
      ensures card == old(card) && score == old(score) && history == old(history) && guesses == old(guesses)
    {
      if deck == [] {
        top := None;
      } else {
        top := Some(deck[|deck| - 1]);
        deck := deck[..|deck| - 1];
      }
    }

    /**
     * The score: the run of right guesses ending with the last draw, which
     * never exceeds the number of draws since the last reset nor 51.
     */
    function Score(): (s: nat)
      requires Valid()
      reads this
      ensures Streak(Outcomes(history, guesses), s)
      ensures s < |history| && s <= 51
    {
      TrailingRunIsStreak(Outcomes(history, guesses));
      ScoreBound(deck, history, guesses);
      score
    }

    /** The only player is player 1. */
    function CurrentPlayer(): (p: nat)
      ensures p == 1
    {
      1
    }

    /** Both guesses are always allowed, Higher first. */
    function LegalActions(): (actions: seq<Action>)
      ensures |actions| == 2 && actions[0] == Higher && actions[1] == Lower
      ensures Higher in actions && Lower in actions
    {
      [Higher, Lower]
    }

    /** What the player sees: the current card, which is no longer in the deck. */
    function Observation(): (c: Card)
      requires Valid()
      reads this
      ensures c == card
      ensures c in history && c !in deck
    {
      DrawnCardsLeftDeck(deck, history);
      card
    }

    /**
     * Draws the last card of the deck and scores the guess against the
     * current card; the drawn card becomes the current one. With an empty
     * deck nothing changes and the game reports that it is over.
     */
    method Step(action: Action) returns (obs: Card, reward: nat, done: bool)
      requires Valid()
      modifies this
      ensures Valid()
      ensures obs == card && reward == score && reward <= 51
      ensures old(deck) == [] ==> done && deck == [] && card == old(card) && score == old(score)
      ensures old(deck) == [] ==> history == old(history) && guesses == old(guesses)
      ensures old(deck) != [] ==> deck == old(deck)[..|old(deck)| - 1] && card == old(deck)[|old(deck)| - 1]
      ensures old(deck) != [] ==> done == (deck == [])
      ensures old(deck) != [] ==> score == NextScore(old(score), action, card, old(card))
      ensures old(deck) != [] ==> history == old(history) + [card] && guesses == old(guesses) + [action]
    {
      var left, current, streak := deck, card, score;
      ghost var seen, guessed := history, guesses;
      var top := Pop();
      assert card == current && score == streak && history == seen && guesses == guessed;
      if top.None? {
        assert deck == left == [];
        ScoreBound(left, seen, guessed);
        return current, streak, true;
      }
      var drawn := top.value;
      assert left != [] && drawn == left[|left| - 1] && deck == left[..|left| - 1];
      var higher := CardCompare(drawn, current);
      var next := streak;
      if action == Higher && higher == Greater {
        next := next + 1;
      } else if action == Lower && higher == Less {
        next := next + 1;
      } else {
        next := 0;
      }
      DrawKeepsPlaying(left, current, seen, guessed, streak, action);
      ScoreBound(left[..|left| - 1], seen + [drawn], guessed + [action]);
      card, score := drawn, next;
      history, guesses := seen + [drawn], guessed + [action];
      return drawn, next, deck == [];
    }
  }
}
