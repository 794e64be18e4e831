/**
 * Four-player whist: the trick-context card comparison and the trick-taking
 * engine that deals, checks follow-suit, plays cards, resolves tricks and
 * rotates the seats.
 */
module Whist {
  import opened Cards

  const HandSize: nat := 13
  const PlayerCount: nat := 4

  // ---------------------------------------------------------------------------
  // Comparison in the context of a trick: (leading suit, optional trumps)
  // ---------------------------------------------------------------------------

  /** The suit that wins a trick: the trumps when there are any, else the leading suit. */
  function Effective(leading: Suit, trumps: Option<Suit>): (s: Suit)
    ensures trumps.Some? ==> s == trumps.value
    ensures trumps.None? ==> s == leading
  {
    match trumps
    case Some(t) => t
    case None => leading
  }

  /**
   * Suit comparison: equal suits are Equal; otherwise a suit is Less exactly
   * when the other one is the effective trump, and Greater in every other case.
   */
  function SuitCompare(a: Suit, b: Suit, leading: Suit, trumps: Option<Suit>): (r: Ordering)
    ensures r == Equal <==> a == b
    ensures r == Less <==> a != b && b == Effective(leading, trumps)
    ensures r == Greater <==> a != b && b != Effective(leading, trumps)
  {
    var t := Effective(leading, trumps);
    if a == b then Equal
    else if b == t then Less
    else Greater
  }

  /** The effective trump beats every other suit, whichever side it is on. */
  lemma TrumpSuitWins(t: Suit, s: Suit, leading: Suit, trumps: Option<Suit>)
    requires t == Effective(leading, trumps) && s != t
    ensures SuitCompare(t, s, leading, trumps) == Greater
    ensures SuitCompare(s, t, leading, trumps) == Less
  {
  }

  /** Two different suits that are not the effective trump are each Greater than the other. */
  lemma OffSuitsBothGreater(a: Suit, b: Suit, leading: Suit, trumps: Option<Suit>)
    requires a != b && a != Effective(leading, trumps) && b != Effective(leading, trumps)
    ensures SuitCompare(a, b, leading, trumps) == Greater
    ensures SuitCompare(b, a, leading, trumps) == Greater
  {
  }

  /** The numeric value of a rank: Two is 2, ..., King 13, Ace 14. */
  function RankValue(r: Rank): (v: nat)
    ensures 2 <= v <= 14
    ensures v == 14 - RankOrdinal(r)
  {
    match r
    case Two => 2
    case Three => 3
    case Four => 4
    case Five => 5
    case Six => 6
    case Seven => 7
    case Eight => 8
    case Nine => 9
    case Ten => 10
    case Jack => 11
    case Queen => 12
    case King => 13
    case Ace => 14
  }

  /** Rank comparison by value; it needs no context. */
  function RankCompare(a: Rank, b: Rank): (r: Ordering)
    ensures r == Equal <==> a == b
    ensures r == Less <==> RankValue(a) < RankValue(b)
    ensures r == Greater <==> RankValue(b) < RankValue(a)
  {
    var va, vb := RankValue(a), RankValue(b);
    if va < vb then Less else if va == vb then Equal else Greater
  }

  function Flip(o: Ordering): Ordering
  {
    match o
    case Less => Greater
    case Equal => Equal
    case Greater => Less
  }

  /** Rank comparison is a total order: antisymmetric and transitive. */
  lemma RankOrderTotal(a: Rank, b: Rank, c: Rank)
    ensures RankCompare(b, a) == Flip(RankCompare(a, b))
    ensures RankCompare(a, b) == Less && RankCompare(b, c) == Less ==> RankCompare(a, c) == Less
    ensures RankCompare(a, b) != Greater && RankCompare(b, c) != Greater ==> RankCompare(a, c) != Greater
  {
  }

  /**
   * Card comparison in a trick: the suit comparison decides, and the rank
   * comparison breaks the tie when the suits are the same.
   */
  function CardCompare(a: Card, b: Card, leading: Suit, trumps: Option<Suit>): (r: Ordering)
    ensures r == Equal <==> a == b
    ensures a.suit == b.suit ==> r == RankCompare(a.rank, b.rank)
    ensures a.suit != b.suit ==> r == SuitCompare(a.suit, b.suit, leading, trumps)
    ensures a.suit == Effective(leading, trumps) != b.suit ==> r == Greater
    ensures b.suit == Effective(leading, trumps) != a.suit ==> r == Less
  {
    match SuitCompare(a.suit, b.suit, leading, trumps)
    case Equal => RankCompare(a.rank, b.rank)
    case other => other
  }

  // ---------------------------------------------------------------------------
  // Trick resolution
  // ---------------------------------------------------------------------------

  /** Some card of the trick has suit s. */
  predicate HasSuit(trick: seq<Card>, s: Suit)
  {
    exists i :: 0 <= i < |trick| && trick[i].suit == s
  }

  /** The position of the highest-ranked card of suit s in the trick (the first, on a tie). */
  function HighestOfSuit(trick: seq<Card>, s: Suit): (w: nat)
    requires HasSuit(trick, s)
    ensures w < |trick| && trick[w].suit == s
    ensures forall j :: 0 <= j < |trick| && trick[j].suit == s ==> RankValue(trick[j].rank) <= RankValue(trick[w].rank)
  {
    assert forall j :: 1 <= j < |trick| ==> trick[j] == trick[1..][j - 1];
    if !HasSuit(trick[1..], s) then
      0
    else
      var rest := 1 + HighestOfSuit(trick[1..], s);
      if trick[0].suit == s && RankValue(trick[rest].rank) <= RankValue(trick[0].rank) then 0 else rest
  }

  /** No other card of the trick beats the card at position w, comparing in the trick's context. */
  ghost predicate Unbeaten(trick: seq<Card>, w: nat, trumps: Option<Suit>)
    requires 0 < |trick|
  {
    w < |trick| &&
    forall j :: 0 <= j < |trick| && j != w ==> CardCompare(trick[j], trick[w], trick[0].suit, trumps) != Greater
  }

  /** Without trumps the leading card is of the effective suit, so that suit is always in the trick. */
  lemma EffectiveSuitLedWithoutTrumps(trick: seq<Card>)
    requires 0 < |trick|
    ensures HasSuit(trick, Effective(trick[0].suit, None))
  {
    assert trick[0].suit == Effective(trick[0].suit, None);
  }

  /**
   * When a card of the effective trump is in a trick of distinct cards, the
   * highest such card is unbeaten, and it is the only unbeaten card.
   */
  lemma HighestTrumpIsUniqueWinner(trick: seq<Card>, trumps: Option<Suit>)
    requires 0 < |trick| && Distinct(trick)
    requires HasSuit(trick, Effective(trick[0].suit, trumps))
    ensures Unbeaten(trick, HighestOfSuit(trick, Effective(trick[0].suit, trumps)), trumps)
    ensures forall j :: 0 <= j < |trick| && Unbeaten(trick, j, trumps) ==>
              j == HighestOfSuit(trick, Effective(trick[0].suit, trumps))
  {
    var lead, t := trick[0].suit, Effective(trick[0].suit, trumps);
    var w := HighestOfSuit(trick, t);
    forall j | 0 <= j < |trick| && j != w
      ensures CardCompare(trick[w], trick[j], lead, trumps) == Greater
      ensures CardCompare(trick[j], trick[w], lead, trumps) == Less
    {
      if trick[j].suit == t {
        assert trick[j] != trick[w];
        assert trick[j].rank != trick[w].rank;
      }
    }
  }

  /**
   * The rule the winning position w of a trick is known to follow: it is a
   * position of the trick, and the highest card of the effective trump when
   * the trick holds one.
   */
  predicate WinnerRule(trick: seq<Card>, trumps: Option<Suit>, w: nat)
    requires 0 < |trick|
  {
    var t := Effective(trick[0].suit, trumps);
    w < |trick| && (HasSuit(trick, t) ==> w == HighestOfSuit(trick, t))
  }

  // The winner as the engine computes it: the trick is sorted with the
  // comparison above and the winner is the position of the sorted trick's
  // last card. A slice this short is sorted by the standard library's stable
  // insertion sort, which is modelled here.

  /** Whether a sorts strictly before b: the comparison says Less. */
  predicate SortsBefore(a: Card, b: Card, leading: Suit, trumps: Option<Suit>)
  {
    CardCompare(a, b, leading, trumps) == Less
  }

  /**
   * Appends x to s and moves it left past every card it sorts before: one
   * insertion step of the insertion sort. The last card is x, unless x sorts
   * before the last card of s, which then stays last.
   */
  function InsertTail(s: seq<Card>, x: Card, leading: Suit, trumps: Option<Suit>): (r: seq<Card>)
    ensures |r| == |s| + 1 && multiset(r) == multiset(s) + multiset{x}
    ensures r[|r| - 1] == if s != [] && SortsBefore(x, s[|s| - 1], leading, trumps) then s[|s| - 1] else x
  {
    if s == [] || !SortsBefore(x, s[|s| - 1], leading, trumps) then s + [x]
    else
      var front := s[..|s| - 1];
      assert s == front + [s[|s| - 1]];
      InsertTail(front, x, leading, trumps) + [s[|s| - 1]]
  }

  /** The insertion sort of the standard library: each card in turn is inserted into the sorted cards before it. */
  function InsertionSort(s: seq<Card>, leading: Suit, trumps: Option<Suit>): (r: seq<Card>)
    ensures |r| == |s| && multiset(r) == multiset(s)
  {
    if s == [] then []
    else
      var front := s[..|s| - 1];
      assert s == front + [s[|s| - 1]];
      InsertTail(InsertionSort(front, leading, trumps), s[|s| - 1], leading, trumps)
  }

  /** The first position of c in s. */
  function PositionOf(s: seq<Card>, c: Card): (i: nat)
    requires c in s
    ensures i < |s| && s[i] == c
    ensures forall j :: 0 <= j < i ==> s[j] != c
  {
    if s[0] == c then 0 else 1 + PositionOf(s[1..], c)
  }

  /** The winning position as written: where the last card of the sorted trick sits in the trick. */
  function SortedWinner(trick: seq<Card>, trumps: Option<Suit>): (w: nat)
    requires 0 < |trick|
    ensures w < |trick|
    ensures trick[w] == InsertionSort(trick, trick[0].suit, trumps)[|trick| - 1]
    ensures forall j :: 0 <= j < w ==> trick[j] != trick[w]
  {
    var sorted := InsertionSort(trick, trick[0].suit, trumps);
    assert sorted[|sorted| - 1] in multiset(trick);
    PositionOf(trick, sorted[|sorted| - 1])
  }

  /** c is a card of suit s in the trick, and no card of suit s in the trick ranks above it. */
  ghost predicate TopOfSuit(trick: seq<Card>, s: Suit, c: Card)
  {
    c in trick && c.suit == s &&
    forall d :: d in trick && d.suit == s ==> RankValue(d.rank) <= RankValue(c.rank)
  }

  /** When the effective trump is in the cards, sorting them leaves its highest card last. */
  lemma {:induction false} SortEndsWithTopTrump(s: seq<Card>, leading: Suit, trumps: Option<Suit>)
    requires HasSuit(s, Effective(leading, trumps))
    ensures TopOfSuit(s, Effective(leading, trumps), InsertionSort(s, leading, trumps)[|s| - 1])
  {
    var front := s[..|s| - 1];
    if HasSuit(front, Effective(leading, trumps)) {
      SortEndsWithTopTrump(front, leading, trumps);
      assert |s| > 1;
      TopAfterInsert(s, leading, trumps);
    } else {
      TopFirstInsert(s, leading, trumps);
    }
  }

  /** Sorting one more card keeps the top card of the effective trump last, or puts the new one there if it is higher. */
  lemma {:induction false} TopAfterInsert(s: seq<Card>, leading: Suit, trumps: Option<Suit>)
    requires |s| > 1
    requires TopOfSuit(s[..|s| - 1], Effective(leading, trumps), InsertionSort(s[..|s| - 1], leading, trumps)[|s| - 2])
    ensures TopOfSuit(s, Effective(leading, trumps), InsertionSort(s, leading, trumps)[|s| - 1])
  {
    SortLast(s, leading, trumps);
    InsertAfterTop(s, InsertionSort(s[..|s| - 1], leading, trumps)[|s| - 2], leading, trumps);
  }

  /** The first card of the effective trump to be sorted in ends up last. */
  lemma {:induction false} TopFirstInsert(s: seq<Card>, leading: Suit, trumps: Option<Suit>)
    requires HasSuit(s, Effective(leading, trumps)) && !HasSuit(s[..|s| - 1], Effective(leading, trumps))
    ensures TopOfSuit(s, Effective(leading, trumps), InsertionSort(s, leading, trumps)[|s| - 1])
  {
    OnlyLastHasSuit(s, Effective(leading, trumps));
    if |s| == 1 {
      SortOne(s, leading, trumps);
    } else {
      TopFirstAfterOthers(s, leading, trumps);
    }
  }

  /** TopFirstInsert when other cards come first. */
  lemma {:induction false} TopFirstAfterOthers(s: seq<Card>, leading: Suit, trumps: Option<Suit>)
    requires |s| > 1 && s[|s| - 1].suit == Effective(leading, trumps)
    requires !HasSuit(s[..|s| - 1], Effective(leading, trumps))
    ensures TopOfSuit(s, Effective(leading, trumps), InsertionSort(s, leading, trumps)[|s| - 1])
  {
    SortedLastIn(s, leading, trumps);
    SortLast(s, leading, trumps);
    InsertFirstOfSuit(s, InsertionSort(s[..|s| - 1], leading, trumps)[|s| - 2], leading, trumps);
  }

  /** The last sorted card is the last card, unless it sorts before the last of the other cards sorted. */
  lemma {:induction false} SortLast(s: seq<Card>, leading: Suit, trumps: Option<Suit>)
    requires |s| > 1
    ensures var n := |s| - 1;
            var top := InsertionSort(s[..n], leading, trumps)[n - 1];
            (SortsBefore(s[n], top, leading, trumps) ==> InsertionSort(s, leading, trumps)[n] == top) &&
            (!SortsBefore(s[n], top, leading, trumps) ==> InsertionSort(s, leading, trumps)[n] == s[n])
  {
  }

  /** A single card sorts to itself, and it is the top card of its suit. */
  lemma {:induction false} SortOne(s: seq<Card>, leading: Suit, trumps: Option<Suit>)
    requires |s| == 1
    ensures InsertionSort(s, leading, trumps)[0] == s[0]
    ensures TopOfSuit(s, s[0].suit, s[0])
  {
  }

  /** The last of the other cards sorted is one of them. */
  lemma {:induction false} SortedLastIn(s: seq<Card>, leading: Suit, trumps: Option<Suit>)
    requires |s| > 1
    ensures InsertionSort(s[..|s| - 1], leading, trumps)[|s| - 2] in s[..|s| - 1]
  {
    var front := s[..|s| - 1];
    assert InsertionSort(front, leading, trumps)[|front| - 1] in multiset(front);
  }

  /** When only the last card can have suit t and some card has it, the last card has it. */
  lemma {:induction false} OnlyLastHasSuit(s: seq<Card>, t: Suit)
    requires HasSuit(s, t) && !HasSuit(s[..|s| - 1], t)
    ensures s[|s| - 1].suit == t
  {
    var i :| 0 <= i < |s| && s[i].suit == t;
  }

  /** Inserting a card after the top card of the effective trump leaves the higher of the two last. */
  lemma {:induction false} InsertAfterTop(s: seq<Card>, top: Card, leading: Suit, trumps: Option<Suit>)
    requires |s| > 1 && TopOfSuit(s[..|s| - 1], Effective(leading, trumps), top)
    ensures SortsBefore(s[|s| - 1], top, leading, trumps) ==> TopOfSuit(s, Effective(leading, trumps), top)
    ensures !SortsBefore(s[|s| - 1], top, leading, trumps) ==> TopOfSuit(s, Effective(leading, trumps), s[|s| - 1])
  {
    var t, n := Effective(leading, trumps), |s| - 1;
    var x := s[n];
    assert s == s[..n] + [x];
    assert forall d :: d in s <==> d in s[..n] || d == x;
    if x.suit == t && RankValue(x.rank) >= RankValue(top.rank) {
      assert !SortsBefore(x, top, leading, trumps);
    } else {
      assert SortsBefore(x, top, leading, trumps);
    }
  }

  /** A first card of the effective trump stays last when inserted after sorted cards of other suits. */
  lemma {:induction false} InsertFirstOfSuit(s: seq<Card>, top: Card, leading: Suit, trumps: Option<Suit>)
    requires |s| > 1 && s[|s| - 1].suit == Effective(leading, trumps)
    requires !HasSuit(s[..|s| - 1], Effective(leading, trumps)) && top in s[..|s| - 1]
    ensures TopOfSuit(s, Effective(leading, trumps), s[|s| - 1])
    ensures !SortsBefore(s[|s| - 1], top, leading, trumps)
  {
    var n := |s| - 1;
    assert s == s[..n] + [s[n]];
    assert forall d :: d in s <==> d in s[..n] || d == s[n];
  }

  /**
   * In a trick of distinct cards holding the effective trump, the winner as
   * written is the highest card of that suit; without trumps that suit is
   * the suit led, which is always there.
   */
  lemma {:induction false} SortedWinnerFollowsTrumps(trick: seq<Card>, trumps: Option<Suit>)
    requires 0 < |trick| && Distinct(trick)
    requires HasSuit(trick, Effective(trick[0].suit, trumps))
    ensures SortedWinner(trick, trumps) == HighestOfSuit(trick, Effective(trick[0].suit, trumps))
  {
    var t := Effective(trick[0].suit, trumps);
    SortEndsWithTopTrump(trick, trick[0].suit, trumps);
    TopIsHighestOfSuit(trick, t, InsertionSort(trick, trick[0].suit, trumps)[|trick| - 1]);
  }

  /** In a trick of distinct cards, the position of the top card of a suit is the one HighestOfSuit finds. */
  lemma TopIsHighestOfSuit(trick: seq<Card>, s: Suit, c: Card)
    requires Distinct(trick) && HasSuit(trick, s) && TopOfSuit(trick, s, c)
    ensures trick[HighestOfSuit(trick, s)] == c
  {
    var h := HighestOfSuit(trick, s);
    assert trick[h] in trick;
  }

  /**
   * With Spades as trumps and none played, the trick 5 of Hearts, 9 of Clubs,
   * 10 of Hearts, 2 of Diamonds goes, as written, to the 2 of Diamonds: no
   * card sorts before another of a different suit, so nothing moves. By the
   * rules of whist the 10 of Hearts, the highest card of the suit led, wins.
   */
  lemma SortedWinnerIgnoresSuitLed(trick: seq<Card>, trumps: Option<Suit>)
    requires trick == [BaseCard(Hearts, Five), BaseCard(Clubs, Nine), BaseCard(Hearts, Ten), BaseCard(Diamonds, Two)]
    requires trumps == Some(Spades)
    ensures SortedWinner(trick, trumps) == 3 && IntendedWinner(trick, trumps) == 2
  {
    LastOffSuitWins(trick, trumps);
    HigherOfSuitLedWins(trick, trumps);
  }

  /**
   * As written, with trumps declared and none played, a fourth card of a
   * suit not played before wins the trick.
   */
  lemma LastOffSuitWins(trick: seq<Card>, trumps: Option<Suit>)
    requires |trick| == PlayerCount && trumps.Some?
    requires forall i :: 0 <= i < PlayerCount ==> trick[i].suit != trumps.value
    requires forall i :: 0 <= i < PlayerCount - 1 ==> trick[i].suit != trick[3].suit
    ensures SortedWinner(trick, trumps) == 3
  {
    var lead := trick[0].suit;
    var top := InsertionSort(trick[..3], lead, trumps)[2];
    SortedLastIn(trick, lead, trumps);
    SortLast(trick, lead, trumps);
    assert !SortsBefore(trick[3], top, lead, trumps);
  }

  /**
   * By the rules of whist, with no trump played, a third card of the suit
   * led above the first wins when the other two cards are off suit.
   */
  lemma HigherOfSuitLedWins(trick: seq<Card>, trumps: Option<Suit>)
    requires |trick| == PlayerCount && trumps.Some?
    requires forall i :: 0 <= i < PlayerCount ==> trick[i].suit != trumps.value
    requires trick[1].suit != trick[0].suit && trick[3].suit != trick[0].suit
    requires trick[2].suit == trick[0].suit && RankValue(trick[0].rank) < RankValue(trick[2].rank)
    ensures IntendedWinner(trick, trumps) == 2
  {
    assert !HasSuit(trick, trumps.value);
    assert TakingSuit(trick, trumps) == trick[0].suit;
  }

  /** The suit that takes a trick by the rules of whist: the trumps when one was played, else the suit led. */
  function TakingSuit(trick: seq<Card>, trumps: Option<Suit>): (s: Suit)
    requires 0 < |trick|
    ensures HasSuit(trick, s)
    ensures trumps.Some? && HasSuit(trick, trumps.value) ==> s == trumps.value
    ensures !(trumps.Some? && HasSuit(trick, trumps.value)) ==> s == trick[0].suit
  {
    if trumps.Some? && HasSuit(trick, trumps.value) then trumps.value
    else trick[0].suit
  }

  /** The tier of a suit in a trick by the rules of whist: trumps 2, the suit led 1, any other 0. */
  function SuitTier(s: Suit, leading: Suit, trumps: Option<Suit>): nat
  {
    if trumps == Some(s) then 2 else if s == leading then 1 else 0
  }

  /**
   * The card comparison by the rules of whist: a higher tier wins, a suit
   * is decided by rank, and two cards of different suits that neither
   * follow nor trump are tied.
   */
  function IntendedCompare(a: Card, b: Card, leading: Suit, trumps: Option<Suit>): (r: Ordering)
    ensures a.suit == b.suit ==> r == RankCompare(a.rank, b.rank)
    ensures r == Equal ==> a == b || SuitTier(a.suit, leading, trumps) == SuitTier(b.suit, leading, trumps) == 0
  {
    var ka, kb := SuitTier(a.suit, leading, trumps), SuitTier(b.suit, leading, trumps);
    if ka < kb then Less
    else if kb < ka then Greater
    else if a.suit == b.suit then RankCompare(a.rank, b.rank)
    else Equal
  }

  /** Unlike the comparison as written, the intended comparison flips when its arguments are swapped. */
  lemma IntendedCompareFlips(a: Card, b: Card, leading: Suit, trumps: Option<Suit>)
    ensures IntendedCompare(b, a, leading, trumps) == Flip(IntendedCompare(a, b, leading, trumps))
  {
    RankOrderTotal(a.rank, b.rank, b.rank);
  }

  /** The winning position by the rules of whist: the highest card of the taking suit. */
  function IntendedWinner(trick: seq<Card>, trumps: Option<Suit>): (w: nat)
    requires 0 < |trick|
    ensures w < |trick| && WinnerRule(trick, trumps, w)
    ensures trick[w].suit == TakingSuit(trick, trumps)
    ensures forall j :: 0 <= j < |trick| && trick[j].suit == trick[w].suit ==>
              RankValue(trick[j].rank) <= RankValue(trick[w].rank)
  {
    HighestOfSuit(trick, TakingSuit(trick, trumps))
  }

  /**
   * In a trick of distinct cards the intended winner beats every other card
   * by the intended comparison, so it is the only card that does.
   */
  lemma IntendedWinnerBeatsAll(trick: seq<Card>, trumps: Option<Suit>)
    requires 0 < |trick| && Distinct(trick)
    ensures var w := IntendedWinner(trick, trumps);
            forall j :: 0 <= j < |trick| && j != w ==> IntendedCompare(trick[w], trick[j], trick[0].suit, trumps) == Greater
  {
    var lead, s := trick[0].suit, TakingSuit(trick, trumps);
    var w := IntendedWinner(trick, trumps);
    forall j | 0 <= j < |trick| && j != w
      ensures IntendedCompare(trick[w], trick[j], lead, trumps) == Greater
    {
      if trick[j].suit == s {
        assert trick[j] != trick[w];
      } else if trumps.Some? && HasSuit(trick, trumps.value) {
        assert SuitTier(trick[w].suit, lead, trumps) == 2;
      } else {
        assert trumps != Some(trick[j].suit);
      }
    }
  }

  /**
   * The winner as written and the intended winner agree on every trick of
   * distinct cards that holds the effective trump: they differ only when
   * trumps are declared and none is played.
   */
  lemma WinnersAgreeWithTrumpPlayed(trick: seq<Card>, trumps: Option<Suit>)
    requires 0 < |trick| && Distinct(trick)
    requires HasSuit(trick, Effective(trick[0].suit, trumps))
    ensures SortedWinner(trick, trumps) == IntendedWinner(trick, trumps)
  {
    SortedWinnerFollowsTrumps(trick, trumps);
  }

  // ---------------------------------------------------------------------------
  // Players, hands and the cards they hold
  // ---------------------------------------------------------------------------

  /** A seat at the table: an identity, thirteen hand slots and the tricks won. */
  datatype Player = Player(id: nat, hand: seq<Option<Card>>, score: nat)

  /** A player with an empty hand and no tricks. */
  function NewPlayer(id: nat): (p: Player)
    ensures p.id == id && p.score == 0 && |p.hand| == HandSize
    ensures forall k :: 0 <= k < |p.hand| ==> p.hand[k].None?
  {
    Player(id, seq(HandSize, _ => None), 0)
  }

  /** What the current player sees: their hand, the cards seen, the trumps and the trick. */
  datatype State = State(hand: seq<Option<Card>>, seen: seq<Card>, trumps: Option<Suit>, trick: seq<Card>)

  /** The card in a slot, as a multiset of at most one card. */
  function SlotCards(slot: Option<Card>): multiset<Card>
  {
    if slot.Some? then multiset{slot.value} else multiset{}
  }

  /** The cards held in the filled slots of a hand. */
  ghost function Filled(hand: seq<Option<Card>>): multiset<Card>
  {
    if hand == [] then multiset{}
    else Filled(hand[..|hand| - 1]) + SlotCards(hand[|hand| - 1])
  }

  /** Emptying a filled slot removes exactly its card from the hand's cards. */
  lemma {:induction false} FilledClear(hand: seq<Option<Card>>, k: nat)
    requires k < |hand| && hand[k].Some?
    ensures hand[k].value in Filled(hand)
    ensures Filled(hand[k := None]) == Filled(hand) - multiset{hand[k].value}
  {
    var n := |hand| - 1;
    if k == n {
      FilledClearLast(hand);
    } else {
      FilledClear(hand[..n], k);
      FilledClearBefore(hand, k);
    }
  }

  /** FilledClear for the last slot. */
  lemma FilledClearLast(hand: seq<Option<Card>>)
    requires hand != [] && hand[|hand| - 1].Some?
    ensures hand[|hand| - 1].value in Filled(hand)
    ensures Filled(hand[|hand| - 1 := None]) == Filled(hand) - multiset{hand[|hand| - 1].value}
  {
    var n := |hand| - 1;
    assert hand[n := None][..n] == hand[..n];
  }

  /** FilledClear for a slot before the last, given it for the hand without its last slot. */
  lemma FilledClearBefore(hand: seq<Option<Card>>, k: nat)
    requires k < |hand| - 1 && hand[k].Some?
    requires var front := hand[..|hand| - 1];
             hand[k].value in Filled(front) && Filled(front[k := None]) == Filled(front) - multiset{hand[k].value}
    ensures hand[k].value in Filled(hand)
    ensures Filled(hand[k := None]) == Filled(hand) - multiset{hand[k].value}
  {
    var n, cleared := |hand| - 1, hand[k := None];
    assert cleared[..n] == hand[..n][k := None] && cleared[n] == hand[n];
    TakeBeforeAdd(Filled(hand[..n]), SlotCards(hand[n]), hand[k].value);
  }

  /** Removing an element before or after adding more gives the same multiset. */
  lemma TakeBeforeAdd<T>(a: multiset<T>, b: multiset<T>, c: T)
    requires c in a
    ensures c in a + b
    ensures (a - multiset{c}) + b == (a + b) - multiset{c}
  {
  }

  /** Taking one more slot adds that slot's card, if any. */
  lemma FilledExtend(hand: seq<Option<Card>>, m: nat)
    requires m < |hand|
    ensures Filled(hand[..m + 1]) == Filled(hand[..m]) + SlotCards(hand[m])
  {
    assert hand[..m + 1][..m] == hand[..m];
  }

  /** The cards held by the four players. */
  ghost function HandCards(ps: seq<Player>): multiset<Card>
    requires |ps| == PlayerCount
  {
    Filled(ps[0].hand) + Filled(ps[1].hand) + Filled(ps[2].hand) + Filled(ps[3].hand)
  }

  /** The tricks won by the four players together. */
  function TotalScore(ps: seq<Player>): nat
    requires |ps| == PlayerCount
  {
    ps[0].score + ps[1].score + ps[2].score + ps[3].score
  }

  /** The sequence rotated left by k places: element j + k moves to position j, wrapping around. */
  function RotateLeft<T>(s: seq<T>, k: nat): (r: seq<T>)
    requires k <= |s|
    ensures |r| == |s|
    ensures forall j :: 0 <= j < |s| ==> r[j] == if j + k < |s| then s[j + k] else s[j + k - |s|]
  {
    s[k..] + s[..k]
  }

  /** Rotating the seats neither adds nor removes cards or tricks. */
  lemma RotateKeepsCardsAndScores(ps: seq<Player>, k: nat)
    requires |ps| == PlayerCount && k <= PlayerCount
    ensures HandCards(RotateLeft(ps, k)) == HandCards(ps)
    ensures TotalScore(RotateLeft(ps, k)) == TotalScore(ps)
  {
    var r := RotateLeft(ps, k);
    Commute4(Filled(ps[0].hand), Filled(ps[1].hand), Filled(ps[2].hand), Filled(ps[3].hand));
    if k == 0 || k == 4 {
      assert r[0] == ps[0] && r[1] == ps[1] && r[2] == ps[2] && r[3] == ps[3];
    } else if k == 1 {
      assert r[0] == ps[1] && r[1] == ps[2] && r[2] == ps[3] && r[3] == ps[0];
    } else if k == 2 {
      assert r[0] == ps[2] && r[1] == ps[3] && r[2] == ps[0] && r[3] == ps[1];
    } else {
      assert r[0] == ps[3] && r[1] == ps[0] && r[2] == ps[1] && r[3] == ps[2];
    }
  }

  /** A sum of four multisets does not depend on which of them comes first. */
  lemma Commute4<T>(a: multiset<T>, b: multiset<T>, c: multiset<T>, d: multiset<T>)
    ensures b + c + d + a == a + b + c + d
    ensures c + d + a + b == a + b + c + d
    ensures d + a + b + c == a + b + c + d
  {
  }

  /** The cards found in slots 0 to n-1 of the four hands, in dealing order. */
  ghost function DealtPrefix(ps: seq<Player>, n: nat): multiset<Card>
    requires |ps| == PlayerCount && forall p :: 0 <= p < PlayerCount ==> n <= |ps[p].hand|
  {
    Filled(ps[0].hand[..n]) + Filled(ps[1].hand[..n]) + Filled(ps[2].hand[..n]) + Filled(ps[3].hand[..n])
  }

  /**
   * When slot j of player p holds deck card 4*j + p, the hands hold exactly
   * the cards of the deck.
   */
  lemma {:induction false} DealtHandsHoldDeck(ps: seq<Player>, d: seq<Card>, n: nat)
    requires |ps| == PlayerCount && |d| == 52 && n <= HandSize
    requires forall p :: 0 <= p < PlayerCount ==> |ps[p].hand| == HandSize
    requires forall p, j :: 0 <= p < PlayerCount && 0 <= j < HandSize ==> ps[p].hand[j] == Some(d[4 * j + p])
    ensures DealtPrefix(ps, n) == multiset(d[..4 * n])
  {
    if n > 0 {
      var m := n - 1;
      DealtHandsHoldDeck(ps, d, m);
      DealtRound(ps, d, m);
      DeckRound(d, m);
    }
  }

  /** Slot m of the four hands holds deck cards 4*m to 4*m + 3. */
  lemma DealtRound(ps: seq<Player>, d: seq<Card>, m: nat)
    requires |ps| == PlayerCount && |d| == 52 && m < HandSize
    requires forall p :: 0 <= p < PlayerCount ==> |ps[p].hand| == HandSize
    requires forall p, j :: 0 <= p < PlayerCount && 0 <= j < HandSize ==> ps[p].hand[j] == Some(d[4 * j + p])
    ensures DealtPrefix(ps, m + 1) == DealtPrefix(ps, m) + multiset{d[4 * m], d[4 * m + 1], d[4 * m + 2], d[4 * m + 3]}
  {
    forall p | 0 <= p < PlayerCount
      ensures Filled(ps[p].hand[..m + 1]) == Filled(ps[p].hand[..m]) + multiset{d[4 * m + p]}
    {
      FilledExtend(ps[p].hand, m);
    }
    Regroup(Filled(ps[0].hand[..m]), Filled(ps[1].hand[..m]), Filled(ps[2].hand[..m]), Filled(ps[3].hand[..m]),
            d[4 * m], d[4 * m + 1], d[4 * m + 2], d[4 * m + 3]);
  }

  /** Adding one card to each of four multisets adds the four cards to their sum. */
  lemma Regroup(a0: multiset<Card>, a1: multiset<Card>, a2: multiset<Card>, a3: multiset<Card>,
                x0: Card, x1: Card, x2: Card, x3: Card)
    ensures (a0 + multiset{x0}) + (a1 + multiset{x1}) + (a2 + multiset{x2}) + (a3 + multiset{x3})
         == (a0 + a1 + a2 + a3) + multiset{x0, x1, x2, x3}
  {
  }

  /** The deck's first 4*(m+1) cards are its first 4*m cards and the next four. */
  lemma DeckRound(d: seq<Card>, m: nat)
    requires 4 * m + 4 <= |d|
    ensures multiset(d[..4 * m + 4]) == multiset(d[..4 * m]) + multiset{d[4 * m], d[4 * m + 1], d[4 * m + 2], d[4 * m + 3]}
  {
    var k := 4 * m;
    assert d[..k + 4] == d[..k] + [d[k], d[k + 1], d[k + 2], d[k + 3]];
  }

  /** The whole hands after a full deal hold exactly the deck. */
  lemma FullDealHoldsDeck(ps: seq<Player>, d: seq<Card>)
    requires |ps| == PlayerCount && |d| == 52
    requires forall p :: 0 <= p < PlayerCount ==> |ps[p].hand| == HandSize
    requires forall p, j :: 0 <= p < PlayerCount && 0 <= j < HandSize ==> ps[p].hand[j] == Some(d[4 * j + p])
    ensures HandCards(ps) == multiset(d)
  {
    DealtHandsHoldDeck(ps, d, HandSize);
    assert ps[0].hand[..HandSize] == ps[0].hand && ps[1].hand[..HandSize] == ps[1].hand;
    assert ps[2].hand[..HandSize] == ps[2].hand && ps[3].hand[..HandSize] == ps[3].hand;
    assert d[..4 * HandSize] == d;
  }

  /**
   * When the hands and the cards seen together are the canonical deck, every
   * card is in exactly one place: held once or seen once. So no card has been
   * seen twice, no card seen is still held, and at most 52 cards have been seen.
   */
  lemma NoCardTwice(ps: seq<Player>, seen: seq<Card>)
    requires |ps| == PlayerCount
    requires HandCards(ps) + multiset(seen) == multiset(Deck())
    ensures forall c :: HandCards(ps)[c] + multiset(seen)[c] == 1
    ensures Distinct(seen)
    ensures forall c :: c in seen ==> c !in HandCards(ps)
    ensures |seen| <= 52
  {
    forall c
      ensures HandCards(ps)[c] + multiset(seen)[c] == 1
      ensures multiset(seen)[c] <= 1
      ensures c in seen ==> c !in HandCards(ps)
    {
      DeckHasEachCardOnce(c);
      assert HandCards(ps)[c] + multiset(seen)[c] == 1;
    }
    SingleCountsDistinct(seen);
    assert |multiset(Deck())| == |Deck()| == 52;
    assert |multiset(seen)| == |seen|;
    assert |HandCards(ps) + multiset(seen)| == |HandCards(ps)| + |multiset(seen)|;
  }

  /** Each score is bounded by the tricks completed, at most 13 once all cards are accounted for. */
  lemma ScoresFitInByte(ps: seq<Player>, seen: seq<Card>)
    requires |ps| == PlayerCount
    requires TotalScore(ps) == |seen| / 4
    requires HandCards(ps) + multiset(seen) == multiset(Deck())
    ensures forall p :: 0 <= p < PlayerCount ==> ps[p].score <= HandSize
  {
    NoCardTwice(ps, seen);
  }

  // ---------------------------------------------------------------------------
  // Follow-suit
  // ---------------------------------------------------------------------------

  /** A slot holds a card that may be played under the suit restriction, if any. */
  predicate Fits(slot: Option<Card>, lead: Option<Suit>)
  {
    slot.Some? && (lead.None? || slot.value.suit == lead.value)
  }

  /** The slots below n that fit, in increasing order. */
  function FittingSlots(hand: seq<Option<Card>>, lead: Option<Suit>, n: nat): seq<nat>
    requires n <= |hand|
  {
    if n == 0 then []
    else FittingSlots(hand, lead, n - 1) + (if Fits(hand[n - 1], lead) then [n - 1] else [])
  }

  /** The hand holds a card of suit s. */
  predicate HoldsSuit(hand: seq<Option<Card>>, s: Suit): (b: bool)
    ensures b <==> FittingSlots(hand, Some(s), |hand|) != []
  {
    HeldSuitFits(hand, s, |hand|);
    exists k :: 0 <= k < |hand| && hand[k].Some? && hand[k].value.suit == s
  }

  /** Some slot below n holds suit s exactly when some slot below n fits that suit. */
  lemma {:induction false} HeldSuitFits(hand: seq<Option<Card>>, s: Suit, n: nat)
    requires n <= |hand|
    ensures (exists k :: 0 <= k < n && hand[k].Some? && hand[k].value.suit == s) <==>
            FittingSlots(hand, Some(s), n) != []
  {
    if n > 0 {
      HeldSuitFits(hand, s, n - 1);
      if hand[n - 1].Some? && hand[n - 1].value.suit == s {
        assert FittingSlots(hand, Some(s), n) != [];
      } else {
        assert FittingSlots(hand, Some(s), n) == FittingSlots(hand, Some(s), n - 1);
        if exists k :: 0 <= k < n && hand[k].Some? && hand[k].value.suit == s {
          var k :| 0 <= k < n && hand[k].Some? && hand[k].value.suit == s;
          assert k < n - 1;
        }
      }
    }
  }

  /** The suit the player must follow, if any: the leading suit, when they hold it. */
  function MustFollow(hand: seq<Option<Card>>, trick: seq<Card>): (lead: Option<Suit>)
    ensures lead.Some? <==> trick != [] && HoldsSuit(hand, trick[0].suit)
    ensures lead.Some? ==> lead.value == trick[0].suit
  {
    if trick != [] && HoldsSuit(hand, trick[0].suit) then Some(trick[0].suit) else None
  }

  /** The legal slots of a hand given the trick so far. */
  function LegalSlots(hand: seq<Option<Card>>, trick: seq<Card>): (slots: seq<nat>)
    ensures forall i :: 0 <= i < |slots| ==> slots[i] < |hand| && hand[slots[i]].Some?
    ensures trick == [] ==> slots == FittingSlots(hand, None, |hand|)
    ensures forall i :: 0 <= i < |slots| && trick != [] && HoldsSuit(hand, trick[0].suit) ==>
              hand[slots[i]].value.suit == trick[0].suit
  {
    FittingSlotsSpec(hand, MustFollow(hand, trick), |hand|);
    FittingSlots(hand, MustFollow(hand, trick), |hand|)
  }

  lemma {:induction false} FittingSlotsSpec(hand: seq<Option<Card>>, lead: Option<Suit>, n: nat)
    requires n <= |hand|
    ensures forall i, j :: 0 <= i < j < |FittingSlots(hand, lead, n)| ==>
              FittingSlots(hand, lead, n)[i] < FittingSlots(hand, lead, n)[j]
    ensures forall k: nat :: k in FittingSlots(hand, lead, n) <==> k < n && Fits(hand[k], lead)
    ensures forall i :: 0 <= i < |FittingSlots(hand, lead, n)| ==>
              FittingSlots(hand, lead, n)[i] < n && Fits(hand[FittingSlots(hand, lead, n)[i]], lead)
  {
    if n > 0 {
      FittingSlotsSpec(hand, lead, n - 1);
    }
  }

  /**
   * The legal slots, in increasing order, are the filled slots; when the
   * trick has begun and the player holds its leading suit, only the slots of
   * that suit.
   */
  lemma LegalSlotsSpec(hand: seq<Option<Card>>, trick: seq<Card>)
    ensures forall i, j :: 0 <= i < j < |LegalSlots(hand, trick)| ==> LegalSlots(hand, trick)[i] < LegalSlots(hand, trick)[j]
    ensures forall k: nat :: k in LegalSlots(hand, trick) <==>
              k < |hand| && hand[k].Some? &&
              (trick != [] && HoldsSuit(hand, trick[0].suit) ==> hand[k].value.suit == trick[0].suit)
  {
    FittingSlotsSpec(hand, MustFollow(hand, trick), |hand|);
  }

  /** A hand that still holds a card always has a legal play. */
  lemma LegalSlotsNonEmpty(hand: seq<Option<Card>>, trick: seq<Card>, k: nat)
    requires k < |hand| && hand[k].Some?
    ensures LegalSlots(hand, trick) != []
  {
    LegalSlotsSpec(hand, trick);
    var lead := MustFollow(hand, trick);
    if lead.Some? {
      var k' :| 0 <= k' < |hand| && hand[k'].Some? && hand[k'].value.suit == lead.value;
      assert k' in LegalSlots(hand, trick);
    } else {
      assert k in LegalSlots(hand, trick);
    }
  }

  lemma {:induction false} AllFitWithoutLead(hand: seq<Option<Card>>, n: nat)
    requires n <= |hand|
    requires forall k :: 0 <= k < |hand| ==> hand[k].Some?
    ensures FittingSlots(hand, None, n) == seq(n, k => k)
  {
    if n > 0 {
      AllFitWithoutLead(hand, n - 1);
    }
  }

  /** With a full hand and no trick begun, every one of the 13 slots is legal. */
  lemma FullHandAllLegal(hand: seq<Option<Card>>)
    requires |hand| == HandSize
    requires forall k :: 0 <= k < |hand| ==> hand[k].Some?
    ensures LegalSlots(hand, []) == seq(HandSize, k => k)
    ensures |LegalSlots(hand, [])| == 13
  {
    AllFitWithoutLead(hand, HandSize);
  }

  /**
   * The slots of xs holding a card of suit s, in the same order. The
   * engine applies it to filled slots only, where the check is the suit's.
   */
  function Retain(hand: seq<Option<Card>>, xs: seq<nat>, s: Suit): (kept: seq<nat>)
    ensures |kept| <= |xs|
    ensures forall i :: 0 <= i < |kept| ==> kept[i] in xs && kept[i] < |hand| && Fits(hand[kept[i]], Some(s))
  {
    if xs == [] then []
    else
      var last := xs[|xs| - 1];
      Retain(hand, xs[..|xs| - 1], s) + (if last < |hand| && Fits(hand[last], Some(s)) then [last] else [])
  }

  /** A slot is retained exactly when it is one of the given slots and holds a card of the suit. */
  lemma {:induction false} RetainKeepsExactly(hand: seq<Option<Card>>, xs: seq<nat>, s: Suit)
    ensures forall k :: k in Retain(hand, xs, s) <==> k in xs && k < |hand| && Fits(hand[k], Some(s))
  {
    if xs != [] {
      RetainKeepsExactly(hand, xs[..|xs| - 1], s);
      assert xs == xs[..|xs| - 1] + [xs[|xs| - 1]];
    }
  }

  /** Keeping the slots of suit s among the filled slots gives the slots that fit s. */
  lemma {:induction false} RetainFilled(hand: seq<Option<Card>>, s: Suit, n: nat)
    requires n <= |hand|
    ensures Retain(hand, FittingSlots(hand, None, n), s) == FittingSlots(hand, Some(s), n)
  {
    if n > 0 {
      RetainFilled(hand, s, n - 1);
      var xs, prev := FittingSlots(hand, None, n), FittingSlots(hand, None, n - 1);
      if hand[n - 1].Some? {
        assert xs == prev + [n - 1];
        assert xs[..|xs| - 1] == prev;
      } else {
        assert xs == prev;
      }
    }
  }

  /** The seats after the current player empties hand slot k. */
  function WithoutCard(ps: seq<Player>, k: nat): (r: seq<Player>)
    requires |ps| == PlayerCount
    requires k < |ps[0].hand|
    ensures |r| == PlayerCount && r[1..] == ps[1..]
    ensures r[0] == Player(ps[0].id, ps[0].hand[k := None], ps[0].score)
  {
    ps[0 := ps[0].(hand := ps[0].hand[k := None])]
  }

  /** The seats after the front player wins a trick. */
  function Credit(ps: seq<Player>): (r: seq<Player>)
    requires |ps| == PlayerCount
    ensures |r| == PlayerCount && r[1..] == ps[1..]
    ensures r[0] == Player(ps[0].id, ps[0].hand, ps[0].score + 1)
  {
    ps[0 := ps[0].(score := ps[0].score + 1)]
  }

  /** A seat number below 2 * 4 brought back below 4: n modulo the number of seats. */
  function Wrap(n: nat): (m: nat)
    requires n < 2 * PlayerCount
    ensures m < PlayerCount && (m == n || m + PlayerCount == n)
  {
    if n < PlayerCount then n else n - PlayerCount
  }

  /** Four seats of thirteen slots, sat in id order starting from id `seat`. */
  ghost predicate Seated(ps: seq<Player>, seat: nat)
  {
    |ps| == PlayerCount && seat < PlayerCount &&
    forall p :: 0 <= p < PlayerCount ==> |ps[p].hand| == HandSize && ps[p].id == Wrap(p + seat)
  }

  /**
   * The trick is the last |trick| < 4 cards seen, and trick[i] was played by
   * the player |trick| - i seats before the current one, whose id is `seat`.
   */
  ghost predicate TrickRecord(trick: seq<Card>, seen: seq<Card>, seat: nat, playedBy: seq<nat>)
  {
    seat < PlayerCount &&
    |trick| < PlayerCount && |trick| <= |seen| && trick == seen[|seen| - |trick|..] &&
    |playedBy| == |trick| &&
    forall i :: 0 <= i < |trick| ==> playedBy[i] == Wrap(seat + i + PlayerCount - |trick|)
  }

  /** The table invariant: the seating, the record of the trick, and one trick won for every four cards seen. */
  ghost predicate Table(ps: seq<Player>, trick: seq<Card>, seen: seq<Card>, seat: nat, playedBy: seq<nat>)
  {
    Seated(ps, seat) && TrickRecord(trick, seen, seat, playedBy) && 4 * TotalScore(ps) + |trick| == |seen|
  }

  /** Under the table invariant the tricks won add up to |seen| / 4 and the open trick holds the other |seen| % 4 cards. */
  lemma ScoresCountTricks(ps: seq<Player>, trick: seq<Card>, seen: seq<Card>, seat: nat, playedBy: seq<nat>)
    requires Table(ps, trick, seen, seat, playedBy)
    ensures TotalScore(ps) == |seen| / PlayerCount && |trick| == |seen| % PlayerCount
  {
  }

  /** Emptying a slot, turning the seats by k and crediting the front player keep the seating, moved on by k. */
  lemma TurnKeepsSeated(ps: seq<Player>, seat: nat, slot: nat, k: nat)
    requires Seated(ps, seat) && slot < HandSize && k <= PlayerCount
    ensures Seated(RotateLeft(WithoutCard(ps, slot), k), Wrap(seat + k))
    ensures Seated(Credit(RotateLeft(WithoutCard(ps, slot), k)), Wrap(seat + k))
  {
    var cleared := WithoutCard(ps, slot);
    PatchKeepsSeated(ps, cleared, seat);
    var turned := RotateLeft(cleared, k);
    RotateSeated(cleared, seat, k);
    PatchKeepsSeated(turned, Credit(turned), Wrap(seat + k));
  }

  /** Changing the front player's hand slots or score, but not their identity or hand size, keeps the seating. */
  lemma PatchKeepsSeated(ps: seq<Player>, qs: seq<Player>, seat: nat)
    requires Seated(ps, seat) && |qs| == PlayerCount && qs[1..] == ps[1..]
    requires qs[0].id == ps[0].id && |qs[0].hand| == |ps[0].hand|
    ensures Seated(qs, seat)
  {
    assert forall p :: 1 <= p < PlayerCount ==> qs[p] == qs[1..][p - 1] == ps[p];
  }

  /** Turning the seats by k moves the seating on by k. */
  lemma RotateSeated(ps: seq<Player>, seat: nat, k: nat)
    requires Seated(ps, seat) && k <= PlayerCount
    ensures Seated(RotateLeft(ps, k), Wrap(seat + k))
  {
  }

  /** Playing a card that does not complete the trick and passing the turn keep the record of the trick. */
  lemma PassKeepsRecord(trick: seq<Card>, seen: seq<Card>, seat: nat, playedBy: seq<nat>, c: Card)
    requires TrickRecord(trick, seen, seat, playedBy) && seat < PlayerCount && |trick| < PlayerCount - 1
    ensures TrickRecord(trick + [c], seen + [c], Wrap(seat + 1), playedBy + [seat])
  {
    assert (seen + [c])[|seen| + 1 - (|trick| + 1)..] == trick + [c];
  }

  /**
   * Playing the fourth card and seating the player of card w in front clear
   * the record; that player sits w + 1 seats after the player of the last card.
   */
  lemma CloseKeepsRecord(trick: seq<Card>, seen: seq<Card>, seat: nat, playedBy: seq<nat>, c: Card, w: nat)
    requires TrickRecord(trick, seen, seat, playedBy) && seat < PlayerCount && |trick| == PlayerCount - 1 && w < PlayerCount
    ensures TrickRecord([], seen + [c], Wrap(seat + w + 1), [])
    ensures (playedBy + [seat])[w] == Wrap(seat + w + 1)
  {
  }

  /** Playing a card that does not complete the trick, then passing the turn, keeps the table invariant. */
  lemma PassKeepsTable(ps: seq<Player>, trick: seq<Card>, seen: seq<Card>, seat: nat, playedBy: seq<nat>, k: nat)
    requires Table(ps, trick, seen, seat, playedBy) && |trick| < PlayerCount - 1
    requires k < HandSize && ps[0].hand[k].Some?
    ensures var c := ps[0].hand[k].value;
            Table(RotateLeft(WithoutCard(ps, k), 1), trick + [c], seen + [c], Wrap(seat + 1), playedBy + [ps[0].id])
  {
    TurnKeepsSeated(ps, seat, k, 1);
    PassKeepsRecord(trick, seen, seat, playedBy, ps[0].hand[k].value);
    PlayKeepsScores(ps, k, 1);
  }

  /** Playing the fourth card, then seating the winner in front and crediting them, keeps the table invariant. */
  lemma CloseKeepsTable(ps: seq<Player>, trick: seq<Card>, seen: seq<Card>, seat: nat, playedBy: seq<nat>, k: nat, w: nat)
    requires Table(ps, trick, seen, seat, playedBy) && |trick| == PlayerCount - 1
    requires k < HandSize && ps[0].hand[k].Some? && w < PlayerCount
    ensures var c := ps[0].hand[k].value;
            Table(Credit(RotateLeft(WithoutCard(ps, k), w + 1)), [], seen + [c], Wrap(seat + w + 1), [])
    ensures Credit(RotateLeft(WithoutCard(ps, k), w + 1))[0].id == (playedBy + [ps[0].id])[w]
  {
    TurnKeepsSeated(ps, seat, k, w + 1);
    CloseKeepsRecord(trick, seen, seat, playedBy, ps[0].hand[k].value, w);
    PlayKeepsScores(ps, k, w + 1);
  }

  /** Emptying a slot and turning the seats keep the tricks won; crediting adds one. */
  lemma PlayKeepsScores(ps: seq<Player>, k: nat, m: nat)
    requires |ps| == PlayerCount && k < |ps[0].hand| && m <= PlayerCount
    ensures TotalScore(RotateLeft(WithoutCard(ps, k), m)) == TotalScore(ps)
    ensures TotalScore(Credit(RotateLeft(WithoutCard(ps, k), m))) == TotalScore(ps) + 1
  {
    var cleared := WithoutCard(ps, k);
    assert cleared[0].score == ps[0].score && cleared[1] == ps[1] && cleared[2] == ps[2] && cleared[3] == ps[3];
    RotateKeepsCardsAndScores(cleared, m);
    var turned := RotateLeft(cleared, m);
    var credited := Credit(turned);
    assert credited[0].score == turned[0].score + 1;
    assert credited[1] == turned[1] && credited[2] == turned[2] && credited[3] == turned[3];
  }

  /** A play moves exactly the played card out of the hands; turning the seats and crediting a trick move none. */
  lemma PlayMovesOneCard(ps: seq<Player>, k: nat, m: nat)
    requires |ps| == PlayerCount && k < |ps[0].hand| && ps[0].hand[k].Some? && m <= PlayerCount
    ensures HandCards(RotateLeft(WithoutCard(ps, k), m)) + multiset{ps[0].hand[k].value} == HandCards(ps)
    ensures HandCards(Credit(RotateLeft(WithoutCard(ps, k), m))) == HandCards(RotateLeft(WithoutCard(ps, k), m))
  {
    var cleared := WithoutCard(ps, k);
    ClearMovesOneCard(ps, k);
    RotateKeepsCardsAndScores(cleared, m);
    CreditKeepsCards(RotateLeft(cleared, m));
  }

  /** Emptying a slot of the front player's hand takes exactly that card out of the hands. */
  lemma ClearMovesOneCard(ps: seq<Player>, k: nat)
    requires |ps| == PlayerCount && k < |ps[0].hand| && ps[0].hand[k].Some?
    ensures HandCards(WithoutCard(ps, k)) + multiset{ps[0].hand[k].value} == HandCards(ps)
  {
    var cleared, c := WithoutCard(ps, k), ps[0].hand[k].value;
    FilledClear(ps[0].hand, k);
    assert cleared[1] == ps[1] && cleared[2] == ps[2] && cleared[3] == ps[3];
    assert Filled(cleared[0].hand) + multiset{c} == Filled(ps[0].hand);
  }

  /** Crediting a trick changes no hand. */
  lemma CreditKeepsCards(ps: seq<Player>)
    requires |ps| == PlayerCount
    ensures HandCards(Credit(ps)) == HandCards(ps)
  {
    var r := Credit(ps);
    assert r[0].hand == ps[0].hand;
    assert r[1] == ps[1] && r[2] == ps[2] && r[3] == ps[3];
  }

  /**
   * A play moves one card from the hands to the cards seen, so whether or not
   * the trick closes (seats turned by m, the front player credited), the hands
   * and the cards seen together still hold exactly the cards of the deck.
   */
  lemma PlayKeepsCards(ps: seq<Player>, seen: seq<Card>, cards: seq<Card>, k: nat, m: nat)
    requires Conserved(ps, seen, cards) && k < |ps[0].hand| && ps[0].hand[k].Some? && m <= PlayerCount
    ensures Conserved(RotateLeft(WithoutCard(ps, k), m), seen + [ps[0].hand[k].value], cards)
    ensures Conserved(Credit(RotateLeft(WithoutCard(ps, k), m)), seen + [ps[0].hand[k].value], cards)
  {
    PlayMovesOneCard(ps, k, m);
    assert multiset(seen + [ps[0].hand[k].value]) == multiset(seen) + multiset{ps[0].hand[k].value};
  }

  /** The filled slots of a hand, in increasing order. */
  method FilledSlots(hand: seq<Option<Card>>) returns (slots: seq<nat>)
    ensures slots == FittingSlots(hand, None, |hand|)
  {
    slots := [];
    var i := 0;
    while i < |hand|
      invariant 0 <= i <= |hand| && slots == FittingSlots(hand, None, i)
    {
      if hand[i].Some? {
        slots := slots + [i];
      }
      i := i + 1;
    }
  }

  /** Keeps, in order, the slots of xs whose card has suit s. */
  method RetainSuit(hand: seq<Option<Card>>, xs: seq<nat>, s: Suit) returns (kept: seq<nat>)
    requires forall i :: 0 <= i < |xs| ==> xs[i] < |hand| && hand[xs[i]].Some?
    ensures kept == Retain(hand, xs, s)
  {
    kept := [];
    var j := 0;
    while j < |xs|
      invariant 0 <= j <= |xs| && kept == Retain(hand, xs[..j], s)
    {
      assert xs[..j + 1][..j] == xs[..j];
      if hand[xs[j]].value.suit == s {
        kept := kept + [xs[j]];
      }
      j := j + 1;
    }
    assert xs[..|xs|] == xs;
  }

  /** The four new players, with ids 0 to 3 in seat order. */
  function NewPlayers(): (ps: seq<Player>)
    ensures |ps| == PlayerCount && forall p :: 0 <= p < PlayerCount ==> ps[p] == NewPlayer(p)
  {
    [NewPlayer(0), NewPlayer(1), NewPlayer(2), NewPlayer(3)]
  }

  /** New players, before any card is played, satisfy the table invariant. */
  lemma NewPlayersSeated()
    ensures Table(NewPlayers(), [], [], 0, [])
  {
  }

  /** The cards still held and the cards seen are together exactly the cards of the deck. */
  ghost predicate Conserved(ps: seq<Player>, seen: seq<Card>, cards: seq<Card>)
  {
    |ps| == PlayerCount && HandCards(ps) + multiset(seen) == multiset(cards)
  }

  /**
   * A trick closed while every card is either held or seen once has no
   * repeated card, so when it holds the effective trump the winner as
   * written is the winner by the rules of whist.
   */
  lemma ClosedTrickAgrees(before: seq<Player>, ps: seq<Player>, seen: seq<Card>, cards: seq<Card>,
                          trick: seq<Card>, seat: nat, playedBy: seq<nat>, c: Card, trumps: Option<Suit>)
    requires Table(before, trick, seen, seat, playedBy) && |trick| == PlayerCount - 1
    requires Conserved(ps, seen + [c], cards) && multiset(cards) == multiset(Deck())
    requires HasSuit(trick + [c], Effective((trick + [c])[0].suit, trumps))
    ensures SortedWinner(trick + [c], trumps) == IntendedWinner(trick + [c], trumps)
  {
    var closed, all := trick + [c], seen + [c];
    NoCardTwice(ps, all);
    forall i, j | 0 <= i < j < |closed|
      ensures closed[i] != closed[j]
    {
      assert closed[i] == all[|all| - |closed| + i] && closed[j] == all[|all| - |closed| + j];
    }
    WinnersAgreeWithTrumpPlayed(closed, trumps);
  }

  // ---------------------------------------------------------------------------
  // The engine
  // ---------------------------------------------------------------------------

  class Whist {
    /** The seats; players[0] is the current player. */
    var players: array<Player>
    /** The cards of the trick in progress, in play order. */
    var trick: seq<Card>
    /** Every card played this deal, in play order. */
    var seen: seq<Card>
    var trumps: Option<Suit>
    var deck: array<Card>
    /** How far the seats have turned: players[p] has id (p + seat) % 4. */
    ghost var seat: nat
    /** playedBy[i] is the id of the player who played trick[i]. */
    ghost var playedBy: seq<nat>

    ghost predicate Valid()
      reads this, players, deck
    {
      players.Length == PlayerCount && deck.Length == 52 &&
      Table(players[..], trick, seen, seat, playedBy) &&
      multiset(deck[..]) == multiset(Deck())
    }

    /** A table as created: ids 0 to 3, empty hands, no tricks, nothing played. */
    ghost predicate Initial(t: Option<Suit>)
      reads this, players, deck
    {
      Valid() && trumps == t && trick == [] && seen == [] && deck[..] == Deck() && players[..] == NewPlayers()
    }

    /** A new table with the given trumps (chosen at random among the four suits and none). */
    constructor(trumps: Option<Suit>)
      ensures Initial(trumps) && fresh(players) && fresh(deck)
    {
      var d, ps := Deck(), NewPlayers();
      NewPlayersSeated();
      var seats := new Player[PlayerCount](i requires 0 <= i < PlayerCount => ps[i]);
      var cards := new Card[52](i requires 0 <= i < 52 => d[i]);
      assert seats[..] == ps && cards[..] == d;
      players, deck := seats, cards;
      trick, seen, this.trumps, seat, playedBy := [], [], trumps, 0, [];
      new;
    }

    /** Replaces the whole state by a new table with the given trumps. */
    method Reset(trumps: Option<Suit>)
      modifies this
      ensures Initial(trumps) && fresh(players) && fresh(deck)
    {
      var d, ps := Deck(), NewPlayers();
      NewPlayersSeated();
      var seats := new Player[PlayerCount](i requires 0 <= i < PlayerCount => ps[i]);
      var cards := new Card[52](i requires 0 <= i < 52 => d[i]);
      assert seats[..] == ps && cards[..] == d;
      players, deck := seats, cards;
      trick, seen, this.trumps, seat, playedBy := [], [], trumps, 0, [];
    }

    /**
     * Deals the deck, put in the given shuffled order, round-robin: card i
     * goes to slot i / 4 of player i % 4.
     */
    method Deal(shuffled: seq<Card>)
      requires Valid() && multiset(shuffled) == multiset(deck[..])
      modifies players, deck
      ensures Valid() && deck[..] == shuffled
      ensures forall p, j :: 0 <= p < PlayerCount && 0 <= j < HandSize ==> players[p].hand[j] == Some(shuffled[4 * j + p])
      ensures forall p :: 0 <= p < PlayerCount ==> players[p].id == old(players[p].id) && players[p].score == old(players[p].score)
      ensures HandCards(players[..]) == multiset(shuffled)
      ensures seen == [] ==> Conserved(players[..], seen, deck[..])
    {
      assert |shuffled| == deck.Length by {
        assert |multiset(shuffled)| == |multiset(deck[..])|;
      }
      forall i | 0 <= i < deck.Length {
        deck[i] := shuffled[i];
      }
      assert deck[..] == shuffled;
      DealHands(shuffled);
      FullDealHoldsDeck(players[..], shuffled);
      assert TotalScore(players[..]) == TotalScore(old(players[..]));
      assert forall p :: 0 <= p < PlayerCount ==> players[p].id == Wrap(p + seat);
      assert multiset(deck[..]) == multiset(Deck());
    }

    /** Writes card i of the dealing order into slot i / 4 of player i % 4. */
    method DealHands(order: seq<Card>)
      requires players.Length == PlayerCount && |order| == 52
      requires forall p :: 0 <= p < PlayerCount ==> |players[p].hand| == HandSize
      modifies players
      ensures forall p :: 0 <= p < PlayerCount ==>
                |players[p].hand| == HandSize && players[p].id == old(players[p].id) && players[p].score == old(players[p].score)
      ensures forall p, j :: 0 <= p < PlayerCount && 0 <= j < HandSize ==> players[p].hand[j] == Some(order[4 * j + p])
    {
      var i := 0;
      while i < 52
        invariant 0 <= i <= 52
        invariant forall p :: 0 <= p < PlayerCount ==>
                    |players[p].hand| == HandSize && players[p].id == old(players[p].id) && players[p].score == old(players[p].score)
        invariant forall p, j :: 0 <= p < PlayerCount && 0 <= j < HandSize ==>
                    players[p].hand[j] == if 4 * j + p < i then Some(order[4 * j + p]) else old(players[p].hand[j])
      {
        var p, j := i % 4, i / 4;
        players[p] := players[p].(hand := players[p].hand[j := Some(order[i])]);
        i := i + 1;
      }
    }

    /** The player whose turn it is. */
    function CurrentPlayer(): (p: Player)
      reads this, players, deck
      requires Valid()
      ensures p == players[0] && p.id < PlayerCount && |p.hand| == HandSize
    {
      players[0]
    }

    /** What the current player observes. */
    function Observation(): (o: State)
      reads this, players, deck
      requires Valid()
      ensures o == State(players[0].hand, seen, trumps, trick)
      ensures |o.hand| == HandSize && |o.trick| < PlayerCount && o.trick == o.seen[|o.seen| - |o.trick|..]
    {
      State(CurrentPlayer().hand, seen, trumps, trick)
    }

    /** The slots the current player may play, in increasing order. */
    method LegalActions() returns (actions: seq<nat>)
      requires Valid()
      ensures actions == LegalSlots(players[0].hand, trick)
    {
      var hand := players[0].hand;
      actions := FilledSlots(hand);
      if trick == [] {
        return;
      }
      var leading := trick[0].suit;
      var hasLeading := exists k | 0 <= k < |hand| :: hand[k].Some? && hand[k].value.suit == leading;
      if !hasLeading {
        return;
      }
      assert MustFollow(hand, trick) == Some(leading);
      FittingSlotsSpec(hand, None, |hand|);
      RetainFilled(hand, leading, |hand|);
      actions := RetainSuit(hand, actions, leading);
    }

    /** The current player's card in slot `action` leaves the hand and joins the trick and the cards seen. */
    method PlayCard(action: nat)
      requires players.Length == PlayerCount && |players[0].hand| == HandSize
      requires action < HandSize && players[0].hand[action].Some?
      modifies this, players
      ensures players == old(players) && deck == old(deck) && trumps == old(trumps) && seat == old(seat)
      ensures trick == old(trick) + [old(players[..])[0].hand[action].value]
      ensures seen == old(seen) + [old(players[..])[0].hand[action].value]
      ensures playedBy == old(playedBy) + [old(players[..])[0].id]
      ensures players[..] == WithoutCard(old(players[..]), action)
      ensures deck[..] == old(deck[..])
    {
      var card := players[0].hand[action].value;
      trick := trick + [card];
      seen := seen + [card];
      playedBy := playedBy + [players[0].id];
      players[0] := players[0].(hand := players[0].hand[action := None]);
    }

    /** Turns the seats left by k places. */
    method RotatePlayers(k: nat)
      requires players.Length == PlayerCount && k <= PlayerCount
      modifies players
      ensures players[..] == RotateLeft(old(players[..]), k)
      ensures deck[..] == old(deck[..])
    {
      var before := players[..];
      forall p | 0 <= p < PlayerCount {
        players[p] := if p + k < PlayerCount then before[p + k] else before[p + k - PlayerCount];
      }
    }

    /**
     * The current player plays the card in slot `action`. The card leaves the
     * hand and joins the trick and the cards seen. Before the trick is complete
     * the turn passes to the next seat; on its fourth card the trick is won by
     * position `winner`, whose player moves to the front and scores one, and
     * the trick is cleared. The reward is always 0 and the game never reports
     * that it is done.
     */
    method Step(action: nat) returns (obs: State, reward: nat, done: bool, ghost winner: nat)
      requires Valid()
      requires action < HandSize && players[0].hand[action].Some?
      modifies this, players
      ensures Valid() && players == old(players) && deck == old(deck) && trumps == old(trumps)
      ensures obs == Observation() && reward == 0 && !done
      ensures seen == old(seen) + [old(players[..])[0].hand[action].value]
      ensures winner < PlayerCount
      ensures old(|trick|) < PlayerCount - 1 ==>
                trick == old(trick) + [old(players[..])[0].hand[action].value] &&
                players[..] == RotateLeft(WithoutCard(old(players[..]), action), 1)
      ensures old(|trick|) == PlayerCount - 1 ==> trick == []
      ensures old(|trick|) == PlayerCount - 1 ==>
                players[..] == Credit(RotateLeft(WithoutCard(old(players[..]), action), winner + 1))
      ensures old(|trick|) == PlayerCount - 1 ==> players[0].id == (old(playedBy) + [old(players[..])[0].id])[winner]
      ensures old(|trick|) == PlayerCount - 1 ==>
                winner == SortedWinner(old(trick) + [old(players[..])[0].hand[action].value], trumps)
      ensures old(Conserved(players[..], seen, deck[..])) ==> Conserved(players[..], seen, deck[..])
      ensures var closed := old(trick) + [old(players[..])[0].hand[action].value];
              (old(|trick|) == PlayerCount - 1 && old(Conserved(players[..], seen, deck[..])) &&
               HasSuit(closed, Effective(closed[0].suit, trumps))) ==> winner == IntendedWinner(closed, trumps)
    {
      ghost var before, played, oldSeen, cards := players[..], playedBy, seen, deck[..];
      ghost var oldTrick, oldSeat := trick, seat;
      if |trick| < PlayerCount - 1 {
        PassTurn(action);
        winner := 0;
        if Conserved(before, oldSeen, cards) {
          PlayKeepsCards(before, oldSeen, cards, action, 1);
        }
      } else {
        winner := TakeTrick(action);
        assert players[..] == Credit(RotateLeft(WithoutCard(before, action), winner + 1));
        assert players[0].id == (played + [before[0].id])[winner];
        if Conserved(before, oldSeen, cards) {
          PlayKeepsCards(before, oldSeen, cards, action, winner + 1);
          ghost var c := before[0].hand[action].value;
          if HasSuit(oldTrick + [c], Effective((oldTrick + [c])[0].suit, trumps)) {
            ClosedTrickAgrees(before, players[..], oldSeen, cards, oldTrick, oldSeat, played, c, trumps);
          }
        }
      }
      obs := Observation();
      reward, done := 0, false;
    }

    /** Step on the first three cards of a trick: play the card and pass the turn to the next seat. */
    method PassTurn(action: nat)
      requires Valid() && |trick| < PlayerCount - 1
      requires action < HandSize && players[0].hand[action].Some?
      modifies this, players
      ensures Valid() && players == old(players) && deck == old(deck) && trumps == old(trumps)
      ensures seen == old(seen) + [old(players[..])[0].hand[action].value]
      ensures trick == old(trick) + [old(players[..])[0].hand[action].value]
      ensures players[..] == RotateLeft(WithoutCard(old(players[..]), action), 1)
    {
      ghost var ps, oldTrick, oldSeen, oldSeat, oldPlayed := players[..], trick, seen, seat, playedBy;
      ghost var cards := deck[..];
      PlayCard(action);
      RotatePlayers(1);
      seat := Wrap(seat + 1);
      assert players == old(players) && deck == old(deck) && trumps == old(trumps);
      assert deck[..] == cards && ps == old(players[..]);
      ghost var c := ps[0].hand[action].value;
      assert seen == oldSeen + [c] && trick == oldTrick + [c];
      assert players[..] == RotateLeft(WithoutCard(ps, action), 1);
      PassKeepsTable(ps, oldTrick, oldSeen, oldSeat, oldPlayed, action);
      assert Table(players[..], trick, seen, seat, playedBy);
    }

    /**
     * Step on the fourth card of a trick: play the card, find the winning
     * position, turn the seats so that its player is in front, credit them
     * with the trick and clear it.
     */
    method TakeTrick(action: nat) returns (ghost winner: nat)
      requires Valid() && |trick| == PlayerCount - 1
      requires action < HandSize && players[0].hand[action].Some?
      modifies this, players
      ensures Valid() && players == old(players) && deck == old(deck) && trumps == old(trumps)
      ensures seen == old(seen) + [old(players[..])[0].hand[action].value]
      ensures winner < PlayerCount && trick == []
      ensures players[..] == Credit(RotateLeft(WithoutCard(old(players[..]), action), winner + 1))
      ensures players[0].id == (old(playedBy) + [old(players[..])[0].id])[winner]
      ensures winner == SortedWinner(old(trick) + [old(players[..])[0].hand[action].value], trumps)
    {
      ghost var ps, oldTrick, oldSeen, oldSeat, oldPlayed := players[..], trick, seen, seat, playedBy;
      ghost var cards := deck[..];
      var w := ResolveTrick(action);
      winner := w;
      ghost var after, c := players[..], ps[0].hand[action].value;
      assert players == old(players) && deck == old(deck) && trumps == old(trumps);
      assert deck[..] == cards && players[..] == after && ps == old(players[..]);
      assert seen == oldSeen + [c] && seat == Wrap(oldSeat + w + 1);
      assert after == Credit(RotateLeft(WithoutCard(ps, action), w + 1));
      assert w == SortedWinner(oldTrick + [c], trumps);
      CloseKeepsTable(ps, oldTrick, oldSeen, oldSeat, oldPlayed, action, w);
      assert Table(after, trick, seen, seat, playedBy);
      assert Valid();
      assert players[0].id == after[0].id == (oldPlayed + [ps[0].id])[w];
    }

    /**
     * Plays the fourth card and resolves the trick: the winner's seat turns to
     * the front and is credited with the trick, and the trick is cleared.
     */
    method ResolveTrick(action: nat) returns (w: nat)
      requires players.Length == PlayerCount && |players[0].hand| == HandSize && |trick| == PlayerCount - 1
      requires seat < PlayerCount
      requires action < HandSize && players[0].hand[action].Some?
      modifies this, players
      ensures players == old(players) && deck == old(deck) && trumps == old(trumps)
      ensures w < PlayerCount
      ensures w == SortedWinner(old(trick) + [old(players[..])[0].hand[action].value], trumps)
      ensures seen == old(seen) + [old(players[..])[0].hand[action].value]
      ensures trick == [] && playedBy == [] && seat == Wrap(old(seat) + w + 1)
      ensures players[..] == Credit(RotateLeft(WithoutCard(old(players[..]), action), w + 1))
      ensures deck[..] == old(deck[..])
    {
      ghost var cards := deck[..];
      var before := players[..];
      var card := before[0].hand[action].value;
      w := SortedWinner(trick + [card], trumps);
      var next := Credit(RotateLeft(WithoutCard(before, action), w + 1));
      forall p | 0 <= p < PlayerCount {
        players[p] := next[p];
      }
      trick, seen := [], seen + [card];
      seat, playedBy := Wrap(seat + w + 1), [];
      assert players[..] == next && deck[..] == cards;
    }
  }
}
