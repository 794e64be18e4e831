/**
 * Playing cards: the four suits, the thirteen ranks, the (suit, rank) pair,
 * card equality, the numeric card encoding and the canonical 52-card deck.
 */
module Cards {

  /** Outcome of a three-way comparison. */
  datatype Ordering = Less | Equal | Greater

  /** An optional value. */
  datatype Option<T> = None | Some(value: T)

  datatype Suit = Hearts | Clubs | Diamonds | Spades

  /** Ranks are declared from Ace down to Two; that order fixes their ordinals. */
  datatype Rank = Ace | King | Queen | Jack | Ten | Nine | Eight | Seven | Six | Five | Four | Three | Two

  /** A card over any suit and rank types. */
  datatype BaseCard<S, R> = BaseCard(suit: S, rank: R)

  /** The standard card. */
  type Card = BaseCard<Suit, Rank>

  /** Builds a card from a suit and a rank. */
  function New<S, R>(suit: S, rank: R): (c: BaseCard<S, R>)
    ensures c.suit == suit && c.rank == rank
  {
    BaseCard(suit, rank)
  }

  /** The suits, indexed by their ordinal. */
  function Suits(): seq<Suit> { [Hearts, Clubs, Diamonds, Spades] }

  /** The ranks, indexed by their ordinal (declaration order). */
  function RanksByOrdinal(): seq<Rank>
  {
    [Ace, King, Queen, Jack, Ten, Nine, Eight, Seven, Six, Five, Four, Three, Two]
  }

  /** The order in which the deck lays out the ranks of each suit. */
  function DeckRanks(): seq<Rank>
  {
    [Ace, Two, Three, Four, Five, Six, Seven, Eight, Nine, Ten, Jack, Queen, King]
  }

  /** The ordinal of a suit, as the enum cast gives it. */
  function SuitOrdinal(s: Suit): (n: nat)
    ensures n < 4 && Suits()[n] == s
  {
    match s
    case Hearts => 0
    case Clubs => 1
    case Diamonds => 2
    case Spades => 3
  }

  /** The ordinal of a rank, as the enum cast gives it: Ace is 0, King 1, ..., Two 12. */
  function RankOrdinal(r: Rank): (n: nat)
    ensures n < 13 && RanksByOrdinal()[n] == r
  {
    match r
    case Ace => 0
    case King => 1
    case Queen => 2
    case Jack => 3
    case Ten => 4
    case Nine => 5
    case Eight => 6
    case Seven => 7
    case Six => 8
    case Five => 9
    case Four => 10
    case Three => 11
    case Two => 12
  }

  /** The position of a rank within one suit of the deck (Ace first, then Two up to King). */
  function DeckRankIndex(r: Rank): (k: nat)
    ensures k < 13 && DeckRanks()[k] == r
  {
    if r == Ace then 0 else 13 - RankOrdinal(r)
  }

  /** Card equality: same rank and same suit. */
  function Equals(a: Card, b: Card): (r: bool)
    ensures r <==> a == b
  {
    a.rank == b.rank && a.suit == b.suit
  }

  /**
   * The numeric code of a card, suit ordinal times 13 plus rank ordinal.
   * The code is below 52, its quotient by 13 recovers the suit and its
   * remainder the rank.
   */
  function Encode(c: Card): (n: nat)
    ensures n < 52
    ensures n / 13 == SuitOrdinal(c.suit) && n % 13 == RankOrdinal(c.rank)
  {
    SuitOrdinal(c.suit) * 13 + RankOrdinal(c.rank)
  }

  /** The card with a given code: the inverse of Encode. */
  function Decode(n: nat): (c: Card)
    requires n < 52
    ensures Encode(c) == n
  {
    BaseCard(Suits()[n / 13], RanksByOrdinal()[n % 13])
  }

  lemma DecodeEncode(c: Card)
    ensures Decode(Encode(c)) == c
  {
    var n := Encode(c);
    assert Suits()[n / 13] == c.suit;
    assert RanksByOrdinal()[n % 13] == c.rank;
  }

  /** Different cards have different codes. */
  lemma EncodeInjective(a: Card, b: Card)
    ensures Encode(a) == Encode(b) <==> a == b
  {
    DecodeEncode(a);
    DecodeEncode(b);
  }

  /**
   * The canonical deck: Hearts, Clubs, Diamonds, Spades, each laid out Ace,
   * Two, ..., King, so card j has suit j / 13 and deck rank j % 13.
   */
  function Deck(): (d: seq<Card>)
    ensures |d| == 52
  {
    seq(52, j requires 0 <= j < 52 => New(Suits()[j / 13], DeckRanks()[j % 13]))
  }

  /** One suit's cards, in deck rank order. */
  function SuitRun(s: Suit): (row: seq<Card>)
    ensures |row| == 13
    ensures forall k :: 0 <= k < 13 ==> row[k] == BaseCard(s, DeckRanks()[k])
  {
    seq(13, k requires 0 <= k < 13 => New(s, DeckRanks()[k]))
  }

  /** The runs of the given suits one after the other: a flat map of SuitRun over the suits. */
  function Runs(suits: seq<Suit>): (d: seq<Card>)
    ensures |d| == 13 * |suits|
  {
    if suits == [] then [] else SuitRun(suits[0]) + Runs(suits[1..])
  }

  /** Card j of the runs belongs to suit j / 13 and has deck rank j % 13. */
  lemma {:induction false} RunsLayout(suits: seq<Suit>, j: nat)
    requires j < 13 * |suits|
    ensures Runs(suits)[j] == BaseCard(suits[j / 13], DeckRanks()[j % 13])
  {
    if j >= 13 {
      assert (j - 13) / 13 == j / 13 - 1 && (j - 13) % 13 == j % 13;
      RunsLayout(suits[1..], j - 13);
    }
  }

  /** Flat-mapping the runs over the four suits gives the canonical deck. */
  lemma DeckIsRuns()
    ensures Runs(Suits()) == Deck()
  {
    forall j | 0 <= j < 52
      ensures Runs(Suits())[j] == Deck()[j]
    {
      RunsLayout(Suits(), j);
    }
  }

  ghost predicate Distinct<T>(s: seq<T>)
  {
    forall i, j :: 0 <= i < j < |s| ==> s[i] != s[j]
  }

  /** Where a card sits in the deck: thirteen times its suit ordinal plus its deck rank position. */
  function DeckIndex(c: Card): (j: nat)
    ensures j < 52 && Deck()[j] == c
  {
    var j := 13 * SuitOrdinal(c.suit) + DeckRankIndex(c.rank);
    assert j / 13 == SuitOrdinal(c.suit) && j % 13 == DeckRankIndex(c.rank);
    j
  }

  /** DeckIndex inverts deck lookup. */
  lemma DeckIndexOfDeck(j: nat)
    requires j < 52
    ensures DeckIndex(Deck()[j]) == j
  {
    var s, k := j / 13, j % 13;
    assert Deck()[j] == BaseCard(Suits()[s], DeckRanks()[k]);
    SuitOrdinalOfSuits(s);
    DeckRankIndexOfDeckRanks(k);
    assert 13 * s + k == j;
  }

  /** Suits() lists each suit at its ordinal. */
  lemma SuitOrdinalOfSuits(k: nat)
    requires k < 4
    ensures SuitOrdinal(Suits()[k]) == k
  {
  }

  /** DeckRanks() lists each rank at its deck rank position. */
  lemma DeckRankIndexOfDeckRanks(k: nat)
    requires k < 13
    ensures DeckRankIndex(DeckRanks()[k]) == k
  {
  }

  /** No two cards of the deck are equal. */
  lemma DeckDistinct()
    ensures Distinct(Deck())
  {
    var d := Deck();
    forall i, j | 0 <= i < j < 52
      ensures d[i] != d[j]
    {
      DeckIndexOfDeck(i);
      DeckIndexOfDeck(j);
    }
  }

  /** In a sequence without repeats, each element occurs once. */
  lemma {:induction false} DistinctCount<T>(s: seq<T>, x: T)
    requires Distinct(s)
    ensures multiset(s)[x] == if x in s then 1 else 0
  {
    if s != [] {
      assert s == [s[0]] + s[1..];
      assert Distinct(s[1..]);
      DistinctCount(s[1..], x);
      assert s[0] !in s[1..];
    }
  }

  /** An element found at two positions occurs at least twice. */
  lemma TwoPositions<T>(s: seq<T>, i: nat, j: nat)
    requires i < j < |s|
    ensures s[i] == s[j] ==> multiset(s)[s[i]] >= 2
  {
    assert s == s[..i] + [s[i]] + s[i + 1..j] + [s[j]] + s[j + 1..];
  }

  /** A sequence whose multiset has no element twice has no repeats. */
  lemma SingleCountsDistinct<T>(s: seq<T>)
    requires forall x :: multiset(s)[x] <= 1
    ensures Distinct(s)
  {
    forall i, j | 0 <= i < j < |s|
      ensures s[i] != s[j]
    {
      TwoPositions(s, i, j);
    }
  }

  /** Every card occurs in the canonical deck exactly once. */
  lemma DeckHasEachCardOnce(c: Card)
    ensures multiset(Deck())[c] == 1
  {
    DeckDistinct();
    assert Deck()[DeckIndex(c)] == c;
    DistinctCount(Deck(), c);
  }

  /** Every code from 0 to 51 is the code of exactly one deck card. */
  lemma DeckCodes(n: nat)
    requires n < 52
    ensures exists j :: 0 <= j < 52 && Encode(Deck()[j]) == n
    ensures forall i, j :: 0 <= i < 52 && 0 <= j < 52 && Encode(Deck()[i]) == n && Encode(Deck()[j]) == n ==> i == j
  {
    var c := Decode(n);
    assert Encode(Deck()[DeckIndex(c)]) == n;
    DeckDistinct();
    forall i, j | 0 <= i < 52 && 0 <= j < 52 && Encode(Deck()[i]) == n && Encode(Deck()[j]) == n
      ensures i == j
    {
      EncodeInjective(Deck()[i], Deck()[j]);
    }
  }

  /** A card's code equals its deck position exactly when it is an Ace. */
  lemma EncodeVersusDeckIndex(j: nat)
    requires j < 52
    ensures Encode(Deck()[j]) == j <==> Deck()[j].rank == Ace
  {
    var s, k := j / 13, j % 13;
    var c := Deck()[j];
    assert c.suit == Suits()[s] && c.rank == DeckRanks()[k];
    SuitOrdinalOfSuits(s);
    DeckRankOrdinal(k);
  }

  /** The k-th rank of a suit's run has ordinal 0 for the Ace and 13 - k for the others. */
  lemma DeckRankOrdinal(k: nat)
    requires k < 13
    ensures RankOrdinal(DeckRanks()[k]) == if k == 0 then 0 else 13 - k
  {
    DeckRankIndexOfDeckRanks(k);
  }
}
