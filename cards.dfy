/// The card codec and deck utilities of src/utils/card.ts.
///
/// Bitwise operators are modelled on non-negative integers by their binary
/// definitions; randomness (`Math.random()`) is a caller-supplied sequence of
/// `Draw`s, one per call.
module Cards {
  import opened Enums

  // ---------------------------------------------------------------------
  // Bit operations on non-negative integers
  // ---------------------------------------------------------------------

  function Pow2(n: nat): (r: nat)
    ensures r >= 1
  {
    if n == 0 then 1 else 2 * Pow2(n - 1)
  }

  /// `x << n`
  function ShiftLeft(x: nat, n: nat): nat
  {
    x * Pow2(n)
  }

  /// `x >> n` (an arithmetic shift, which on non-negative numbers halves
  /// `n` times, rounding down)
  function ShiftRight(x: nat, n: nat): nat
  {
    if n == 0 then x else ShiftRight(x / 2, n - 1)
  }

  /// `a & b`, bit by bit from the least significant end
  function BitAnd(a: nat, b: nat): nat
    decreases a
  {
    if a == 0 || b == 0 then 0
    else 2 * BitAnd(a / 2, b / 2) + (if a % 2 == 1 && b % 2 == 1 then 1 else 0)
  }

  /// `a | b`, bit by bit from the least significant end
  function BitOr(a: nat, b: nat): nat
    decreases a + b
  {
    if a == 0 then b
    else if b == 0 then a
    else 2 * BitOr(a / 2, b / 2) + (if a % 2 == 1 || b % 2 == 1 then 1 else 0)
  }

  lemma MulMonotone(a: nat, b: nat, p: nat)
    ensures a <= b ==> a * p <= b * p
  {
  }

  /// Uniqueness of Euclidean division by a positive divisor.
  lemma ModUnique(c: nat, p: nat, q: nat, m: nat)
    requires p > 0 && m < p && c == q * p + m
    ensures c % p == m && c / p == q
  {
    var q2, m2 := c / p, c % p;
    assert c == q2 * p + m2;
    assert (q2 + 1) * p == q2 * p + p;
    assert (q + 1) * p == q * p + p;
    MulMonotone(q2 + 1, q, p);
    MulMonotone(q + 1, q2, p);
  }

  /// `c % 2^n` is built from the lowest bit of `c` and `(c / 2) % 2^(n-1)`.
  lemma ModPow2Step(c: nat, n: nat)
    requires n > 0
    ensures c % Pow2(n) == 2 * ((c / 2) % Pow2(n - 1)) + c % 2
  {
    var p := Pow2(n - 1);
    var q, r := (c / 2) / p, (c / 2) % p;
    assert c / 2 == q * p + r;
    assert c == 2 * (c / 2) + c % 2;
    assert 2 * (q * p) == q * (2 * p);
    assert c == q * (2 * p) + (2 * r + c % 2);
    ModUnique(c, 2 * p, q, 2 * r + c % 2);
  }

  /// `mask(n)` sets the `n` low bits, so masking keeps the remainder modulo 2^n.
  lemma {:induction false} MaskKeepsLowBits(n: nat, c: nat)
    ensures BitAnd(Mask(n), c) == c % Pow2(n)
  {
    if n == 0 || c == 0 {
    } else {
      assert Mask(n) / 2 == Mask(n - 1) && Mask(n) % 2 == 1;
      MaskKeepsLowBits(n - 1, c / 2);
      assert BitAnd(Mask(n), c) == 2 * ((c / 2) % Pow2(n - 1)) + c % 2;
      ModPow2Step(c, n);
    }
  }

  /// Or-ing a value below 2^n into `x << n` adds it.
  lemma {:induction false} OrIntoShifted(x: nat, s: nat, n: nat)
    requires s < Pow2(n)
    ensures BitOr(ShiftLeft(x, n), s) == ShiftLeft(x, n) + s
  {
    var a := ShiftLeft(x, n);
    if n == 0 || a == 0 || s == 0 {
    } else {
      assert a == 2 * ShiftLeft(x, n - 1);
      OrIntoShifted(x, s / 2, n - 1);
      assert BitOr(a, s) == 2 * (ShiftLeft(x, n - 1) + s / 2) + s % 2;
    }
  }

  // ---------------------------------------------------------------------
  // The codec (src/utils/card.ts:5-19)
  // ---------------------------------------------------------------------

  /// `mask(n) = (1 << n) - 1`
  function Mask(n: nat): (m: nat)
    ensures m + 1 == Pow2(n)
  {
    ShiftLeft(1, n) - 1
  }

  function CreateCard(suit: Suit, faceValue: FaceValue): (card: Card)
    ensures card == 4 * faceValue.Value() + suit.Value()
    ensures card < DECK_SIZE
  {
    OrIntoShifted(faceValue.Value(), suit.Value(), SUIT_BIN_WIDTH);
    BitOr(ShiftLeft(faceValue.Value(), SUIT_BIN_WIDTH), suit.Value())
  }

  /// The suit number held in the low two bits.
  function GetSuit(card: Card): (s: nat)
    ensures s == card % 4
  {
    MaskKeepsLowBits(SUIT_BIN_WIDTH, card);
    BitAnd(Mask(SUIT_BIN_WIDTH), card)
  }

  /// The face-value number held above the suit bits.
  function GetFaceValue(card: Card): (f: nat)
    ensures f == card / 4
    ensures card < DECK_SIZE ==> f < 13
  {
    var half := card / 2;
    assert card == 4 * (half / 2) + (2 * (half % 2) + card % 2);
    ModUnique(card, 4, half / 2, 2 * (half % 2) + card % 2);
    assert ShiftRight(card, SUIT_BIN_WIDTH) == ShiftRight(half, 1) == half / 2;
    ShiftRight(card, SUIT_BIN_WIDTH)
  }

  lemma CodecRoundTrip(suit: Suit, faceValue: FaceValue)
    ensures GetSuit(CreateCard(suit, faceValue)) == suit.Value()
    ensures GetFaceValue(CreateCard(suit, faceValue)) == faceValue.Value()
  {
    var c := CreateCard(suit, faceValue);
    ModUnique(c, 4, faceValue.Value(), suit.Value());
  }

  /// Every number below 52 is the card of exactly the suit and face it decodes to.
  lemma CodecCoversDeck(card: Card)
    requires card < DECK_SIZE
    ensures GetSuit(card) < 4 && GetFaceValue(card) < 13
    ensures CreateCard(CreateSuits()[GetSuit(card)], CreateFaceValues()[GetFaceValue(card)]) == card
  {
  }

  // ---------------------------------------------------------------------
  // Enumerations in declaration order (src/utils/card.ts:21-41)
  // ---------------------------------------------------------------------

  function CreateSuits(): (suits: seq<Suit>)
    ensures |suits| == 4
    ensures forall i :: 0 <= i < |suits| ==> suits[i].Value() == i
  {
    [Diamonds, Clubs, Hearts, Spades]
  }

  function CreateFaceValues(): (faces: seq<FaceValue>)
    ensures |faces| == 13
    ensures forall i :: 0 <= i < |faces| ==> faces[i].Value() == i
    ensures faces[0] == Two && faces[12] == Ace
  {
    [Two, Three, Four, Five, Six, Seven, Eight, Nine, Ten, Jack, Queen, King, Ace]
  }

  /// Every suit and every face value is listed.
  lemma EnumerationsComplete(suit: Suit, faceValue: FaceValue)
    ensures suit in CreateSuits() && faceValue in CreateFaceValues()
  {
    assert CreateSuits()[suit.Value()] == suit;
    assert CreateFaceValues()[faceValue.Value()] == faceValue;
  }

  // ---------------------------------------------------------------------
  // Building the deck (src/utils/card.ts:43-49)
  // ---------------------------------------------------------------------

  /// `faces.flatMap(f => createCard(suit, f))`
  function SuitCards(suit: Suit, faces: seq<FaceValue>): seq<Card>
  {
    seq(|faces|, i requires 0 <= i < |faces| => CreateCard(suit, faces[i]))
  }

  /// `suits.flatMap(s => createFaceValues().flatMap(f => createCard(s, f)))`
  function FlatMapSuits(suits: seq<Suit>): seq<Card>
  {
    if suits == [] then [] else SuitCards(suits[0], CreateFaceValues()) + FlatMapSuits(suits[1..])
  }

  /// The deck before it is shuffled, by position: suit `i / 13`, face
  /// `i % 13`.
  function OrderedDeck(): (deck: seq<Card>)
    ensures |deck| == DECK_SIZE
  {
    seq(DECK_SIZE, i requires 0 <= i < DECK_SIZE => CreateCard(CreateSuits()[i / 13], CreateFaceValues()[i % 13]))
  }

  lemma {:induction false} FlatMapSuitsAt(suits: seq<Suit>, i: nat)
    requires i < 13 * |suits|
    ensures |FlatMapSuits(suits)| == 13 * |suits|
    ensures FlatMapSuits(suits)[i] == CreateCard(suits[i / 13], CreateFaceValues()[i % 13])
  {
    if i < 13 {
      FlatMapSuitsLength(suits);
    } else {
      FlatMapSuitsAt(suits[1..], i - 13);
      assert (i - 13) / 13 + 1 == i / 13 && (i - 13) % 13 == i % 13;
    }
  }

  lemma {:induction false} FlatMapSuitsLength(suits: seq<Suit>)
    ensures |FlatMapSuits(suits)| == 13 * |suits|
  {
    if suits != [] {
      FlatMapSuitsLength(suits[1..]);
    }
  }

  /// The nested `flatMap` of `createDeck` lists the cards suit by suit.
  lemma OrderedDeckIsFlatMap()
    ensures FlatMapSuits(CreateSuits()) == OrderedDeck()
  {
    FlatMapSuitsLength(CreateSuits());
    forall i | 0 <= i < DECK_SIZE ensures FlatMapSuits(CreateSuits())[i] == OrderedDeck()[i] {
      FlatMapSuitsAt(CreateSuits(), i);
    }
  }

  /// Position `i` of the ordered deck holds the card numbered
  /// `4 * (i % 13) + i / 13`.
  lemma OrderedDeckAt(i: nat)
    requires i < DECK_SIZE
    ensures |OrderedDeck()| == DECK_SIZE
    ensures OrderedDeck()[i] == 4 * (i % 13) + i / 13
  {
    assert CreateSuits()[i / 13].Value() == i / 13;
    assert CreateFaceValues()[i % 13].Value() == i % 13;
  }

  // ---------------------------------------------------------------------
  // Decks as collections
  // ---------------------------------------------------------------------

  predicate Distinct(s: seq<Card>)
  {
    forall i, j :: 0 <= i < j < |s| ==> s[i] != s[j]
  }

  /// The 52 card values 0..51, in increasing order.
  function AllCardValues(): (all: seq<Card>)
    ensures |all| == DECK_SIZE
    ensures forall i :: 0 <= i < |all| ==> all[i] == i
  {
    seq(DECK_SIZE, i requires 0 <= i < DECK_SIZE => i)
  }

  /// Holds every card value 0..51 exactly once.
  ghost predicate IsFullDeck(s: seq<Card>)
  {
    multiset(s) == multiset(AllCardValues())
  }

  lemma AllCardValuesCount(x: Card)
    ensures multiset(AllCardValues())[x] == if x < DECK_SIZE then 1 else 0
  {
    var all := AllCardValues();
    assert Distinct(all);
    DistinctCount(all, x);
    if x < DECK_SIZE {
      assert all[x] == x;
    }
  }

  lemma {:induction false} DistinctCount(s: seq<Card>, x: Card)
    requires Distinct(s)
    ensures multiset(s)[x] == if x in s then 1 else 0
  {
    if s != [] {
      assert s == [s[0]] + s[1..];
      assert Distinct(s[1..]);
      DistinctCount(s[1..], x);
      assert s[0] !in s[1..];
    }
  }

  lemma RepeatCounts(s: seq<Card>, i: nat, j: nat)
    requires i < j < |s| && s[i] == s[j]
    ensures multiset(s)[s[i]] >= 2
  {
    assert s == s[..j] + s[j..];
    assert s[i] in s[..j];
    assert s[j] in s[j..];
  }

  /// A full deck has no repeated card and holds exactly the values below 52.
  lemma FullDeckFacts(s: seq<Card>)
    requires IsFullDeck(s)
    ensures Distinct(s)
    ensures forall c :: c in s <==> 0 <= c < DECK_SIZE
  {
    forall i, j | 0 <= i < j < |s| ensures s[i] != s[j] {
      if s[i] == s[j] {
        RepeatCounts(s, i, j);
        AllCardValuesCount(s[i]);
      }
    }
    forall c: Card ensures c in s <==> 0 <= c < DECK_SIZE {
      AllCardValuesCount(c);
      assert c in s <==> c in multiset(s);
    }
  }

  /// A repetition-free sequence of exactly the values below 52 is a full deck.
  lemma FullDeckFromDistinct(s: seq<Card>)
    requires Distinct(s)
    requires forall c :: c in s <==> 0 <= c < DECK_SIZE
    ensures IsFullDeck(s)
  {
    forall x ensures multiset(s)[x] == multiset(AllCardValues())[x] {
      DistinctCount(s, x);
      AllCardValuesCount(x);
    }
  }

  lemma OrderedDeckDistinct()
    ensures |OrderedDeck()| == DECK_SIZE
    ensures Distinct(OrderedDeck())
  {
    var d := OrderedDeck();
    forall i, j | 0 <= i < j < |d| ensures d[i] != d[j] {
      OrderedDeckInjective(i, j);
    }
  }

  /// Two positions of the ordered deck hold different cards.
  lemma OrderedDeckInjective(i: nat, j: nat)
    requires i < j < DECK_SIZE
    ensures OrderedDeck()[i] != OrderedDeck()[j]
  {
    OrderedDeckAt(i);
    OrderedDeckAt(j);
    PositionCodeInjective(i, j);
  }

  lemma PositionCodeInjective(i: nat, j: nat)
    requires i < j < DECK_SIZE
    ensures 4 * (i % 13) + i / 13 != 4 * (j % 13) + j / 13
  {
    DecodePosition(i);
    DecodePosition(j);
    assert i == 13 * (i / 13) + i % 13 && j == 13 * (j / 13) + j % 13;
  }

  /// Position `i` is recovered from the card `4 * (i % 13) + i / 13` it holds.
  lemma DecodePosition(i: nat)
    requires i < DECK_SIZE
    ensures (4 * (i % 13) + i / 13) % 4 == i / 13
    ensures (4 * (i % 13) + i / 13) / 4 == i % 13
  {
    ModUnique(4 * (i % 13) + i / 13, 4, i % 13, i / 13);
  }

  lemma OrderedDeckIsFull()
    ensures |OrderedDeck()| == DECK_SIZE
    ensures Distinct(OrderedDeck())
    ensures IsFullDeck(OrderedDeck())
  {
    var d := OrderedDeck();
    OrderedDeckDistinct();
    forall c: Card ensures c in d <==> 0 <= c < DECK_SIZE {
      if c < DECK_SIZE {
        var i := 13 * (c % 4) + c / 4;
        OrderedDeckAt(i);
        ModUnique(i, 13, c % 4, c / 4);
        assert d[i] == c;
      }
      if c in d {
        var i :| 0 <= i < |d| && d[i] == c;
        OrderedDeckAt(i);
      }
    }
    FullDeckFromDistinct(d);
  }

  // ---------------------------------------------------------------------
  // Shuffling (src/utils/card.ts:55-70)
  // ---------------------------------------------------------------------

  /// A value of `Math.random()`.
  type Draw = r: real | 0.0 <= r < 1.0 witness 0.0

  /// `draw * n` over the exact reals, written as a sum of `n` copies of
  /// `draw` so that it stays linear arithmetic.
  function Scale(draw: Draw, n: nat): (x: real)
    ensures n == 0 ==> x == 0.0
    ensures n > 0 ==> 0.0 <= x < n as real
  {
    if n == 0 then 0.0 else draw + Scale(draw, n - 1)
  }

  /// The repeated sum is the product `draw * n`.
  lemma {:induction false} ScaleIsProduct(draw: Draw, n: nat)
    ensures Scale(draw, n) == draw * (n as real)
  {
    if n > 0 {
      ScaleIsProduct(draw, n - 1);
    }
  }

  /// `Math.floor(draw * bound)`: an index below `bound`.
  function RandomIndex(draw: Draw, bound: nat): (r: nat)
    requires bound > 0
    ensures r < bound
  {
    Scale(draw, bound).Floor
  }

  function Swap(s: seq<Card>, i: nat, j: nat): (r: seq<Card>)
    requires i < |s| && j < |s|
    ensures |r| == |s| && r[i] == s[j] && r[j] == s[i]
    ensures forall k :: 0 <= k < |s| && k != i && k != j ==> r[k] == s[k]
  {
    s[i := s[j]][j := s[i]]
  }

  lemma SwapPermutes(s: seq<Card>, i: nat, j: nat)
    requires i < |s| && j < |s|
    ensures multiset(Swap(s, i, j)) == multiset(s)
  {
  }

  /// The last `current` steps of the shuffle loop: while `current != 0`, pick
  /// an index below `current` from the next draw, decrement `current`, and
  /// swap the cells `current` and the picked index.
  function ShuffleSteps(s: seq<Card>, current: nat, draws: seq<Draw>): (r: seq<Card>)
    requires current <= |s| && |draws| == current
    ensures |r| == |s|
    decreases current
  {
    if current == 0 then s
    else
      var randomIndex := RandomIndex(draws[0], current);
      ShuffleSteps(Swap(s, current - 1, randomIndex), current - 1, draws[1..])
  }

  /// The shuffle only permutes the cards.
  lemma {:induction false} ShuffleStepsPermutes(s: seq<Card>, current: nat, draws: seq<Draw>)
    requires current <= |s| && |draws| == current
    ensures multiset(ShuffleSteps(s, current, draws)) == multiset(s)
    decreases current
  {
    if current > 0 {
      var swapped := Swap(s, current - 1, RandomIndex(draws[0], current));
      SwapPermutes(s, current - 1, RandomIndex(draws[0], current));
      ShuffleStepsPermutes(swapped, current - 1, draws[1..]);
    }
  }

  /// The deck `createDeck` returns for the given draws.
  function ShuffledDeck(draws: seq<Draw>): (deck: seq<Card>)
    requires |draws| == DECK_SIZE
    ensures |deck| == DECK_SIZE
  {
    ShuffleSteps(OrderedDeck(), DECK_SIZE, draws)
  }

  /// Whatever the draws, a created deck is a permutation of the 52 cards.
  lemma ShuffledDeckIsFull(draws: seq<Draw>)
    requires |draws| == DECK_SIZE
    ensures |ShuffledDeck(draws)| == DECK_SIZE
    ensures IsFullDeck(ShuffledDeck(draws))
    ensures Distinct(ShuffledDeck(draws))
  {
    OrderedDeckIsFull();
    OrderedDeckAt(0);
    ShuffleStepsPermutes(OrderedDeck(), DECK_SIZE, draws);
    FullDeckFacts(ShuffledDeck(draws));
  }

  /// One iteration of the shuffle loop, as its specification takes it: after
  /// swapping, the remaining steps with the remaining draws finish the job.
  lemma ShuffleStepsAdvance(before: seq<Card>, after: seq<Card>, current: nat, draws: seq<Draw>)
    requires 0 < current <= |before| && |draws| == current
    requires after == Swap(before, current - 1, RandomIndex(draws[0], current))
    ensures ShuffleSteps(after, current - 1, draws[1..]) == ShuffleSteps(before, current, draws)
  {
  }

  /// `[deck[i], deck[j]] = [deck[j], deck[i]]`
  method SwapCells(deck: array<Card>, i: nat, j: nat)
    requires i < deck.Length && j < deck.Length
    modifies deck
    ensures deck[..] == Swap(old(deck[..]), i, j)
  {
    deck[i], deck[j] := deck[j], deck[i];
    assert deck[..] == Swap(old(deck[..]), i, j);
  }

  /// The Durstenfeld shuffle, in place; one draw per iteration.
  method Shuffle(deck: array<Card>, draws: seq<Draw>)
    requires |draws| == deck.Length
    modifies deck
    ensures deck[..] == ShuffleSteps(old(deck[..]), deck.Length, draws)
  {
    ghost var original := deck[..];
    var currentIndex := deck.Length;
    while currentIndex != 0
      invariant 0 <= currentIndex <= deck.Length
      invariant ShuffleSteps(deck[..], currentIndex, draws[deck.Length - currentIndex..]) == ShuffleSteps(original, deck.Length, draws)
    {
      ghost var before := deck[..];
      ghost var remaining := draws[deck.Length - currentIndex..];
      var randomIndex := RandomIndex(draws[deck.Length - currentIndex], currentIndex);
      assert remaining[0] == draws[deck.Length - currentIndex];
      assert remaining[1..] == draws[deck.Length - (currentIndex - 1)..];
      currentIndex := currentIndex - 1;
      SwapCells(deck, currentIndex, randomIndex);
      ShuffleStepsAdvance(before, deck[..], currentIndex + 1, remaining);
    }
  }

  /// Builds the 4 x 13 cards suit by suit, then shuffles them in place.
  method CreateDeck(draws: seq<Draw>) returns (deck: array<Card>)
    requires |draws| == DECK_SIZE
    ensures fresh(deck)
    ensures deck[..] == ShuffledDeck(draws)
  {
    var ordered := FlatMapSuits(CreateSuits());
    OrderedDeckIsFlatMap();
    deck := new Card[|ordered|](i requires 0 <= i < |ordered| => ordered[i]);
    assert deck[..] == ordered;
    Shuffle(deck, draws);
  }

  // ---------------------------------------------------------------------
  // Dealing (src/utils/card.ts:51-53)
  // ---------------------------------------------------------------------

  /// `deck.splice(0, n)`: the first `min(n, |deck|)` cards, and what is left.
  function DealCards(deck: seq<Card>, numberOfCards: nat): (r: (seq<Card>, seq<Card>))
    ensures |r.0| == if numberOfCards <= |deck| then numberOfCards else |deck|
    ensures r.0 + r.1 == deck
  {
    var k := if numberOfCards <= |deck| then numberOfCards else |deck|;
    (deck[..k], deck[k..])
  }

  /// Dealing `n` cards from a fresh deck yields `n` distinct cards.
  lemma DealFromFreshDeck(draws: seq<Draw>, n: nat)
    requires |draws| == DECK_SIZE && n <= DECK_SIZE
    ensures |DealCards(ShuffledDeck(draws), n).0| == n
    ensures Distinct(DealCards(ShuffledDeck(draws), n).0)
  {
    var deck := ShuffledDeck(draws);
    ShuffledDeckIsFull(draws);
    assert DealCards(deck, n).0 == deck[..n];
    DistinctPrefix(deck, n);
  }

  lemma DistinctPrefix(s: seq<Card>, n: nat)
    requires Distinct(s) && n <= |s|
    ensures Distinct(s[..n])
  {
    forall i, j | 0 <= i < j < n ensures s[..n][i] != s[..n][j] {
      assert s[..n][i] == s[i] && s[..n][j] == s[j];
    }
  }
}
