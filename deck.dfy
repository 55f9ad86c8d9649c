/** The deck of the 6x6 memory game: the symbol list, the cards, the shuffle
    and the construction of a fresh deck (script.js:10-15, 36-43). */
module Deck {

  /** The sea-creature symbols printed on the card faces. The list below
      names one of them, Shark, twice, so only 17 distinct symbols exist. */
  datatype Symbol =
    | TropicalFish | Octopus | Shark | Shell | Crab | Blowfish
    | Squid | Turtle | Seal | Whale | Lobster | Shrimp
    | Dolphin | Jellyfish | Fish | Otter | Coral

  /** The symbol list as the game declares it, written as three rows of six:
      18 entries, Shark at positions 2 and 14. */
  const Symbols: seq<Symbol> := FirstRow + SecondRow + ThirdRow

  const FirstRow: seq<Symbol> := [TropicalFish, Octopus, Shark, Shell, Crab, Blowfish]
  const SecondRow: seq<Symbol> := [Squid, Turtle, Seal, Whale, Lobster, Shrimp]
  const ThirdRow: seq<Symbol> := [Dolphin, Jellyfish, Shark, Fish, Otter, Coral]

  /** Number of pairs a player has to find to win. */
  const PairCount: nat := 18

  /** Number of cards on the 6x6 board. */
  const DeckSize: nat := 36

  /** One card. `id` is its position in the deck. */
  datatype Card = Card(id: nat, symbol: Symbol, flipped: bool, matched: bool)

  /** The unshuffled deck: the symbol list followed by itself. */
  function Pool(): (p: seq<Symbol>)
    ensures |p| == DeckSize
  {
    Symbols + Symbols
  }

  /** The random choices of one shuffle: `draws[i]` selects, among the
      `n - i` cards not yet placed, the one that goes to position `i`. */
  predicate ValidDraws(draws: seq<nat>, n: nat)
  {
    |draws| == n && forall i :: 0 <= i < n ==> draws[i] < n - i
  }

  /** The arrangement a shuffle with the given choices produces. */
  function Shuffle<T>(pool: seq<T>, draws: seq<nat>): (r: seq<T>)
    requires ValidDraws(draws, |pool|)
    ensures |r| == |pool|
    decreases |pool|
  {
    if pool == [] then []
    else
      var k := draws[0];
      [pool[k]] + Shuffle(pool[..k] + pool[k + 1..], draws[1..])
  }

  /** Shuffling only rearranges: every element keeps its multiplicity. */
  lemma {:induction false} ShufflePermutes<T>(pool: seq<T>, draws: seq<nat>)
    requires ValidDraws(draws, |pool|)
    ensures multiset(Shuffle(pool, draws)) == multiset(pool)
    decreases |pool|
  {
    if pool != [] {
      var k := draws[0];
      ShuffleCons(pool, k, draws[1..]);
      assert [k] + draws[1..] == draws;
      ShufflePermutes(pool[..k] + pool[k + 1..], draws[1..]);
      assert pool == pool[..k] + [pool[k]] + pool[k + 1..];
    }
  }

  /** The shuffle model loses no outcome: every rearrangement of the pool
      is produced by some choice of draws. */
  lemma ShuffleReachesEveryArrangement<T>(pool: seq<T>, target: seq<T>)
    requires multiset(target) == multiset(pool)
    ensures exists draws :: ValidDraws(draws, |pool|) && Shuffle(pool, draws) == target
  {
    var draws := DrawsFor(pool, target);
  }

  /** The draws that shuffle `pool` into `target`. */
  lemma {:induction false} DrawsFor<T>(pool: seq<T>, target: seq<T>) returns (draws: seq<nat>)
    requires multiset(target) == multiset(pool)
    ensures ValidDraws(draws, |pool|) && Shuffle(pool, draws) == target
    decreases |pool|
  {
    if pool == [] {
      assert |target| == |multiset(target)| == 0;
      draws := [];
    } else {
      assert target != [] by {
        assert |target| == |multiset(target)| == |multiset(pool)| == |pool|;
      }
      var k := IndexOf(pool, target[0]);
      var rest := pool[..k] + pool[k + 1..];
      RemoveMatching(pool, target, k);
      var tail := DrawsFor(rest, target[1..]);
      ShuffleCons(pool, k, tail);
      draws := [k] + tail;
      assert target == [target[0]] + target[1..];
    }
  }

  /** Drawing position `k` first, then `tail` on what is left. */
  lemma ShuffleCons<T>(pool: seq<T>, k: nat, tail: seq<nat>)
    requires k < |pool| && ValidDraws(tail, |pool| - 1)
    ensures ValidDraws([k] + tail, |pool|)
    ensures Shuffle(pool, [k] + tail) == [pool[k]] + Shuffle(pool[..k] + pool[k + 1..], tail)
  {
    var draws := [k] + tail;
    assert draws[0] == k && draws[1..] == tail;
    assert forall i :: 1 <= i < |pool| ==> draws[i] == tail[i - 1];
  }

  /** Taking the first element of `target` out of `target` and out of the
      pool leaves two rearrangements of each other. */
  lemma RemoveMatching<T>(pool: seq<T>, target: seq<T>, k: nat)
    requires multiset(target) == multiset(pool)
    requires target != [] && k < |pool| && pool[k] == target[0]
    ensures multiset(target[1..]) == multiset(pool[..k] + pool[k + 1..])
  {
    assert pool == pool[..k] + [pool[k]] + pool[k + 1..];
    assert target == [target[0]] + target[1..];
    assert multiset(pool[..k] + pool[k + 1..]) == multiset(pool) - multiset{pool[k]};
  }

  /** A position of `x` in `s`, given that `x` occurs in `s`. */
  lemma IndexOf<T>(s: seq<T>, x: T) returns (k: nat)
    requires x in multiset(s)
    ensures k < |s| && s[k] == x
  {
    k :| 0 <= k < |s| && s[k] == x;
  }

  /** The symbols of a row of cards, in order. */
  function SymbolsOf(cards: seq<Card>): (s: seq<Symbol>)
    ensures |s| == |cards|
    ensures forall i :: 0 <= i < |cards| ==> s[i] == cards[i].symbol
  {
    seq(|cards|, i requires 0 <= i < |cards| => cards[i].symbol)
  }

  /** Changing only the flags of a card leaves the row's symbols alone. */
  lemma SymbolsOfUpdate(cards: seq<Card>, i: nat, c: Card)
    requires i < |cards| && c.symbol == cards[i].symbol
    ensures SymbolsOf(cards[i := c]) == SymbolsOf(cards)
  {
  }

  /** Cards laid out in the given order of symbols, each given its position
      as id, face down and unmatched. */
  function Deal(order: seq<Symbol>): (deck: seq<Card>)
    ensures |deck| == |order| && SymbolsOf(deck) == order
    ensures forall i :: 0 <= i < |deck| ==> deck[i].id == i && !deck[i].flipped && !deck[i].matched
  {
    seq(|order|, i requires 0 <= i < |order| => Card(i, order[i], false, false))
  }

  /** A fresh deck: the pool shuffled and dealt. */
  function BuildDeck(draws: seq<nat>): (deck: seq<Card>)
    requires ValidDraws(draws, DeckSize)
    ensures |deck| == DeckSize
    ensures forall i :: 0 <= i < |deck| ==> deck[i].id == i && !deck[i].flipped && !deck[i].matched
  {
    Deal(Shuffle(Pool(), draws))
  }

  /** A fresh deck holds the symbols of the pool, each as often as there. */
  lemma BuildDeckSymbols(draws: seq<nat>)
    requires ValidDraws(draws, DeckSize)
    ensures multiset(SymbolsOf(BuildDeck(draws))) == multiset(Pool())
  {
    ShufflePermutes(Pool(), draws);
  }

  /** Every symbol occurs an even number of times. */
  ghost predicate EvenCounts(m: multiset<Symbol>)
  {
    forall s :: m[s] % 2 == 0
  }

  /** A sequence followed by itself holds every element an even number of
      times. */
  lemma DoubledIsEven(q: seq<Symbol>)
    ensures EvenCounts(multiset(q + q))
  {
    assert multiset(q + q) == multiset(q) + multiset(q);
  }

  /** A fresh deck can be split into pairs of equal symbols. */
  lemma BuildDeckEven(draws: seq<nat>)
    requires ValidDraws(draws, DeckSize)
    ensures EvenCounts(multiset(SymbolsOf(BuildDeck(draws))))
  {
    BuildDeckSymbols(draws);
    DoubledIsEven(Symbols);
  }

  /** A fresh deck holds four Sharks and two of every other symbol. */
  lemma BuildDeckCounts(draws: seq<nat>, s: Symbol)
    requires ValidDraws(draws, DeckSize)
    ensures multiset(SymbolsOf(BuildDeck(draws)))[s] == if s == Shark then 4 else 2
  {
    BuildDeckSymbols(draws);
    PoolCounts(s);
  }

  /** How often each symbol occurs in the unshuffled deck: four Sharks, two
      of every other symbol. */
  lemma PoolCounts(s: Symbol)
    ensures multiset(Pool())[s] == if s == Shark then 4 else 2
  {
    SymbolsCount(s);
    DoubledCount(Symbols, s, if s == Shark then 2 else 1);
  }

  /** A sequence followed by itself holds each element twice as often. */
  lemma DoubledCount<T>(q: seq<T>, x: T, n: nat)
    requires multiset(q)[x] == n
    ensures multiset(q + q)[x] == 2 * n
  {
    assert multiset(q + q) == multiset(q) + multiset(q);
  }

  /** How often each symbol occurs in the symbol list: Shark twice, every
      other symbol once. */
  lemma SymbolsCount(s: Symbol)
    ensures multiset(Symbols)[s] == if s == Shark then 2 else 1
  {
    FirstRowCount(s);
    SecondRowCount(s);
    ThirdRowCount(s);
    assert multiset(Symbols) == multiset(FirstRow) + multiset(SecondRow) + multiset(ThirdRow);
    RowsCover(s);
  }

  /** The three rows together name Shark twice and every other symbol once. */
  lemma RowsCover(s: Symbol)
    ensures Indicator(s == TropicalFish) + Indicator(s == Octopus) + Indicator(s == Shark)
          + Indicator(s == Shell) + Indicator(s == Crab) + Indicator(s == Blowfish)
          + Indicator(s == Squid) + Indicator(s == Turtle) + Indicator(s == Seal)
          + Indicator(s == Whale) + Indicator(s == Lobster) + Indicator(s == Shrimp)
          + Indicator(s == Dolphin) + Indicator(s == Jellyfish) + Indicator(s == Shark)
          + Indicator(s == Fish) + Indicator(s == Otter) + Indicator(s == Coral)
         == if s == Shark then 2 else 1
  {
  }

  /** 1 when `b` holds, 0 otherwise. */
  function Indicator(b: bool): nat
  {
    if b then 1 else 0
  }

  /** The occurrences of a symbol in each row of the symbol list. */
  lemma FirstRowCount(s: Symbol)
    ensures multiset(FirstRow)[s]
         == Indicator(s == TropicalFish) + Indicator(s == Octopus) + Indicator(s == Shark)
          + Indicator(s == Shell) + Indicator(s == Crab) + Indicator(s == Blowfish)
  {
  }

  lemma SecondRowCount(s: Symbol)
    ensures multiset(SecondRow)[s]
         == Indicator(s == Squid) + Indicator(s == Turtle) + Indicator(s == Seal)
          + Indicator(s == Whale) + Indicator(s == Lobster) + Indicator(s == Shrimp)
  {
  }

  lemma ThirdRowCount(s: Symbol)
    ensures multiset(ThirdRow)[s]
         == Indicator(s == Dolphin) + Indicator(s == Jellyfish) + Indicator(s == Shark)
          + Indicator(s == Fish) + Indicator(s == Otter) + Indicator(s == Coral)
  {
  }
}
