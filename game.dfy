/** The state of one memory game and its transitions: reset and deal
    (script.js:18-47), a click on a card (script.js:72-101), the two
    delayed outcomes of comparing a pair (script.js:104-143), the timer tick
    (script.js:146-151) and the end of the game (script.js:165-175). */
module Game {
  import opened Deck
  import Clock

  /** Number of matched cards in a row of cards. */
  function MatchedCount(cards: seq<Card>): (n: nat)
    ensures n <= |cards|
  {
    if cards == [] then 0 else Indicator(cards[0].matched) + MatchedCount(cards[1..])
  }

  /** Replacing one card changes the count by that card's contribution only. */
  lemma {:induction false} MatchedCountUpdate(cards: seq<Card>, i: nat, c: Card)
    requires i < |cards|
    ensures MatchedCount(cards[i := c])
         == MatchedCount(cards) - Indicator(cards[i].matched) + Indicator(c.matched)
  {
    if i == 0 {
      assert cards[i := c][1..] == cards[1..];
    } else {
      assert cards[i := c][1..] == cards[1..][i - 1 := c];
      MatchedCountUpdate(cards[1..], i - 1, c);
    }
  }

  /** Every card is matched exactly when the count reaches the length. */
  lemma {:induction false} AllMatchedIff(cards: seq<Card>)
    ensures MatchedCount(cards) == |cards| <==> forall i :: 0 <= i < |cards| ==> cards[i].matched
  {
    if cards != [] {
      AllMatchedIff(cards[1..]);
      assert forall i :: 1 <= i < |cards| ==> cards[i] == cards[1..][i - 1];
    }
  }

  /** No card is matched exactly when the count is zero. */
  lemma {:induction false} NoneMatchedIff(cards: seq<Card>)
    ensures MatchedCount(cards) == 0 <==> forall i :: 0 <= i < |cards| ==> !cards[i].matched
  {
    if cards != [] {
      NoneMatchedIff(cards[1..]);
      assert forall i :: 1 <= i < |cards| ==> cards[i] == cards[1..][i - 1];
    }
  }

  /** Number of cards still in play (not matched) that show symbol `x`. */
  function InPlayCount(cards: seq<Card>, x: Symbol): (n: nat)
    ensures n <= |cards|
  {
    if cards == [] then 0
    else Indicator(!cards[0].matched && cards[0].symbol == x) + InPlayCount(cards[1..], x)
  }

  /** Every symbol is in play an even number of times: each card in play
      has a partner. */
  ghost predicate EvenInPlay(cards: seq<Card>)
  {
    forall x :: InPlayCount(cards, x) % 2 == 0
  }

  /** Replacing one card changes each count by that card's contribution only. */
  lemma {:induction false} InPlayCountUpdate(cards: seq<Card>, i: nat, c: Card, x: Symbol)
    requires i < |cards|
    ensures InPlayCount(cards[i := c], x)
         == InPlayCount(cards, x) - Indicator(!cards[i].matched && cards[i].symbol == x)
            + Indicator(!c.matched && c.symbol == x)
  {
    if i == 0 {
      assert cards[i := c][1..] == cards[1..];
    } else {
      assert cards[i := c][1..] == cards[1..][i - 1 := c];
      InPlayCountUpdate(cards[1..], i - 1, c, x);
    }
  }

  /** A symbol in play is on some unmatched card. */
  lemma {:induction false} InPlayWitness(cards: seq<Card>, x: Symbol) returns (j: nat)
    requires InPlayCount(cards, x) > 0
    ensures j < |cards| && !cards[j].matched && cards[j].symbol == x
  {
    if !cards[0].matched && cards[0].symbol == x {
      j := 0;
    } else {
      var k := InPlayWitness(cards[1..], x);
      j := k + 1;
    }
  }

  /** Every unmatched card has an unmatched partner with the same symbol. */
  lemma PartnerExists(cards: seq<Card>, i: nat)
    requires EvenInPlay(cards) && i < |cards| && !cards[i].matched
    ensures exists j :: 0 <= j < |cards| && j != i && !cards[j].matched && cards[j].symbol == cards[i].symbol
  {
    var x := cards[i].symbol;
    var taken := cards[i := cards[i].(matched := true)];
    InPlayCountUpdate(cards, i, taken[i], x);
    assert InPlayCount(cards, x) % 2 == 0;
    var j := InPlayWitness(taken, x);
    assert j != i && cards[j] == taken[j];
  }

  /** With no card matched, every card is in play. */
  lemma {:induction false} NothingMatchedInPlay(cards: seq<Card>, x: Symbol)
    requires forall i :: 0 <= i < |cards| ==> !cards[i].matched
    ensures InPlayCount(cards, x) == multiset(SymbolsOf(cards))[x]
  {
    if cards != [] {
      NothingMatchedInPlay(cards[1..], x);
      assert SymbolsOf(cards) == [cards[0].symbol] + SymbolsOf(cards[1..]);
    }
  }

  /** In a fresh deck every symbol is in play an even number of times. */
  lemma FreshDeckEvenInPlay(draws: seq<nat>)
    requires ValidDraws(draws, DeckSize)
    ensures EvenInPlay(BuildDeck(draws))
  {
    var deck := BuildDeck(draws);
    BuildDeckEven(draws);
    forall x ensures InPlayCount(deck, x) % 2 == 0 {
      NothingMatchedInPlay(deck, x);
      assert multiset(SymbolsOf(deck))[x] % 2 == 0;
    }
  }

  /** Matching two unmatched cards with the same symbol keeps every symbol's
      count in play even. */
  lemma MatchKeepsEven(cards: seq<Card>, a: nat, b: nat, ca: Card, cb: Card)
    requires a < |cards| && b < |cards| && a != b && EvenInPlay(cards)
    requires !cards[a].matched && !cards[b].matched && cards[a].symbol == cards[b].symbol
    requires ca.symbol == cards[a].symbol && ca.matched
    requires cb.symbol == cards[b].symbol && cb.matched
    ensures EvenInPlay(cards[a := ca][b := cb])
  {
    var updated := cards[a := ca][b := cb];
    forall x ensures InPlayCount(updated, x) % 2 == 0 {
      InPlayCountUpdate(cards, a, ca, x);
      InPlayCountUpdate(cards[a := ca], b, cb, x);
      assert InPlayCount(cards, x) % 2 == 0;
    }
  }

  /** The module-level game state: the dealt cards, the positions of the
      cards picked in the current turn (`flippedCards`; a card's position
      is its id), the counters, whether the one-second timer is running and
      whether the first card of the game has been picked. */
  class MemoryGame {
    var cards: seq<Card>
    var flippedCards: seq<nat>
    var matchedPairs: nat
    var moves: nat
    var timer: nat
    var timerRunning: bool
    var gameStarted: bool

    /** The invariant every transition keeps. A card is face up and
        unmatched exactly when it is one of the (at most two) picked cards;
        matched cards stay face up and there are twice as many of them as
        found pairs; every found pair cost a move; before the first pick
        nothing has happened. */
    ghost predicate Valid()
      reads this
    {
      && |cards| == DeckSize
      && (forall i :: 0 <= i < |cards| ==> cards[i].id == i)
      && |flippedCards| <= 2
      && (forall k :: 0 <= k < |flippedCards| ==> flippedCards[k] < |cards|)
      && (|flippedCards| == 2 ==> flippedCards[0] != flippedCards[1])
      && (forall i :: 0 <= i < |cards| ==>
            (cards[i].flipped && !cards[i].matched <==> i in flippedCards))
      && (forall i :: 0 <= i < |cards| && cards[i].matched ==> cards[i].flipped)
      && MatchedCount(cards) == 2 * matchedPairs
      && matchedPairs + (if |flippedCards| == 2 then 1 else 0) <= moves
      && (timerRunning ==> gameStarted)
      && (gameStarted && matchedPairs < PairCount ==> timerRunning)
      && (!gameStarted ==>
            moves == 0 && timer == 0 && forall i :: 0 <= i < |cards| ==> !cards[i].flipped)
    }

    /** The guard of a click: the card is face up, or already matched, or two
        cards are already picked. Since matched cards stay face up, in a
        valid state a click is taken exactly when its card is face down and
        fewer than two cards are picked. */
    function IgnoresClick(cardId: nat): (ignored: bool)
      reads this
      requires cardId < |cards|
      ensures Valid() ==> (ignored <==> cards[cardId].flipped || |flippedCards| == 2)
    {
      cards[cardId].flipped || cards[cardId].matched || |flippedCards| == 2
    }

    /** The state the script starts with, followed by the deal it makes on
        load. `draws` stands for the random choices of the shuffle. */
    constructor (draws: seq<nat>)
      requires ValidDraws(draws, DeckSize)
      ensures Valid()
      ensures matchedPairs == 0 && moves == 0 && timer == 0
      ensures !gameStarted && !timerRunning && flippedCards == []
      ensures cards == BuildDeck(draws)
    {
      cards, flippedCards := [], [];
      matchedPairs, moves, timer := 0, 0, 0;
      timerRunning, gameStarted := false, false;
      new;
      InitGame(draws);
    }

    /** Reset: counters to zero, no card picked, timer stopped and not yet
        started, and a freshly shuffled deck. */
    method InitGame(draws: seq<nat>)
      requires ValidDraws(draws, DeckSize)
      modifies this
      ensures Valid()
      ensures matchedPairs == 0 && moves == 0 && timer == 0
      ensures !gameStarted && !timerRunning && flippedCards == []
      ensures cards == BuildDeck(draws)
    {
      matchedPairs := 0;
      moves := 0;
      timer := 0;
      gameStarted := false;
      flippedCards := [];
      timerRunning := false;
      cards := BuildDeck(draws);
      NoneMatchedIff(cards);
    }

    /** A click on the card with the given id. An ignored click changes
        nothing. Otherwise the first pick of a game starts the timer, the
        card turns face up and joins the picked cards, and completing a pair
        counts a move (the comparison itself is CheckMatch). */
    method HandleCardClick(cardId: nat)
      requires Valid() && cardId < DeckSize
      modifies this
      ensures Valid()
      ensures SymbolsOf(cards) == old(SymbolsOf(cards))
      ensures old(IgnoresClick(cardId)) ==> unchanged(this)
      ensures !old(IgnoresClick(cardId)) ==>
        && cards == old(cards)[cardId := old(cards)[cardId].(flipped := true)]
        && flippedCards == old(flippedCards) + [cardId]
        && gameStarted
        && timerRunning == (old(timerRunning) || !old(gameStarted))
        && moves == old(moves) + (if |flippedCards| == 2 then 1 else 0)
        && matchedPairs == old(matchedPairs) && timer == old(timer)
    {
      // Under Valid() the card with id `cardId` is cards[cardId].
      if IgnoresClick(cardId) {
        return;
      }
      if !gameStarted {
        timerRunning := true;
        gameStarted := true;
      }
      var picked := cards[cardId].(flipped := true);
      MatchedCountUpdate(cards, cardId, picked);
      SymbolsOfUpdate(cards, cardId, picked);
      cards := cards[cardId := picked];
      flippedCards := flippedCards + [cardId];
      if |flippedCards| == 2 {
        moves := moves + 1;
      }
    }

    /** The delayed outcome of a pair with equal symbols: both cards become
        matched (and stay face up), one more pair is counted and the pick is
        cleared. The result says whether that was the last pair; then every
        card is matched and every further click is ignored. */
    method ResolveMatch() returns (won: bool)
      requires Valid() && |flippedCards| == 2
      requires cards[flippedCards[0]].symbol == cards[flippedCards[1]].symbol
      modifies this
      ensures Valid()
      ensures SymbolsOf(cards) == old(SymbolsOf(cards))
      ensures var a, b := old(flippedCards[0]), old(flippedCards[1]);
        cards == old(cards)[a := old(cards[a]).(matched := true)][b := old(cards[b]).(matched := true)]
      ensures matchedPairs == old(matchedPairs) + 1 && flippedCards == []
      ensures won <==> matchedPairs == PairCount
      ensures won <==> forall i :: 0 <= i < |cards| ==> cards[i].matched
      ensures won ==> forall id :: 0 <= id < |cards| ==> IgnoresClick(id)
      ensures moves == old(moves) && timer == old(timer)
      ensures timerRunning == old(timerRunning) && gameStarted == old(gameStarted)
    {
      var a, b := flippedCards[0], flippedCards[1];
      var first := cards[a].(matched := true);
      MatchedCountUpdate(cards, a, first);
      SymbolsOfUpdate(cards, a, first);
      cards := cards[a := first];
      var second := cards[b].(matched := true);
      MatchedCountUpdate(cards, b, second);
      SymbolsOfUpdate(cards, b, second);
      cards := cards[b := second];
      matchedPairs := matchedPairs + 1;
      flippedCards := [];
      AllMatchedIff(cards);
      won := matchedPairs == PairCount;
    }

    /** The delayed outcome of a pair with different symbols: both cards turn
        face down again and the pick is cleared; nothing else changes. */
    method ResolveMismatch()
      requires Valid() && |flippedCards| == 2
      requires cards[flippedCards[0]].symbol != cards[flippedCards[1]].symbol
      modifies this
      ensures Valid()
      ensures SymbolsOf(cards) == old(SymbolsOf(cards))
      ensures var a, b := old(flippedCards[0]), old(flippedCards[1]);
        cards == old(cards)[a := old(cards[a]).(flipped := false)][b := old(cards[b]).(flipped := false)]
      ensures flippedCards == [] && matchedPairs == old(matchedPairs)
      ensures forall i :: 0 <= i < |cards| ==> cards[i].matched == old(cards[i].matched)
      ensures moves == old(moves) && timer == old(timer)
      ensures timerRunning == old(timerRunning) && gameStarted == old(gameStarted)
    {
      var a, b := flippedCards[0], flippedCards[1];
      var first := cards[a].(flipped := false);
      MatchedCountUpdate(cards, a, first);
      SymbolsOfUpdate(cards, a, first);
      cards := cards[a := first];
      var second := cards[b].(flipped := false);
      MatchedCountUpdate(cards, b, second);
      SymbolsOfUpdate(cards, b, second);
      cards := cards[b := second];
      flippedCards := [];
    }

    /** The comparison of a completed pair and the outcome it leads to. */
    method CheckMatch() returns (won: bool)
      requires Valid() && |flippedCards| == 2
      modifies this
      ensures Valid() && flippedCards == []
      ensures SymbolsOf(cards) == old(SymbolsOf(cards))
      ensures var a, b := old(flippedCards[0]), old(flippedCards[1]);
        if old(cards[a].symbol == cards[b].symbol) then
          && cards == old(cards)[a := old(cards[a]).(matched := true)][b := old(cards[b]).(matched := true)]
          && matchedPairs == old(matchedPairs) + 1
          && (won <==> matchedPairs == PairCount)
        else
          && cards == old(cards)[a := old(cards[a]).(flipped := false)][b := old(cards[b]).(flipped := false)]
          && matchedPairs == old(matchedPairs)
          && !won
      ensures moves == old(moves) && timer == old(timer)
      ensures timerRunning == old(timerRunning) && gameStarted == old(gameStarted)
    {
      if cards[flippedCards[0]].symbol == cards[flippedCards[1]].symbol {
        won := ResolveMatch();
      } else {
        ResolveMismatch();
        won := false;
      }
    }

    /** One second of the running timer. */
    method Tick()
      requires Valid() && timerRunning
      modifies this`timer
      ensures Valid() && timer == old(timer) + 1
    {
      timer := timer + 1;
    }

    /** The end of the game: the timer stops, and the final move count and
        the "mm:ss" text of the elapsed time are reported. The game calls
        it only once all pairs are found. */
    method ShowWinModal() returns (finalMoves: nat, finalTime: string)
      requires Valid() && matchedPairs == PairCount
      modifies this`timerRunning
      ensures Valid() && !timerRunning
      ensures finalMoves == moves && finalTime == Clock.FormatTime(timer)
    {
      StopTimer();
      finalMoves := moves;
      finalTime := Clock.FormatTime(timer);
    }

    /** `clearInterval`: the timer stops once every pair is found. */
    method StopTimer()
      requires Valid() && matchedPairs == PairCount
      modifies this`timerRunning
      ensures Valid() && !timerRunning
    {
      timerRunning := false;
    }
  }

  /** Cards `a` and `b` are two different unmatched cards with the same
      symbol. */
  predicate OpenPair(cards: seq<Card>, a: nat, b: nat)
  {
    a < |cards| && b < |cards| && a != b
    && !cards[a].matched && !cards[b].matched && cards[a].symbol == cards[b].symbol
  }

  /** While some card is unmatched and every symbol is in play an even
      number of times, an unmatched pair of equal symbols is left. */
  lemma PairAvailable(cards: seq<Card>)
    requires EvenInPlay(cards) && MatchedCount(cards) < |cards|
    ensures exists a, b :: OpenPair(cards, a, b)
  {
    AllMatchedIff(cards);
    var a :| 0 <= a < |cards| && !cards[a].matched;
    PartnerExists(cards, a);
    var b :| 0 <= b < |cards| && b != a && !cards[b].matched && cards[b].symbol == cards[a].symbol;
    assert OpenPair(cards, a, b);
  }

  /** One turn of a player who knows where a pair is: two clicks on the
      unmatched cards `a` and `b` with equal symbols, then the match. */
  method PlayPair(g: MemoryGame, a: nat, b: nat)
    requires g.Valid() && g.flippedCards == []
    requires a < |g.cards| && b < |g.cards| && a != b
    requires !g.cards[a].matched && !g.cards[b].matched && g.cards[a].symbol == g.cards[b].symbol
    modifies g
    ensures g.Valid() && g.flippedCards == []
    ensures g.cards == old(g.cards)[a := old(g.cards[a]).(flipped := true, matched := true)]
                                   [b := old(g.cards[b]).(flipped := true, matched := true)]
    ensures g.matchedPairs == old(g.matchedPairs) + 1 && g.moves == old(g.moves) + 1
    ensures g.gameStarted && g.timer == old(g.timer)
  {
    g.HandleCardClick(a);
    g.HandleCardClick(b);
    var won := g.ResolveMatch();
  }

  /** A game dealt from the symbol list can always be won: picking, turn
      after turn, an unmatched card and its partner finds every remaining
      pair with one move each, after which every card is matched and the
      timer is stopped. */
  method PlayPerfectly(g: MemoryGame) returns (finalMoves: nat, finalTime: string)
    requires g.Valid() && g.flippedCards == [] && EvenInPlay(g.cards)
    modifies g
    ensures g.Valid() && g.matchedPairs == PairCount && !g.timerRunning
    ensures forall i :: 0 <= i < |g.cards| ==> g.cards[i].matched
    ensures g.moves == old(g.moves) + (PairCount - old(g.matchedPairs)) && g.timer == old(g.timer)
    ensures finalMoves == g.moves && finalTime == Clock.FormatTime(g.timer)
  {
    while g.matchedPairs < PairCount
      invariant g.Valid() && g.flippedCards == [] && EvenInPlay(g.cards)
      invariant g.matchedPairs <= PairCount
      invariant g.moves - g.matchedPairs == old(g.moves) - old(g.matchedPairs)
      invariant g.timer == old(g.timer)
      decreases PairCount - g.matchedPairs
    {
      PairAvailable(g.cards);
      var a: nat, b: nat :| OpenPair(g.cards, a, b);
      MatchKeepsEven(g.cards, a, b, g.cards[a].(flipped := true, matched := true),
                     g.cards[b].(flipped := true, matched := true));
      PlayPair(g, a, b);
    }
    AllMatchedIff(g.cards);
    finalMoves, finalTime := g.ShowWinModal();
  }

  /** A fresh game, whatever the shuffle, is won by perfect play in exactly
      18 moves; without timer ticks the final time reads "00:00". */
  method WinFreshGame(draws: seq<nat>) returns (finalMoves: nat, finalTime: string)
    requires ValidDraws(draws, DeckSize)
    ensures finalMoves == PairCount && finalTime == "00:00"
  {
    var g := new MemoryGame(draws);
    FreshDeckEvenInPlay(draws);
    finalMoves, finalTime := PlayPerfectly(g);
    Clock.FormatZero();
  }

  /** Two clicks on cards with different symbols, then the flip-back: both
      cards are face down again, one move is counted and no pair is found. */
  method MismatchScenario(draws: seq<nat>, a: nat, b: nat) returns (g: MemoryGame)
    requires ValidDraws(draws, DeckSize) && a < DeckSize && b < DeckSize
    requires BuildDeck(draws)[a].symbol != BuildDeck(draws)[b].symbol
    ensures g.Valid() && g.cards == BuildDeck(draws)
    ensures g.moves == 1 && g.matchedPairs == 0 && g.flippedCards == []
    ensures g.gameStarted && g.timerRunning
  {
    g := new MemoryGame(draws);
    g.HandleCardClick(a);
    g.HandleCardClick(b);
    g.ResolveMismatch();
  }

  /** Two clicks on cards with equal symbols, then the match: both cards are
      matched, one move is counted and one pair is found. */
  method MatchScenario(draws: seq<nat>, a: nat, b: nat) returns (g: MemoryGame)
    requires ValidDraws(draws, DeckSize) && a < DeckSize && b < DeckSize && a != b
    requires BuildDeck(draws)[a].symbol == BuildDeck(draws)[b].symbol
    ensures g.Valid() && g.cards[a].matched && g.cards[b].matched
    ensures g.moves == 1 && g.matchedPairs == 1 && g.flippedCards == []
  {
    g := new MemoryGame(draws);
    g.HandleCardClick(a);
    g.HandleCardClick(b);
    var won := g.ResolveMatch();
  }
}
