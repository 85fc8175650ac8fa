/**
 The game-state engine of the memory game, as a sequential state machine.

 The hook keeps its state in several React cells and refs; here they are one
 immutable record, `Game`, and every event is a pure transition on it:
 `Flip` (a click on a card), `Resolve` (the 800 ms timeout that settles a
 two-card turn), `Tick` (one firing of the one-second interval), `StartTimer`,
 `StopTimer` and `Restart`. Wall-clock delays become the explicit `Resolve` and
 `Tick` steps; the caller decides when they happen.
 */
module Engine {
  import opened Optional
  import opened Types
  import opened Deck

  /** The hook's state. `pending` is the ref of face-up ids awaiting a verdict,
      `timerRunning` says whether an interval handle is held, and `hasStarted`
      is the ref that remembers whether any card has been accepted yet. */
  datatype Game = Game(
    emojis: seq<string>,
    cards: seq<Card>,
    moves: nat,
    matches: nat,
    seconds: nat,
    isChecking: bool,
    pending: seq<int>,
    timerRunning: bool,
    hasStarted: bool)
  {
    /** The number of pairs is the length of the symbol list the hook was given. */
    function TotalPairs(): nat
    {
      |emojis|
    }

    /** The win is derived, never stored. */
    predicate IsWon()
    {
      matches == TotalPairs()
    }
  }

  /** What the timeout closure captures when a turn completes: both ids and the
      cards `find` returned for them (`None` where it returned `undefined`). */
  datatype Resolution = Resolution(firstId: int, secondId: int, first: Option<Card>, second: Option<Card>)

  /** A flip's new state, and the resolution it schedules when it completes a turn. */
  datatype FlipOutcome = FlipOutcome(game: Game, scheduled: Option<Resolution>)

  // ---------------------------------------------------------------------------
  // Cards

  function Reveal(c: Card): Card { c.(isFlipped := true) }
  function Conceal(c: Card): Card { c.(isFlipped := false) }
  function MarkMatched(c: Card): Card { c.(isMatched := true) }

  /** How a verdict treats each of the two cards of the turn: kept face up and
      matched on equal symbols, turned face down otherwise. */
  function Settle(c: Card, hit: bool): Card
  {
    if hit then MarkMatched(c) else Conceal(c)
  }

  /** Every card's id is its position, as a fresh deal numbers them. */
  predicate Positional(cards: seq<Card>)
  {
    forall k :: 0 <= k < |cards| ==> cards[k].id == k
  }

  /** The card at `k` is the one `find` returns for `id`: the first that carries it. */
  predicate IsFirstWithId(cards: seq<Card>, id: int, k: int)
  {
    0 <= k < |cards| && cards[k].id == id && forall m :: 0 <= m < k ==> cards[m].id != id
  }

  /** The position `Array.prototype.find` stops at when looking for `id`. */
  function FindIndex(cards: seq<Card>, id: int): (r: Option<nat>)
    ensures r.None? <==> forall k :: 0 <= k < |cards| ==> cards[k].id != id
    ensures r.Some? ==> IsFirstWithId(cards, id, r.value)
  {
    if |cards| == 0 then None
    else if cards[0].id == id then Some(0)
    else match FindIndex(cards[1..], id)
      case None => None
      case Some(k) => Some(k + 1)
  }

  function Find(cards: seq<Card>, id: int): Option<Card>
  {
    match FindIndex(cards, id)
    case None => None
    case Some(k) => Some(cards[k])
  }

  /** `cards.map(c => c.id === a || c.id === b ? f(c) : c)`, the only way the
      hook ever changes cards. */
  function MapIds(cards: seq<Card>, a: int, b: int, f: Card -> Card): seq<Card>
  {
    seq(|cards|, k requires 0 <= k < |cards| => if cards[k].id == a || cards[k].id == b then f(cards[k]) else cards[k])
  }

  /** The number of matched cards. */
  function MatchedCount(cards: seq<Card>): (n: nat)
    ensures n <= |cards|
    ensures n == |cards| <==> forall k :: 0 <= k < |cards| ==> cards[k].isMatched
  {
    if |cards| == 0 then 0
    else (if cards[0].isMatched then 1 else 0) + MatchedCount(cards[1..])
  }

  // ---------------------------------------------------------------------------
  // Transitions

  /** The game the hook starts with, and the one a restart produces. */
  function NewGame(emojis: seq<string>, js: seq<int>): (g: Game)
    requires ValidOracle(js, 2 * |emojis|)
    ensures Valid(g)
    ensures g.emojis == emojis && Dealt(g.cards, emojis)
    ensures g.moves == 0 && g.matches == 0 && g.seconds == 0
    ensures g.pending == [] && !g.isChecking && !g.timerRunning && !g.hasStarted
  {
    var g := Game(emojis, CreateCards(emojis, js), 0, 0, 0, false, [], false, false);
    assert MatchedCount(g.cards) == 0 by { NoneMatched(g.cards); }
    g
  }

  /** Holding an interval handle already makes starting a no-op. */
  function StartTimer(g: Game): (r: Game)
    ensures r.timerRunning
    ensures g.timerRunning ==> r == g
    ensures r.(timerRunning := g.timerRunning) == g
  {
    if g.timerRunning then g else g.(timerRunning := true)
  }

  /** Stopping without a handle is a no-op. */
  function StopTimer(g: Game): (r: Game)
    ensures !r.timerRunning
    ensures !g.timerRunning ==> r == g
    ensures r.(timerRunning := g.timerRunning) == g
  {
    if g.timerRunning then g.(timerRunning := false) else g
  }

  /** One firing of the one-second interval; without an interval nothing fires. */
  function Tick(g: Game): (r: Game)
    ensures r.seconds == if g.timerRunning then g.seconds + 1 else g.seconds
    ensures r.(seconds := g.seconds) == g
  {
    if g.timerRunning then g.(seconds := g.seconds + 1) else g
  }

  /** Whether a click on `id` gets past the guards: no turn is being checked and
      the first card carrying `id` is face down and unmatched. */
  predicate Accepts(g: Game, id: int)
  {
    && !g.isChecking
    && exists k :: 0 <= k < |g.cards| && IsFirstWithId(g.cards, id, k) && !g.cards[k].isFlipped && !g.cards[k].isMatched
  }

  /** A click on the card `id`. A rejected click changes nothing. An accepted one
      reveals the card, appends it to the pending ids, starts the timer on the
      first accepted click of a game, and on the second card of a turn counts a
      move, locks the board and schedules the resolution. */
  function Flip(g: Game, id: int): (r: FlipOutcome)
    ensures r.game == g <==> !Accepts(g, id)
    ensures !Accepts(g, id) ==> r.scheduled.None?
    ensures Accepts(g, id) ==>
      && r.game.pending == g.pending + [id]
      && r.game.hasStarted
      && (if g.hasStarted then r.game.timerRunning == g.timerRunning else r.game.timerRunning)
    ensures Accepts(g, id) && |g.pending| == 1 ==>
      r.game.moves == g.moves + 1 && r.game.isChecking && r.scheduled.Some?
    ensures Accepts(g, id) && |g.pending| != 1 ==>
      r.game.moves == g.moves && r.game.isChecking == g.isChecking && r.scheduled.None?
    ensures r.game.emojis == g.emojis && r.game.matches == g.matches && r.game.seconds == g.seconds
    ensures |r.game.cards| == |g.cards|
  {
    if g.isChecking then FlipOutcome(g, None)
    else match FindIndex(g.cards, id)
      case None => FlipOutcome(g, None)
      case Some(k) =>
        if g.cards[k].isFlipped || g.cards[k].isMatched then FlipOutcome(g, None)
        else
          var started := if g.hasStarted then g else StartTimer(g.(hasStarted := true));
          var cards := MapIds(g.cards, id, id, Reveal);
          var pending := g.pending + [id];
          var g1 := started.(cards := cards, pending := pending);
          if |pending| == 2 then
            var res := Resolution(pending[0], pending[1], Find(cards, pending[0]), Find(cards, pending[1]));
            FlipOutcome(g1.(moves := g.moves + 1, isChecking := true), Some(res))
          else
            FlipOutcome(g1, None)
  }

  /** The body of the 800 ms timeout. Equal symbols mark both captured ids
      matched and count a pair; otherwise both are turned face down. Either way
      the pending ids and the lock are cleared, and the effect that watches
      the win stops the timer when this step makes the game won. The closure
      reads the emoji of the cards it captured, so when `find` had returned
      `undefined` it throws before updating anything. */
  function Resolve(g: Game, res: Resolution): (r: Game)
    ensures |r.cards| == |g.cards|
    ensures res.first.None? || res.second.None? ==> r == g
    ensures res.first.Some? && res.second.Some? ==>
      && r.pending == [] && !r.isChecking
      && r.matches == (if res.first.value.emoji == res.second.value.emoji then g.matches + 1 else g.matches)
      && r.timerRunning == (g.timerRunning && !(r.IsWon() && !g.IsWon()))
      && (forall k :: 0 <= k < |g.cards| && g.cards[k].id != res.firstId && g.cards[k].id != res.secondId ==>
            r.cards[k] == g.cards[k])
    ensures r.emojis == g.emojis && r.moves == g.moves && r.seconds == g.seconds && r.hasStarted == g.hasStarted
    ensures r.timerRunning ==> g.timerRunning
  {
    match (res.first, res.second)
    case (Some(c1), Some(c2)) =>
      var hit := c1.emoji == c2.emoji;
      var settled := g.(
        cards := MapIds(g.cards, res.firstId, res.secondId, c => Settle(c, hit)),
        matches := if hit then g.matches + 1 else g.matches,
        pending := [],
        isChecking := false);
      if settled.IsWon() && !g.IsWon() then StopTimer(settled) else settled
    case _ => g
  }

  /** New Game: stop the timer, forget the start and the pending ids, deal a new
      deck and zero the counters. The scheduled resolution of a turn in flight
      is not cancelled. */
  function Restart(g: Game, js: seq<int>): (r: Game)
    requires ValidOracle(js, 2 * |g.emojis|)
    ensures r == NewGame(g.emojis, js)
    ensures Valid(r) && Dealt(r.cards, g.emojis)
    ensures r.moves == 0 && r.matches == 0 && r.seconds == 0
    ensures r.pending == [] && !r.isChecking && !r.timerRunning && !r.hasStarted
    ensures r.IsWon() <==> |g.emojis| == 0
  {
    StopTimer(g).(
      hasStarted := false,
      pending := [],
      cards := CreateCards(g.emojis, js),
      moves := 0,
      matches := 0,
      seconds := 0,
      isChecking := false)
  }

  // ---------------------------------------------------------------------------
  // Invariant

  /** What holds of every state reachable from a fresh game by clicks,
      resolutions of the turn in flight and ticks. */
  predicate Valid(g: Game)
  {
    DeckOk(g) && TurnOk(g) && ClockOk(g)
  }

  /** The deck is a deal of the game's symbols, numbered by position; matched
      cards are face up and come two per counted match. */
  predicate DeckOk(g: Game)
  {
    && |g.cards| == 2 * g.TotalPairs()
    && Positional(g.cards)
    && multiset(Symbols(g.cards)) == multiset(g.emojis) + multiset(g.emojis)
    && (forall k :: 0 <= k < |g.cards| && g.cards[k].isMatched ==> g.cards[k].isFlipped)
    && MatchedCount(g.cards) == 2 * g.matches
  }

  /** At most two ids are pending, the board is locked exactly when two are,
      and the face-up unmatched cards are exactly the pending ones. */
  predicate TurnOk(g: Game)
  {
    && |g.pending| <= 2
    && (g.isChecking <==> |g.pending| == 2)
    && (forall i :: 0 <= i < |g.pending| ==> 0 <= g.pending[i] < |g.cards|)
    && (|g.pending| == 2 ==> g.pending[0] != g.pending[1])
    && (forall k :: 0 <= k < |g.cards| ==>
          (g.cards[k].isFlipped && !g.cards[k].isMatched <==> k in g.pending))
  }

  /** The clock runs only after the first accepted click and never in a won game. */
  predicate ClockOk(g: Game)
  {
    && (g.timerRunning ==> g.hasStarted)
    && (!g.hasStarted ==> g.moves == 0 && g.seconds == 0)
    && (g.IsWon() ==> !g.timerRunning)
  }

  /** `res` is the resolution the flip that completed `g`'s current turn scheduled. */
  predicate Consistent(g: Game, res: Resolution)
  {
    && |g.pending| == 2
    && res.firstId == g.pending[0] && res.secondId == g.pending[1]
    && 0 <= res.firstId < |g.cards| && 0 <= res.secondId < |g.cards|
    && res.first == Some(g.cards[res.firstId])
    && res.second == Some(g.cards[res.secondId])
  }

  // ---------------------------------------------------------------------------
  // Lemmas

  lemma {:induction false} NoneMatched(cards: seq<Card>)
    requires forall k :: 0 <= k < |cards| ==> !cards[k].isMatched
    ensures MatchedCount(cards) == 0
  {
    if |cards| > 0 {
      NoneMatched(cards[1..]);
    }
  }

  /** Replacing one card changes the matched count by the change in that card's flag. */
  lemma {:induction false} MatchedCountUpdate(cards: seq<Card>, k: int, c: Card)
    requires 0 <= k < |cards|
    ensures MatchedCount(cards[k := c]) ==
      MatchedCount(cards) - (if cards[k].isMatched then 1 else 0) + (if c.isMatched then 1 else 0)
  {
    if k == 0 {
      assert cards[k := c][1..] == cards[1..];
    } else {
      assert cards[k := c][1..] == cards[1..][k - 1 := c];
      MatchedCountUpdate(cards[1..], k - 1, c);
    }
  }

  /** Replacing two distinct unmatched cards adds the new cards' matched flags. */
  lemma MatchedCountTwo(cards: seq<Card>, a: int, b: int, ca: Card, cb: Card)
    requires 0 <= a < |cards| && 0 <= b < |cards| && a != b
    requires !cards[a].isMatched && !cards[b].isMatched
    ensures MatchedCount(cards[a := ca][b := cb]) ==
      MatchedCount(cards) + (if ca.isMatched then 1 else 0) + (if cb.isMatched then 1 else 0)
  {
    MatchedCountUpdate(cards, a, ca);
    MatchedCountUpdate(cards[a := ca], b, cb);
  }

  /** On a positionally numbered deck, updating by id is updating by position. */
  lemma MapIdsPositional(cards: seq<Card>, a: int, b: int, f: Card -> Card)
    requires Positional(cards) && 0 <= a < |cards| && 0 <= b < |cards|
    ensures MapIds(cards, a, b, f) == cards[a := f(cards[a])][b := f(cards[b])]
  {
  }

  /** A change that keeps every symbol keeps the symbol row. */
  lemma SymbolsKept(cards: seq<Card>, cards': seq<Card>)
    requires |cards'| == |cards|
    requires forall k :: 0 <= k < |cards| ==> cards'[k].emoji == cards[k].emoji
    ensures Symbols(cards') == Symbols(cards)
  {
  }

  /** On a positionally numbered deck `find` returns the card at the id. */
  lemma FindPositional(cards: seq<Card>, id: int)
    requires Positional(cards) && 0 <= id < |cards|
    ensures FindIndex(cards, id) == Some(id)
    ensures Find(cards, id) == Some(cards[id])
  {
    var r := FindIndex(cards, id);
    assert r.Some? by { assert cards[id].id == id; }
  }

  /** In a valid game the guards read positionally: a click is accepted exactly
      when no turn is being checked and the card at that position exists and is
      face down and unmatched; it then reveals that card and no other. */
  lemma FlipPositional(g: Game, id: int)
    requires Valid(g)
    ensures Accepts(g, id) <==>
      !g.isChecking && 0 <= id < |g.cards| && !g.cards[id].isFlipped && !g.cards[id].isMatched
    ensures Accepts(g, id) ==> Flip(g, id).game.cards == g.cards[id := g.cards[id].(isFlipped := true)]
  {
    if 0 <= id < |g.cards| {
      FindPositional(g.cards, id);
      assert IsFirstWithId(g.cards, id, id);
      MapIdsPositional(g.cards, id, id, Reveal);
    }
    if Accepts(g, id) {
      var k :| 0 <= k < |g.cards| && IsFirstWithId(g.cards, id, k) && !g.cards[k].isFlipped && !g.cards[k].isMatched;
      assert g.cards[k].id == k;
    }
  }

  /** Matched pairs never exceed the pairs dealt, and the game is won exactly
      when every card is matched. */
  lemma WonIffAllMatched(g: Game)
    requires Valid(g)
    ensures g.matches <= g.TotalPairs()
    ensures g.IsWon() <==> forall k :: 0 <= k < |g.cards| ==> g.cards[k].isMatched
  {
  }

  lemma FlipPreservesValid(g: Game, id: int)
    requires Valid(g)
    ensures Valid(Flip(g, id).game)
    ensures Flip(g, id).scheduled.Some? ==> Consistent(Flip(g, id).game, Flip(g, id).scheduled.value)
  {
    var r := Flip(g, id);
    FlipPositional(g, id);
    if Accepts(g, id) {
      var h := r.game;
      assert id !in g.pending;
      assert !g.IsWon() by { WonIffAllMatched(g); }
      RevealedDeck(g, h, id);
      RevealedTurn(g, h, id);
      if |g.pending| == 1 {
        FindPositional(h.cards, g.pending[0]);
        FindPositional(h.cards, id);
      }
    }
  }

  lemma RevealedDeck(g: Game, h: Game, id: int)
    requires DeckOk(g) && 0 <= id < |g.cards| && !g.cards[id].isMatched
    requires h.cards == g.cards[id := Reveal(g.cards[id])]
    requires h.emojis == g.emojis && h.matches == g.matches
    ensures DeckOk(h)
  {
    assert MatchedCount(h.cards) == MatchedCount(g.cards) by {
      MatchedCountUpdate(g.cards, id, Reveal(g.cards[id]));
    }
    assert multiset(Symbols(h.cards)) == multiset(Symbols(g.cards)) by {
      SymbolsKept(g.cards, h.cards);
    }
  }

  lemma RevealedTurn(g: Game, h: Game, id: int)
    requires TurnOk(g) && |g.pending| < 2 && 0 <= id < |g.cards| && id !in g.pending && !g.cards[id].isMatched
    requires h.cards == g.cards[id := Reveal(g.cards[id])]
    requires h.pending == g.pending + [id]
    requires h.isChecking <==> |h.pending| == 2
    ensures TurnOk(h)
  {
    forall k | 0 <= k < |h.cards|
      ensures h.cards[k].isFlipped && !h.cards[k].isMatched <==> k in h.pending
    {
      assert k in h.pending <==> k in g.pending || k == id;
    }
  }

  /** The verdict of a turn in a valid game: a pair of equal symbols stays face
      up and matched and counts one more match; otherwise both cards turn face
      down. The turn is cleared and no other card changes. */
  lemma ResolveOutcome(g: Game, res: Resolution)
    requires Valid(g) && Consistent(g, res)
    ensures var r := Resolve(g, res);
      var a, b := res.firstId, res.secondId;
      && r.pending == [] && !r.isChecking
      && (g.cards[a].emoji == g.cards[b].emoji ==>
            && r.cards[a] == g.cards[a].(isMatched := true) && r.cards[a].isFlipped
            && r.cards[b] == g.cards[b].(isMatched := true) && r.cards[b].isFlipped
            && r.matches == g.matches + 1)
      && (g.cards[a].emoji != g.cards[b].emoji ==>
            && r.cards[a] == g.cards[a].(isFlipped := false)
            && r.cards[b] == g.cards[b].(isFlipped := false)
            && r.matches == g.matches)
      && |r.cards| == |g.cards|
      && (forall k :: 0 <= k < |g.cards| && k != a && k != b ==> r.cards[k] == g.cards[k])
      && r.timerRunning == (g.timerRunning && !r.IsWon())
  {
    var a, b := res.firstId, res.secondId;
    var hit := g.cards[a].emoji == g.cards[b].emoji;
    var f := c => Settle(c, hit);
    assert g.cards[a].isFlipped && g.cards[b].isFlipped;
    assert a != b;
    assert !g.IsWon() by { WonIffAllMatched(g); }
    MapIdsPositional(g.cards, a, b, f);
  }

  /** Settling the turn of a valid game, described field by field, gives a valid game. */
  lemma SettledValid(g: Game, r: Game, a: int, b: int, hit: bool)
    requires Valid(g) && g.pending == [a, b]
    requires r.cards == g.cards[a := Settle(g.cards[a], hit)][b := Settle(g.cards[b], hit)]
    requires r.matches == if hit then g.matches + 1 else g.matches
    requires r.pending == [] && !r.isChecking
    requires r.emojis == g.emojis && r.moves == g.moves && r.seconds == g.seconds && r.hasStarted == g.hasStarted
    requires r.timerRunning ==> g.timerRunning
    requires r.IsWon() ==> !r.timerRunning
    ensures Valid(r)
  {
    assert !g.cards[a].isMatched && !g.cards[b].isMatched;
    SettledDeck(g, r, a, b, hit);
    SettledTurn(g, r, a, b, hit);
  }

  lemma SettledDeck(g: Game, r: Game, a: int, b: int, hit: bool)
    requires DeckOk(g) && 0 <= a < |g.cards| && 0 <= b < |g.cards| && a != b
    requires !g.cards[a].isMatched && !g.cards[b].isMatched && g.cards[a].isFlipped && g.cards[b].isFlipped
    requires r.cards == g.cards[a := Settle(g.cards[a], hit)][b := Settle(g.cards[b], hit)]
    requires r.matches == if hit then g.matches + 1 else g.matches
    requires r.emojis == g.emojis
    ensures DeckOk(r)
  {
    assert |r.cards| == 2 * r.TotalPairs();
    assert Positional(r.cards);
    assert multiset(Symbols(r.cards)) == multiset(r.emojis) + multiset(r.emojis) by {
      SymbolsKept(g.cards, r.cards);
    }
    assert forall k :: 0 <= k < |r.cards| && r.cards[k].isMatched ==> r.cards[k].isFlipped;
    assert MatchedCount(r.cards) == 2 * r.matches by {
      MatchedCountTwo(g.cards, a, b, Settle(g.cards[a], hit), Settle(g.cards[b], hit));
    }
  }

  lemma SettledTurn(g: Game, r: Game, a: int, b: int, hit: bool)
    requires TurnOk(g) && g.pending == [a, b]
    requires r.cards == g.cards[a := Settle(g.cards[a], hit)][b := Settle(g.cards[b], hit)]
    requires r.pending == [] && !r.isChecking
    ensures TurnOk(r)
  {
    forall k | 0 <= k < |r.cards|
      ensures !(r.cards[k].isFlipped && !r.cards[k].isMatched)
    {
      if k != a && k != b {
        assert k !in g.pending;
      }
    }
  }

  lemma ResolvePreservesValid(g: Game, res: Resolution)
    requires Valid(g) && Consistent(g, res)
    ensures Valid(Resolve(g, res))
  {
    var r := Resolve(g, res);
    var a, b := res.firstId, res.secondId;
    var hit := g.cards[a].emoji == g.cards[b].emoji;
    ResolveOutcome(g, res);
    assert r.cards == g.cards[a := Settle(g.cards[a], hit)][b := Settle(g.cards[b], hit)];
    assert !g.IsWon() by { WonIffAllMatched(g); }
    SettledValid(g, r, a, b, hit);
  }

  /** The board calls the hook without arguments: the default symbols give the
      size of the medium level, eight pairs on sixteen cards. */
  lemma BoardGame(js: seq<int>)
    requires ValidOracle(js, 16)
    ensures var g := NewGame(DefaultEmojis, js);
      g.TotalPairs() == Config(Medium).pairs == 8 && |g.cards| == 16 && !g.IsWon()
  {
  }

  lemma TickPreservesValid(g: Game)
    requires Valid(g)
    ensures Valid(Tick(g))
  {
  }

  /** A won game is final until the next restart: every click is rejected and
      ticks no longer advance the clock. */
  lemma WonIsFinal(g: Game, id: int)
    requires Valid(g) && g.IsWon()
    ensures Flip(g, id) == FlipOutcome(g, None)
    ensures Tick(g) == g
  {
  }

  /** One whole turn from a quiet board: clicking two face-down cards and letting
      the resolution fire counts one move, and matches the pair exactly when the
      two symbols are equal. */
  lemma TurnOutcome(g: Game, a: int, b: int)
    requires Valid(g) && g.pending == []
    requires 0 <= a < |g.cards| && 0 <= b < |g.cards| && a != b
    requires !g.cards[a].isFlipped && !g.cards[b].isFlipped
    ensures var o1 := Flip(g, a);
      var o2 := Flip(o1.game, b);
      && o1.scheduled.None? && o1.game.pending == [a]
      && o2.scheduled.Some? && o2.game.isChecking && o2.game.moves == g.moves + 1
      && var r := Resolve(o2.game, o2.scheduled.value);
      && r.moves == g.moves + 1 && r.pending == [] && !r.isChecking && Valid(r)
      && (r.matches == g.matches + 1 <==> g.cards[a].emoji == g.cards[b].emoji)
      && (g.cards[a].emoji == g.cards[b].emoji ==> r.cards[a].isMatched && r.cards[b].isMatched)
      && (g.cards[a].emoji != g.cards[b].emoji ==> !r.cards[a].isFlipped && !r.cards[b].isFlipped)
  {
    OpenTurn(g, a, b);
    var o2 := Flip(Flip(g, a).game, b);
    ResolveOutcome(o2.game, o2.scheduled.value);
    ResolvePreservesValid(o2.game, o2.scheduled.value);
  }

  /** The two clicks of a turn from a quiet board. */
  lemma OpenTurn(g: Game, a: int, b: int)
    requires Valid(g) && g.pending == []
    requires 0 <= a < |g.cards| && 0 <= b < |g.cards| && a != b
    requires !g.cards[a].isFlipped && !g.cards[b].isFlipped
    ensures var o1 := Flip(g, a);
      var o2 := Flip(o1.game, b);
      && o1.scheduled.None? && o1.game.pending == [a]
      && o2.scheduled.Some? && o2.game.isChecking && o2.game.moves == g.moves + 1
      && Valid(o2.game) && Consistent(o2.game, o2.scheduled.value)
      && o2.scheduled.value.firstId == a && o2.scheduled.value.secondId == b
      && o2.game.cards[a].emoji == g.cards[a].emoji && o2.game.cards[b].emoji == g.cards[b].emoji
  {
    FlipPositional(g, a);
    FlipPreservesValid(g, a);
    var g1 := Flip(g, a).game;
    FlipPositional(g1, b);
    FlipPreservesValid(g1, b);
  }
}
