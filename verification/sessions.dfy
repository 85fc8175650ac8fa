/**
 Restart while a turn is being resolved.

 `Restart` does not cancel the timeout a completed turn scheduled, and a new
 deck reuses the ids `0 .. 2n-1`, so the old closure, when it fires, rewrites
 two cards of the new deck and may count a match there.
 `StaleMatchCorruptsRestart` shows the consequence for the engine as written.
 The `Session` layer below is the corrected design: every scheduled
 resolution carries the generation of the game that scheduled it, restarts
 advance the generation, and a resolution from an earlier generation is
 ignored. `FireKeepsValid` and `RestartRetiresTickets` prove that it keeps
 the invariant whatever the order of events.
 */
module Sessions {
  import opened Optional
  import opened Types
  import opened Deck
  import opened Engine

  /** The as-written engine: a turn of two equal symbols is pending, New Game is
      clicked before the 800 ms elapse, then the old timeout fires. Every verdict
      a click schedules in a valid game meets the requirements here (see
      `FlipPreservesValid`). The new game counts a match and holds a matched
      card that is face down, which no valid game does. */
  lemma StaleMatchCorruptsRestart(g: Game, res: Resolution, js: seq<int>)
    requires 0 <= res.firstId < 2 * |g.emojis| && 0 <= res.secondId < 2 * |g.emojis|
    requires res.first.Some? && res.second.Some? && res.first.value.emoji == res.second.value.emoji
    requires ValidOracle(js, 2 * |g.emojis|)
    ensures var h := Resolve(Restart(g, js), res);
      && h.matches == 1
      && h.cards[res.firstId].isMatched && !h.cards[res.firstId].isFlipped
      && !Valid(h)
  {
    MatchOnFaceDownDeck(Restart(g, js), res);
  }

  /** A matching resolution applied to a deck whose cards are all face down. */
  lemma MatchOnFaceDownDeck(n: Game, res: Resolution)
    requires Positional(n.cards) && forall k :: 0 <= k < |n.cards| ==> !n.cards[k].isFlipped
    requires 0 <= res.firstId < |n.cards| && 0 <= res.secondId < |n.cards|
    requires res.first.Some? && res.second.Some? && res.first.value.emoji == res.second.value.emoji
    ensures var h := Resolve(n, res);
      && h.matches == n.matches + 1
      && h.cards[res.firstId].isMatched && !h.cards[res.firstId].isFlipped
      && !Valid(h)
  {
    var a, b := res.firstId, res.secondId;
    var h := Resolve(n, res);
    MapIdsPositional(n.cards, a, b, c => Settle(c, true));
    assert h.cards[a] == Settle(n.cards[a], true);
    assert !DeckOk(h);
  }

  /** A game together with the generation that each restart advances. */
  datatype Session = Session(game: Game, generation: nat)

  /** A scheduled resolution stamped with the generation that scheduled it. */
  datatype Ticket = Ticket(res: Resolution, generation: nat)

  datatype Clicked = Clicked(session: Session, ticket: Option<Ticket>)

  function Start(emojis: seq<string>, js: seq<int>): (s: Session)
    requires ValidOracle(js, 2 * |emojis|)
    ensures Valid(s.game) && s.game.emojis == emojis && s.generation == 0
  {
    Session(NewGame(emojis, js), 0)
  }

  /** A click. It hands out a ticket exactly when it completes a turn, and the
      ticket is stamped with the current generation. */
  function Click(s: Session, id: int): (r: Clicked)
    ensures r.session.generation == s.generation
    ensures !Accepts(s.game, id) ==> r.session == s
    ensures r.ticket.Some? <==> Accepts(s.game, id) && |s.game.pending| == 1
    ensures r.ticket.Some? ==> r.ticket.value.generation == s.generation && r.ticket.value.res.secondId == id
  {
    var o := Flip(s.game, id);
    var ticket := match o.scheduled
      case None => None
      case Some(res) => Some(Ticket(res, s.generation));
    Clicked(Session(o.game, s.generation), ticket)
  }

  /** A tick moves only the clock. */
  function SessionTick(s: Session): (r: Session)
    ensures r.generation == s.generation
    ensures r.game.(seconds := s.game.seconds) == s.game
  {
    s.(game := Tick(s.game))
  }

  /** New Game in a fresh generation. */
  function RestartSession(s: Session, js: seq<int>): (r: Session)
    requires ValidOracle(js, 2 * |s.game.emojis|)
    ensures r.game == NewGame(s.game.emojis, js)
    ensures r.generation > s.generation
  {
    Session(Restart(s.game, js), s.generation + 1)
  }

  /** The timeout firing: only a ticket of the current generation acts. */
  function Fire(s: Session, t: Ticket): (r: Session)
    ensures t.generation != s.generation ==> r == s
    ensures r.generation == s.generation
    ensures t.generation == s.generation && Consistent(s.game, t.res) ==>
      r.game.pending == [] && !r.game.isChecking && r.game.moves == s.game.moves
  {
    if t.generation == s.generation then s.(game := Resolve(s.game, t.res)) else s
  }

  /** A ticket outstanding in `s`: stamped no later than now, and, when stamped
      now, the resolution of the turn `s` is checking. */
  predicate Live(s: Session, t: Ticket)
  {
    t.generation <= s.generation && (t.generation == s.generation ==> Consistent(s.game, t.res))
  }

  /** Every ticket a click hands out is live. */
  lemma ClickTicketLive(s: Session, id: int)
    requires Valid(s.game)
    ensures Valid(Click(s, id).session.game)
    ensures Click(s, id).ticket.Some? ==> Live(Click(s, id).session, Click(s, id).ticket.value)
  {
    FlipPreservesValid(s.game, id);
  }

  /** A live ticket stays live while it waits: clicks are locked out and ticks
      touch only the clock. */
  lemma LiveWhileWaiting(s: Session, t: Ticket, id: int)
    requires Valid(s.game) && Live(s, t)
    ensures Live(Click(s, id).session, t)
    ensures Live(SessionTick(s), t)
  {
  }

  /** Firing a live ticket keeps the game valid, whether it is current or stale. */
  lemma FireKeepsValid(s: Session, t: Ticket)
    requires Valid(s.game) && Live(s, t)
    ensures Valid(Fire(s, t).game)
  {
    if t.generation == s.generation {
      ResolvePreservesValid(s.game, t.res);
    }
  }

  /** After a restart every earlier ticket is stale: it stays live and firing it
      changes nothing. */
  lemma RestartRetiresTickets(s: Session, t: Ticket, js: seq<int>)
    requires Live(s, t) && ValidOracle(js, 2 * |s.game.emojis|)
    ensures Live(RestartSession(s, js), t)
    ensures Fire(RestartSession(s, js), t) == RestartSession(s, js)
  {
  }
}
