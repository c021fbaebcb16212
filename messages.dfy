/** The messages the server sends. Every `sendMsg` of main.js appends one
    entry (recipient, message) to a single log; `Inbox` projects one player's
    messages out of it. The recipient type is a parameter so that this module
    does not depend on the player class. */
module Messages {
  import opened Cards

  /** The hint texts, by kind; the exact wording is presentation. */
  datatype Hint =
    | ReadyHint                               // "Ready!"
    | OpponentReady(name: string)             // "<name> is ready."
    | OpponentLeft                            // "The opponent left the game!"
    | ReorderHint(seconds: int)               // special-card hint with the seconds left
    | YourTurn
    | WaitingFor(name: string)                // "<name>'s turn."
    | CorrectGuess
    | OpponentGuessedRight(name: string)
    | WrongGuess(guess: int)
    | OpponentGuessed(name: string, guess: int)
    | YouWin
    | YouLost

  datatype Msg =
    | Connect(id: string)
    | MatchingPlayer
    | PlayersList(count: nat)
    | NewGame(opponentName: string)
    | AllowReorder(allowed: bool)
    | HintUpdate(hint: Hint)
    | SelectCard(data: string)
    | CardsUpdate(mine: Hand, theirs: Hand)
    | SwitchTurn(yourTurn: bool)
    | ShowSkip(visible: bool)
    | PunishDirective
    | Resigned
    | Gameover

  datatype Sent<P> = Sent(to: P, msg: Msg)

  /** The data of a `select_card` that clears a selection. */
  const NoSelection: string := "-1"

  // ---------------------------------------------------------------
  // Views of the log
  // ---------------------------------------------------------------

  /** What one log entry puts in `q`'s inbox. */
  function InboxOf<P(==)>(m: Sent<P>, q: P): seq<Msg>
  {
    if m.to == q then [m.msg] else []
  }

  /** The `switch_turn` value, if any, that one log entry tells `q`. */
  function TurnOf<P(==)>(m: Sent<P>, q: P): seq<bool>
  {
    if m.to == q && m.msg.SwitchTurn? then [m.msg.yourTurn] else []
  }

  /** The messages sent to `q`, in the order they were sent. */
  function Inbox<P(==)>(log: seq<Sent<P>>, q: P): seq<Msg>
  {
    if log == [] then [] else Inbox(log[..|log| - 1], q) + InboxOf(log[|log| - 1], q)
  }

  /** The `switch_turn` values sent to `q`, in order. The server keeps no turn
      holder; the last of these is whose turn `q` has been told it is. */
  function Turns<P(==)>(log: seq<Sent<P>>, q: P): seq<bool>
  {
    if log == [] then [] else Turns(log[..|log| - 1], q) + TurnOf(log[|log| - 1], q)
  }

  function LastTurn<P(==)>(log: seq<Sent<P>>, q: P): Option<bool>
  {
    var t := Turns(log, q);
    if t == [] then None else Some(t[|t| - 1])
  }

  lemma {:induction false} InboxAppend<P>(a: seq<Sent<P>>, b: seq<Sent<P>>, q: P)
    ensures Inbox(a + b, q) == Inbox(a, q) + Inbox(b, q)
    decreases |b|
  {
    if b == [] {
      assert a + b == a;
    } else {
      assert (a + b)[..|a + b| - 1] == a + b[..|b| - 1];
      InboxAppend(a, b[..|b| - 1], q);
    }
  }

  lemma {:induction false} TurnsAppend<P>(a: seq<Sent<P>>, b: seq<Sent<P>>, q: P)
    ensures Turns(a + b, q) == Turns(a, q) + Turns(b, q)
    decreases |b|
  {
    if b == [] {
      assert a + b == a;
    } else {
      assert (a + b)[..|a + b| - 1] == a + b[..|b| - 1];
      TurnsAppend(a, b[..|b| - 1], q);
    }
  }

  lemma InboxSnoc<P>(log: seq<Sent<P>>, m: Sent<P>, q: P)
    ensures Inbox(log + [m], q) == Inbox(log, q) + InboxOf(m, q)
  {
    assert (log + [m])[..|log|] == log;
  }

  lemma TurnsSnoc<P>(log: seq<Sent<P>>, m: Sent<P>, q: P)
    ensures Turns(log + [m], q) == Turns(log, q) + TurnOf(m, q)
  {
    assert (log + [m])[..|log|] == log;
  }

  lemma Inbox2<P>(a: Sent<P>, b: Sent<P>, q: P)
    ensures Inbox([a, b], q) == InboxOf(a, q) + InboxOf(b, q)
  {
    assert Inbox([a], q) == InboxOf(a, q) by { InboxSnoc([], a, q); assert [a] == [] + [a]; }
    assert Inbox([a, b], q) == Inbox([a], q) + InboxOf(b, q) by { InboxSnoc([a], b, q); assert [a, b] == [a] + [b]; }
  }

  lemma Inbox4<P>(a: Sent<P>, b: Sent<P>, c: Sent<P>, d: Sent<P>, q: P)
    ensures Inbox([a, b, c, d], q) == InboxOf(a, q) + InboxOf(b, q) + InboxOf(c, q) + InboxOf(d, q)
  {
    Inbox2(a, b, q);
    assert Inbox([a, b, c], q) == Inbox([a, b], q) + InboxOf(c, q) by { InboxSnoc([a, b], c, q); assert [a, b, c] == [a, b] + [c]; }
    assert Inbox([a, b, c, d], q) == Inbox([a, b, c], q) + InboxOf(d, q) by { InboxSnoc([a, b, c], d, q); assert [a, b, c, d] == [a, b, c] + [d]; }
  }

  lemma Turns4<P>(a: Sent<P>, b: Sent<P>, c: Sent<P>, d: Sent<P>, q: P)
    ensures Turns([a, b, c, d], q) == TurnOf(a, q) + TurnOf(b, q) + TurnOf(c, q) + TurnOf(d, q)
  {
    assert Turns([a], q) == TurnOf(a, q) by { TurnsSnoc([], a, q); assert [a] == [] + [a]; }
    assert Turns([a, b], q) == Turns([a], q) + TurnOf(b, q) by { TurnsSnoc([a], b, q); assert [a, b] == [a] + [b]; }
    assert Turns([a, b, c], q) == Turns([a, b], q) + TurnOf(c, q) by { TurnsSnoc([a, b], c, q); assert [a, b, c] == [a, b] + [c]; }
    assert Turns([a, b, c, d], q) == Turns([a, b, c], q) + TurnOf(d, q) by { TurnsSnoc([a, b, c], d, q); assert [a, b, c, d] == [a, b, c] + [d]; }
  }

  lemma Inbox5<P>(a: Sent<P>, b: Sent<P>, c: Sent<P>, d: Sent<P>, e: Sent<P>, q: P)
    ensures Inbox([a, b, c, d, e], q) == InboxOf(a, q) + InboxOf(b, q) + InboxOf(c, q) + InboxOf(d, q) + InboxOf(e, q)
  {
    Inbox4(a, b, c, d, q);
    assert Inbox([a, b, c, d, e], q) == Inbox([a, b, c, d], q) + InboxOf(e, q) by { InboxSnoc([a, b, c, d], e, q); assert [a, b, c, d, e] == [a, b, c, d] + [e]; }
  }

  lemma Turns5<P>(a: Sent<P>, b: Sent<P>, c: Sent<P>, d: Sent<P>, e: Sent<P>, q: P)
    ensures Turns([a, b, c, d, e], q) == TurnOf(a, q) + TurnOf(b, q) + TurnOf(c, q) + TurnOf(d, q) + TurnOf(e, q)
  {
    Turns4(a, b, c, d, q);
    assert Turns([a, b, c, d, e], q) == Turns([a, b, c, d], q) + TurnOf(e, q) by { TurnsSnoc([a, b, c, d], e, q); assert [a, b, c, d, e] == [a, b, c, d] + [e]; }
  }

  /** Messages that tell nobody whose turn it is leave every player's view of
      the turn as it was. */
  lemma KeepsTurn<P>(log: seq<Sent<P>>, extra: seq<Sent<P>>, q: P)
    requires Turns(extra, q) == []
    ensures LastTurn(log + extra, q) == LastTurn(log, q)
  {
    TurnsAppend(log, extra, q);
    assert Turns(log, q) + [] == Turns(log, q);
  }

  /** After messages that told `q` whose turn it is once, `q` has been told that. */
  lemma TakesLastTurn<P>(log: seq<Sent<P>>, extra: seq<Sent<P>>, q: P, turn: bool)
    requires Turns(extra, q) == [turn]
    ensures LastTurn(log + extra, q) == Some(turn)
  {
    TurnsAppend(log, extra, q);
  }

  // ---------------------------------------------------------------
  // The messages of each operation
  // ---------------------------------------------------------------

  /** `updateCards`: each player gets its own hand and, if `display`, the other's. */
  function CardsUpdateMsgs<P>(p: P, o: P, pCards: Hand, oCards: Hand, display: bool): seq<Sent<P>>
  {
    [ Sent(p, CardsUpdate(pCards, if display then oCards else [])),
      Sent(o, CardsUpdate(oCards, if display then pCards else [])) ]
  }

  /** Each player is shown its own hand, and the other's exactly when `display`. */
  lemma CardsUpdateShowsOwnHand<P>(p: P, o: P, pCards: Hand, oCards: Hand, display: bool)
    requires p != o
    ensures Inbox(CardsUpdateMsgs(p, o, pCards, oCards, display), p) ==
            [CardsUpdate(pCards, if display then oCards else [])]
    ensures Inbox(CardsUpdateMsgs(p, o, pCards, oCards, display), o) ==
            [CardsUpdate(oCards, if display then pCards else [])]
  {
    var m := CardsUpdateMsgs(p, o, pCards, oCards, display);
    Inbox2(m[0], m[1], p);
    Inbox2(m[0], m[1], o);
  }

  /** `switchTurn(p, turn)`: the turn is `p`'s when `turn` holds, else `o`'s;
      `o`'s selection is cleared either way. */
  function SwitchTurnMsgs<P>(p: P, o: P, turn: bool, pName: string, oName: string): seq<Sent<P>>
  {
    [ Sent(p, SwitchTurn(turn)),
      Sent(o, SwitchTurn(!turn)),
      Sent(p, HintUpdate(if turn then YourTurn else WaitingFor(oName))),
      Sent(o, HintUpdate(if turn then WaitingFor(pName) else YourTurn)),
      Sent(o, SelectCard(NoSelection)) ]
  }

  /** A turn switch tells each of the two players exactly once, and oppositely. */
  lemma SwitchTurnTellsBoth<P>(p: P, o: P, turn: bool, pName: string, oName: string, q: P)
    requires p != o
    ensures Turns(SwitchTurnMsgs(p, o, turn, pName, oName), p) == [turn]
    ensures Turns(SwitchTurnMsgs(p, o, turn, pName, oName), o) == [!turn]
    ensures q != p && q != o ==> Turns(SwitchTurnMsgs(p, o, turn, pName, oName), q) == []
  {
    var m := SwitchTurnMsgs(p, o, turn, pName, oName);
    Turns5(m[0], m[1], m[2], m[3], m[4], p);
    Turns5(m[0], m[1], m[2], m[3], m[4], o);
    Turns5(m[0], m[1], m[2], m[3], m[4], q);
  }

  /** `checkGuess` when the guess names the card: both see the new hands, the
      guesser may go on or skip. */
  function CorrectGuessMsgs<P>(p: P, o: P, pCards: Hand, oCards: Hand, pName: string): seq<Sent<P>>
  {
    CardsUpdateMsgs(p, o, pCards, oCards, true) +
    [ Sent(p, HintUpdate(CorrectGuess)),
      Sent(p, ShowSkip(true)),
      Sent(o, HintUpdate(OpponentGuessedRight(pName))) ]
  }

  /** `checkGuess` when the guess is wrong: the guesser owes a reveal and may not skip. */
  function WrongGuessMsgs<P>(p: P, o: P, guess: int, pName: string): seq<Sent<P>>
  {
    [ Sent(p, HintUpdate(WrongGuess(guess))),
      Sent(p, PunishDirective),
      Sent(p, ShowSkip(false)),
      Sent(o, HintUpdate(OpponentGuessed(pName, guess))) ]
  }

  /** Neither outcome of a guess says whose turn it is; a correct guess offers
      the skip and a wrong one withdraws it and demands a reveal. */
  lemma GuessKeepsTurn<P>(p: P, o: P, pCards: Hand, oCards: Hand, guess: int, pName: string, q: P)
    requires p != o
    ensures Turns(CorrectGuessMsgs(p, o, pCards, oCards, pName), q) == []
    ensures Turns(WrongGuessMsgs(p, o, guess, pName), q) == []
    ensures Inbox(CorrectGuessMsgs(p, o, pCards, oCards, pName), p) ==
            [CardsUpdate(pCards, oCards), HintUpdate(CorrectGuess), ShowSkip(true)]
    ensures Inbox(WrongGuessMsgs(p, o, guess, pName), p) ==
            [HintUpdate(WrongGuess(guess)), PunishDirective, ShowSkip(false)]
  {
    var c := CorrectGuessMsgs(p, o, pCards, oCards, pName);
    assert c == [c[0], c[1], c[2], c[3], c[4]];
    Turns5(c[0], c[1], c[2], c[3], c[4], q);
    Inbox5(c[0], c[1], c[2], c[3], c[4], p);
    var w := WrongGuessMsgs(p, o, guess, pName);
    Turns4(w[0], w[1], w[2], w[3], q);
    Inbox4(w[0], w[1], w[2], w[3], p);
  }

  /** `_sendResultMsg(winner)`; `loser` is whatever `winner.opponent` holds then. */
  function ResultMsgs<P>(winner: P, loser: P): seq<Sent<P>>
  {
    [Sent(winner, HintUpdate(YouWin)), Sent(loser, HintUpdate(YouLost))]
  }

  function GameoverMsgs<P>(p: P, o: P): seq<Sent<P>>
  {
    [Sent(p, Gameover), Sent(o, Gameover)]
  }

  /** Announcing a winner and the end of the game tells nobody whose turn
      it is. */
  lemma ResultKeepsTurn<P>(winner: P, loser: P, p: P, o: P, q: P)
    ensures Turns(ResultMsgs(winner, loser) + GameoverMsgs(p, o), q) == []
  {
    var r := ResultMsgs(winner, loser);
    var g := GameoverMsgs(p, o);
    Pair(r, q, q);
    Pair(g, q, q);
    TurnsAppend(r, g, q);
  }

  /** `checkGameover(p)` with opponent `o`, where `oOpponent` is `o.opponent`:
      first the check of `p`'s hand, then the check of `o`'s; both may fire. */
  function CheckGameoverMsgs<P>(p: P, o: P, oOpponent: P, pDone: bool, oDone: bool): seq<Sent<P>>
  {
    (if pDone then ResultMsgs(o, oOpponent) + GameoverMsgs(p, o) else []) +
    (if oDone then ResultMsgs(p, o) + GameoverMsgs(p, o) else [])
  }

  /** For two players paired with each other: the player whose hand is all
      shown loses and the other wins, both are told the game is over, and no
      check firing sends nothing. When both hands are shown both checks fire,
      so each player is told both that it won and that it lost. */
  lemma GameoverOutcome<P>(p: P, o: P, pDone: bool, oDone: bool)
    requires p != o
    ensures !pDone && !oDone ==> CheckGameoverMsgs(p, o, p, pDone, oDone) == []
    ensures pDone && !oDone ==>
      Inbox(CheckGameoverMsgs(p, o, p, pDone, oDone), o) == [HintUpdate(YouWin), Gameover] &&
      Inbox(CheckGameoverMsgs(p, o, p, pDone, oDone), p) == [HintUpdate(YouLost), Gameover]
    ensures !pDone && oDone ==>
      Inbox(CheckGameoverMsgs(p, o, p, pDone, oDone), p) == [HintUpdate(YouWin), Gameover] &&
      Inbox(CheckGameoverMsgs(p, o, p, pDone, oDone), o) == [HintUpdate(YouLost), Gameover]
    ensures pDone && oDone ==>
      Inbox(CheckGameoverMsgs(p, o, p, pDone, oDone), p) ==
        [HintUpdate(YouLost), Gameover, HintUpdate(YouWin), Gameover] &&
      Inbox(CheckGameoverMsgs(p, o, p, pDone, oDone), o) ==
        [HintUpdate(YouWin), Gameover, HintUpdate(YouLost), Gameover]
  {
    var first := ResultMsgs(o, p) + GameoverMsgs(p, o);
    var second := ResultMsgs(p, o) + GameoverMsgs(p, o);
    assert first == [first[0], first[1], first[2], first[3]];
    assert second == [second[0], second[1], second[2], second[3]];
    Inbox4(first[0], first[1], first[2], first[3], p);
    Inbox4(first[0], first[1], first[2], first[3], o);
    Inbox4(second[0], second[1], second[2], second[3], p);
    Inbox4(second[0], second[1], second[2], second[3], o);
    if pDone && oDone {
      InboxAppend(first, second, p);
      InboxAppend(first, second, o);
    }
    if !pDone {
      assert CheckGameoverMsgs(p, o, p, pDone, oDone) == (if oDone then second else []);
    }
    if !oDone {
      assert CheckGameoverMsgs(p, o, p, pDone, oDone) == (if pDone then first else []);
    }
  }

  /** A hint to each of the two players; `_countDown` sends one per tick. */
  function ReorderHintMsgs<P>(p: P, o: P, seconds: int): seq<Sent<P>>
  {
    [Sent(p, HintUpdate(ReorderHint(seconds))), Sent(o, HintUpdate(ReorderHint(seconds)))]
  }

  function AllowReorderMsgs<P>(p: P, o: P, allowed: bool): seq<Sent<P>>
  {
    [Sent(p, AllowReorder(allowed)), Sent(o, AllowReorder(allowed))]
  }

  /** What `DealCards` sends once both hands are dealt: the hands with the
      opponent's hidden, a cleared selection for each, the reorder window
      opened, and the first countdown hint with the full number of seconds. */
  function DealtMsgs<P>(p: P, o: P, pCards: Hand, oCards: Hand, seconds: int): seq<Sent<P>>
  {
    CardsUpdateMsgs(p, o, pCards, oCards, false) +
    [Sent(p, SelectCard(NoSelection)), Sent(o, SelectCard(NoSelection))] +
    AllowReorderMsgs(p, o, true) +
    ReorderHintMsgs(p, o, seconds)
  }

  /** What one player receives from the deal, part by part. */
  lemma DealtParts<P>(p: P, o: P, pCards: Hand, oCards: Hand, seconds: int, r: P)
    ensures var a, b, c, d := CardsUpdateMsgs(p, o, pCards, oCards, false),
      [Sent(p, SelectCard(NoSelection)), Sent(o, SelectCard(NoSelection))],
      AllowReorderMsgs(p, o, true), ReorderHintMsgs(p, o, seconds);
      Inbox(DealtMsgs(p, o, pCards, oCards, seconds), r) == Inbox(a, r) + Inbox(b, r) + Inbox(c, r) + Inbox(d, r) &&
      Turns(DealtMsgs(p, o, pCards, oCards, seconds), r) == Turns(a, r) + Turns(b, r) + Turns(c, r) + Turns(d, r)
  {
    var a := CardsUpdateMsgs(p, o, pCards, oCards, false);
    var b := [Sent(p, SelectCard(NoSelection)), Sent(o, SelectCard(NoSelection))];
    var c := AllowReorderMsgs(p, o, true);
    var d := ReorderHintMsgs(p, o, seconds);
    InboxAppend(a + b + c, d, r);
    InboxAppend(a + b, c, r);
    InboxAppend(a, b, r);
    TurnsAppend(a + b + c, d, r);
    TurnsAppend(a + b, c, r);
    TurnsAppend(a, b, r);
  }

  /** During the deal each player is sent exactly four messages: its own hand
      with the opponent's hidden, a cleared selection, the opened reorder
      window and the first countdown hint. Nobody is told whose turn it is. */
  lemma DealHidesOpponentHand<P>(p: P, o: P, pCards: Hand, oCards: Hand, seconds: int, q: P)
    requires p != o
    ensures Inbox(DealtMsgs(p, o, pCards, oCards, seconds), p) ==
      [CardsUpdate(pCards, []), SelectCard(NoSelection), AllowReorder(true), HintUpdate(ReorderHint(seconds))]
    ensures Inbox(DealtMsgs(p, o, pCards, oCards, seconds), o) ==
      [CardsUpdate(oCards, []), SelectCard(NoSelection), AllowReorder(true), HintUpdate(ReorderHint(seconds))]
    ensures Turns(DealtMsgs(p, o, pCards, oCards, seconds), q) == []
  {
    var a := CardsUpdateMsgs(p, o, pCards, oCards, false);
    var b := [Sent(p, SelectCard(NoSelection)), Sent(o, SelectCard(NoSelection))];
    var c := AllowReorderMsgs(p, o, true);
    var d := ReorderHintMsgs(p, o, seconds);
    var m := DealtMsgs(p, o, pCards, oCards, seconds);
    assert Inbox(m, p) ==
      [CardsUpdate(pCards, []), SelectCard(NoSelection), AllowReorder(true), HintUpdate(ReorderHint(seconds))] by {
      DealtParts(p, o, pCards, oCards, seconds, p);
      Pair(a, p, q);
      Pair(b, p, q);
      Pair(c, p, q);
      Pair(d, p, q);
    }
    assert Inbox(m, o) ==
      [CardsUpdate(oCards, []), SelectCard(NoSelection), AllowReorder(true), HintUpdate(ReorderHint(seconds))] by {
      DealtParts(p, o, pCards, oCards, seconds, o);
      Pair(a, o, q);
      Pair(b, o, q);
      Pair(c, o, q);
      Pair(d, o, q);
    }
    assert Turns(m, q) == [] by {
      DealtParts(p, o, pCards, oCards, seconds, q);
      Pair(a, p, q);
      Pair(b, p, q);
      Pair(c, p, q);
      Pair(d, p, q);
    }
  }

  lemma Pair<P>(x: seq<Sent<P>>, p: P, q: P)
    requires |x| == 2
    ensures Inbox(x, p) == InboxOf(x[0], p) + InboxOf(x[1], p)
    ensures Turns(x, q) == TurnOf(x[0], q) + TurnOf(x[1], q)
  {
    assert x == [x[0], x[1]];
    Inbox2(x[0], x[1], p);
    assert Turns([x[0], x[1]], q) == TurnOf(x[0], q) + TurnOf(x[1], q) by {
      TurnsSnoc([x[0]], x[1], q);
      TurnsSnoc([], x[0], q);
      assert [x[0]] == [] + [x[0]];
      assert [x[0], x[1]] == [x[0]] + [x[1]];
    }
  }

  /** `players_list` with the registry size, to every registered player. */
  function PlayersListMsgs<P>(ps: seq<P>, count: nat): (r: seq<Sent<P>>)
    ensures |r| == |ps|
    ensures forall i | 0 <= i < |ps| :: r[i] == Sent(ps[i], PlayersList(count))
  {
    if ps == [] then []
    else PlayersListMsgs(ps[..|ps| - 1], count) + [Sent(ps[|ps| - 1], PlayersList(count))]
  }

  /** The broadcast reaches every listed player with the count, and nobody else. */
  lemma {:induction false} BroadcastReachesAll<P>(ps: seq<P>, count: nat, q: P)
    ensures q in ps ==> PlayersList(count) in Inbox(PlayersListMsgs(ps, count), q)
    ensures q !in ps ==> Inbox(PlayersListMsgs(ps, count), q) == []
  {
    if ps != [] {
      var init := ps[..|ps| - 1];
      BroadcastReachesAll(init, count, q);
      InboxSnoc(PlayersListMsgs(init, count), Sent(ps[|ps| - 1], PlayersList(count)), q);
      assert ps == init + [ps[|ps| - 1]];
    }
  }
}
