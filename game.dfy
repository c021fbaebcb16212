/** The game server of server/main.js: the registry of connected players,
    each player's state machine, matchmaking, the deal and its reorder
    countdown, guesses, reveals, turns and the end of a game. Every message
    the server sends is appended to one log (see module Messages). */
module Game {
  import opened Cards
  import opened Deal
  import opened Reorder
  import M = Messages

  /** The player states the server uses (`waiting` and `over` are declared
      in the source but never assigned). */
  datatype State = Uninitialized | Matching | Matched | Ready | Playing

  /** An inbound message, by its `action`, with its data already parsed. */
  datatype Request =
    | Join(name: string)
    | ReadyUp
    | OnReorder(cards: Hand)
    | Resignation
    | Play(index: int, guess: int)
    | Select(data: string)
    | TakePunishment(index: int)
    | SkipRound
    | Unrecognized

  /** The numbers `Math.random` returns during one deal: one per deck
      position for the shuffle, then up to one per card of each hand for
      placing its special cards. */
  datatype Draws = Draws(deck: seq<real>, first: seq<real>, second: seq<real>)

  predicate ValidDraws(d: Draws)
  {
    RandomDraws(d.deck) && |d.deck| == DeckSize &&
    RandomDraws(d.first) && |d.first| >= HandSize &&
    RandomDraws(d.second) && |d.second| >= HandSize
  }

  class Player {
    const id: string
    var name: string
    var state: State
    var opponent: Player?
    var cards: Hand
    var counter: Countdown?

    constructor (id: string)
      ensures this.id == id && name == "" && state == Uninitialized
      ensures opponent == null && cards == [] && counter == null
    {
      this.id := id;
      name := "";
      state := Uninitialized;
      opponent := null;
      cards := [];
      counter := null;
    }
  }

  /** The interval `specialCardsreorder` starts, with the two players its
      `_countDown` closure captured; both players' `counter` point to it. */
  class Countdown {
    const player: Player
    const opponent: Player
    var clock: Clock

    constructor (player: Player, opponent: Player)
      ensures this.player == player && this.opponent == opponent
      ensures clock == Start()
    {
      this.player := player;
      this.opponent := opponent;
      clock := Start();
    }
  }

  // ---------------------------------------------------------------
  // Registry lookups
  // ---------------------------------------------------------------

  /** Connection keys are unique, so no two registry entries share an id. */
  predicate UniqueIds(ps: seq<Player>)
  {
    forall i, j | 0 <= i < j < |ps| :: ps[i].id != ps[j].id
  }

  /** `Players.find(v => v.id === id)`: the index of the first entry with
      that id, or `|ps|` when there is none. */
  function FindById(ps: seq<Player>, id: string): (k: nat)
    ensures k <= |ps|
    ensures k < |ps| ==> ps[k].id == id
    ensures forall j | 0 <= j < k :: ps[j].id != id
  {
    if ps == [] then 0
    else if ps[0].id == id then 0
    else 1 + FindById(ps[1..], id)
  }

  /** With unique ids the lookup by a member's id finds that member. */
  lemma FindByIdMember(ps: seq<Player>, q: Player)
    requires UniqueIds(ps) && q in ps
    ensures FindById(ps, q.id) < |ps| && ps[FindById(ps, q.id)] == q
  {
    var i :| 0 <= i < |ps| && ps[i] == q;
    assert ps[i].id == q.id;
  }

  /** The matchmaking search: the index of the first entry in state
      `Matching` whose id is not `id`, or `|ps|` when there is none. */
  function FirstMatching(ps: seq<Player>, id: string): (k: nat)
    reads ps
    ensures k <= |ps|
    ensures k < |ps| ==> ps[k].state == Matching && ps[k].id != id
    ensures forall j | 0 <= j < k :: ps[j].state != Matching || ps[j].id == id
  {
    if ps == [] then 0
    else if ps[0].state == Matching && ps[0].id != id then 0
    else 1 + FirstMatching(ps[1..], id)
  }

  /** `Players.filter(obj => obj.id !== id)`. */
  function RemoveById(ps: seq<Player>, id: string): (r: seq<Player>)
    ensures forall q | q in r :: q in ps && q.id != id
    ensures forall q | q in ps && q.id != id :: q in r
  {
    if ps == [] then []
    else (if ps[0].id == id then [] else [ps[0]]) + RemoveById(ps[1..], id)
  }

  lemma UniqueTail(ps: seq<Player>)
    requires UniqueIds(ps) && ps != []
    ensures UniqueIds(ps[1..])
    ensures forall q | q in ps[1..] :: q.id != ps[0].id
  {
    var tail := ps[1..];
    forall i, j | 0 <= i < j < |tail| ensures tail[i].id != tail[j].id {
      assert tail[i] == ps[i + 1] && tail[j] == ps[j + 1];
    }
    forall q | q in tail ensures q.id != ps[0].id {
      var j :| 0 <= j < |tail| && tail[j] == q;
      assert ps[j + 1] == q;
    }
  }

  lemma UniqueCons(x: Player, s: seq<Player>)
    requires UniqueIds(s) && forall q | q in s :: q.id != x.id
    ensures UniqueIds([x] + s)
  {
    var r := [x] + s;
    forall i, j | 0 <= i < j < |r| ensures r[i].id != r[j].id {
      assert r[j] == s[j - 1] && r[j] in s;
      if i > 0 {
        assert r[i] == s[i - 1];
      }
    }
  }

  /** Filtering by id keeps ids unique. */
  lemma {:induction false} RemoveKeepsUnique(ps: seq<Player>, id: string)
    requires UniqueIds(ps)
    ensures UniqueIds(RemoveById(ps, id))
  {
    if ps != [] {
      UniqueTail(ps);
      RemoveKeepsUnique(ps[1..], id);
      if ps[0].id != id {
        UniqueCons(ps[0], RemoveById(ps[1..], id));
      }
    }
  }

  /** Removing a registered id shrinks the registry by exactly one entry;
      removing an unknown id changes nothing. */
  lemma {:induction false} RemoveOne(ps: seq<Player>, id: string)
    requires UniqueIds(ps)
    ensures FindById(ps, id) < |ps| ==> |RemoveById(ps, id)| == |ps| - 1
    ensures FindById(ps, id) == |ps| ==> RemoveById(ps, id) == ps
  {
    if ps != [] {
      UniqueTail(ps);
      RemoveOne(ps[1..], id);
      if ps[0].id == id {
        assert FindById(ps[1..], id) == |ps[1..]|;
      }
    }
  }

  lemma {:induction false} RemoveAbsent(ps: seq<Player>, id: string)
    requires forall i | 0 <= i < |ps| :: ps[i].id != id
    ensures RemoveById(ps, id) == ps
  {
    if ps != [] {
      RemoveAbsent(ps[1..], id);
      assert [ps[0]] + ps[1..] == ps;
    }
  }

  lemma RemoveAtStep(ps: seq<Player>, k: nat, id: string)
    requires 0 < k < |ps| && ps[0].id != id
    requires RemoveById(ps[1..], id) == ps[1..][..k - 1] + ps[1..][k..]
    ensures RemoveById(ps, id) == ps[..k] + ps[k + 1..]
  {
    var t := ps[1..];
    assert t[..k - 1] == ps[1..k] && t[k..] == ps[k + 1..];
    assert ps[..k] == [ps[0]] + ps[1..k];
  }

  /** Filtering out the id of the one entry at `k` that has it. */
  lemma {:induction false} RemoveAt(ps: seq<Player>, k: nat, id: string)
    requires k < |ps| && ps[k].id == id
    requires forall i | 0 <= i < |ps| && i != k :: ps[i].id != id
    ensures RemoveById(ps, id) == ps[..k] + ps[k + 1..]
  {
    var t := ps[1..];
    if k == 0 {
      RemoveAbsent(t, id);
    } else {
      forall i | 0 <= i < |t| && i != k - 1 ensures t[i].id != id {
        assert t[i] == ps[i + 1];
      }
      RemoveAt(t, k - 1, id);
      RemoveAtStep(ps, k, id);
    }
  }

  /** The registered entry that the lookup finds is the one removed, and the
      others keep their registry order. */
  lemma RemoveKeepsOrder(ps: seq<Player>, id: string)
    requires UniqueIds(ps) && FindById(ps, id) < |ps|
    ensures var k := FindById(ps, id); RemoveById(ps, id) == ps[..k] + ps[k + 1..]
  {
    var k := FindById(ps, id);
    forall i | 0 <= i < |ps| && i != k ensures ps[i].id != id {
      if i > k {
        assert ps[k].id != ps[i].id;
      }
    }
    RemoveAt(ps, k, id);
  }

  // ---------------------------------------------------------------
  // What the handlers send, read off the heap
  // ---------------------------------------------------------------

  /** `p`'s opponent as a set, empty when there is none. */
  function Opponents(p: Player): set<Player>
    reads p
  {
    if p.opponent == null then {} else {p.opponent}
  }

  /** The intervals `p`'s and its opponent's `counter` refer to. */
  function Counters(p: Player): set<Countdown>
    reads p, Opponents(p)
  {
    (if p.counter == null then {} else {p.counter}) +
    (if p.opponent == null || p.opponent.counter == null then {} else {p.opponent.counter})
  }

  /** `updateCards(p, display)`. */
  function UpdateMsgs(p: Player, display: bool): seq<M.Sent<Player>>
    reads p, Opponents(p)
  {
    if p.opponent == null then []
    else M.CardsUpdateMsgs(p, p.opponent, p.cards, p.opponent.cards, display)
  }

  /** `switchTurn(p, turn)`. */
  function SwitchMsgs(p: Player, turn: bool): seq<M.Sent<Player>>
    reads p, Opponents(p)
  {
    if p.opponent == null then []
    else M.SwitchTurnMsgs(p, p.opponent, turn, p.name, p.opponent.name)
  }

  /** What `checkGameover` needs so as not to throw: both hands non-empty
      (the sum is reduced without an initial value) and, when `p`'s hand is
      all shown, an opponent of the opponent to tell it lost. */
  predicate GameoverSafe(p: Player)
    reads p, Opponents(p)
  {
    p.opponent != null ==>
      |p.cards| > 0 && |p.opponent.cards| > 0 &&
      (AllUnfolded(p.cards) ==> p.opponent.opponent != null)
  }

  /** `checkGameover(p)` with an opponent: the check of `p`'s own hand, then
      the check of the opponent's. */
  function GameoverLog(p: Player): seq<M.Sent<Player>>
    requires GameoverSafe(p)
    reads p, Opponents(p)
  {
    if p.opponent == null then []
    else M.CheckGameoverMsgs(p, p.opponent, p.opponent.opponent, AllUnfolded(p.cards), AllUnfolded(p.opponent.cards))
  }

  /** The end-of-game check tells nobody whose turn it is. */
  lemma GameoverKeepsTurn(p: Player, q: Player)
    requires GameoverSafe(p)
    ensures M.Turns(GameoverLog(p), q) == []
  {
    if p.opponent != null {
      var o: Player := p.opponent;
      var first: seq<M.Sent<Player>> := [];
      if AllUnfolded(p.cards) {
        var loser: Player := o.opponent;
        first := M.ResultMsgs(o, loser) + M.GameoverMsgs(p, o);
        M.ResultKeepsTurn(o, loser, p, o, q);
      }
      var second: seq<M.Sent<Player>> := [];
      if AllUnfolded(o.cards) {
        second := M.ResultMsgs(p, o) + M.GameoverMsgs(p, o);
        M.ResultKeepsTurn(p, o, p, o, q);
      }
      assert GameoverLog(p) == first + second;
      M.TurnsAppend(first, second, q);
    }
  }

  /** The hand `punish(p, index)` leaves: unchanged if that card is already
      shown, else with it shown. */
  function Punished(h: Hand, index: int): Hand
    requires 0 <= index < |h|
  {
    if h[index].show != 0 then h else Reveal(h, index)
  }

  /** The inputs on which the dispatcher runs to completion. The source does
      no bounds or null checks, so a guess or reveal at an index outside the
      hand, or a game-over check it cannot finish, throws. */
  predicate Handles(p: Player, a: Request)
    reads p, Opponents(p)
  {
    (p.state == Uninitialized && !a.Join?) ||
    match a
    case Play(index, _) =>
      p.opponent != null ==> 0 <= index < |p.opponent.cards| && GameoverSafe(p)
    case TakePunishment(index) =>
      0 <= index < |p.cards| &&
      (p.opponent != null ==>
        |p.opponent.cards| > 0 &&
        (AllUnfolded(Punished(p.cards, index)) ==> p.opponent.opponent != null))
    case _ => true
  }

  class Server {
    /** The registry `Players`, in connection order. */
    var players: seq<Player>
    /** Every message sent, in order, with its recipient. */
    var log: seq<M.Sent<Player>>
    /** Every player that ever connected; a player removed from the registry
        can still be someone's opponent. */
    ghost var all: set<Player>

    ghost predicate Valid()
      reads this, all
    {
      (forall q | q in players :: q in all) &&
      UniqueIds(players) &&
      (forall q | q in all :: q.opponent != q)
    }

    constructor ()
      ensures Valid() && players == [] && log == []
    {
      players := [];
      log := [];
      all := {};
    }

    /** `sendMsg`, once per message. */
    method Post(msgs: seq<M.Sent<Player>>)
      modifies this`log
      ensures log == old(log) + msgs
    {
      log := log + msgs;
    }

    /** `BroadcastPlayersList`: every registered player is told the registry
        size. */
    method BroadcastPlayersList()
      modifies this`log
      ensures log == old(log) + M.PlayersListMsgs(players, |players|)
    {
      for i := 0 to |players|
        invariant log == old(log) + M.PlayersListMsgs(players[..i], |players|)
      {
        assert players[..i + 1][..i] == players[..i];
        Post([M.Sent(players[i], M.PlayersList(|players|))]);
      }
      assert players[..|players|] == players;
    }

    /** A new connection: the player is registered, told its id, and the new
        registry size is broadcast. */
    method Connect(id: string) returns (p: Player)
      requires Valid()
      requires forall q | q in players :: q.id != id
      modifies this`players, this`log, this`all
      ensures Valid()
      ensures fresh(p) && p.id == id && p.name == "" && p.state == Uninitialized
      ensures p.opponent == null && p.cards == [] && p.counter == null
      ensures players == old(players) + [p]
      ensures log == old(log) + [M.Sent(p, M.Connect(id))] + M.PlayersListMsgs(players, |players|)
    {
      p := new Player(id);
      players := players + [p];
      all := all + {p};
      Post([M.Sent(p, M.Connect(p.id))]);
      BroadcastPlayersList();
    }

    /** The `close` handler: the opponent is told, the player leaves the
        registry, the new size is broadcast. No reference to the player is
        cleared and its countdown is not stopped. */
    method Close(p: Player)
      requires Valid() && p in players
      modifies this`players, this`log
      ensures Valid()
      ensures players == RemoveById(old(players), p.id) && p !in players
      ensures var k := FindById(old(players), p.id);
        k < |old(players)| && old(players)[k] == p && players == old(players)[..k] + old(players)[k + 1..]
      ensures |players| == |old(players)| - 1
      ensures log == old(log) + (if p.opponent == null then [] else [M.Sent(p.opponent, M.Resigned)]) +
                     M.PlayersListMsgs(players, |players|)
    {
      var farewell := if p.opponent == null then [] else [M.Sent(p.opponent, M.Resigned)];
      Post(farewell);
      FindByIdMember(players, p);
      RemoveOne(players, p.id);
      RemoveKeepsOrder(players, p.id);
      RemoveKeepsUnique(players, p.id);
      players := RemoveById(players, p.id);
      assert Valid();
      BroadcastPlayersList();
    }

    /** `setOpponent(id)`: the opponent becomes the registry entry with that
        id, or none. */
    method SetOpponent(q: Player, id: string)
      modifies q`opponent
      ensures var k := FindById(players, id);
              q.opponent == if k < |players| then players[k] else null
    {
      var k := FindById(players, id);
      q.opponent := if k < |players| then players[k] else null;
    }

    /** `MatchPlayer`: `p` starts matching and its old opponent loses its
        back-reference; the first other matching player, if any, is paired
        with `p`. With no candidate `p` keeps its old opponent. */
    method MatchPlayer(p: Player)
      requires Valid() && p in players
      modifies p`state, p`opponent, Opponents(p)`opponent, players`state, players`opponent, this`log
      ensures Valid()
      ensures var k := old(FirstMatching(players, p.id));
        k == |players| ==>
          p.state == Matching && p.opponent == old(p.opponent) && log == old(log) &&
          (old(p.opponent) != null ==>
            old(p.opponent).opponent == null && old(p.opponent).state == old(p.opponent.state))
      ensures var k := old(FirstMatching(players, p.id));
        k < |players| ==>
          var c := players[k];
          c != p && p.state == Matched && c.state == Matched &&
          p.opponent == c && c.opponent == p &&
          (old(p.opponent) != null && old(p.opponent) != c ==>
            old(p.opponent).opponent == null && old(p.opponent).state == old(p.opponent.state)) &&
          log == old(log) + [M.Sent(p, M.NewGame(c.name)), M.Sent(c, M.NewGame(p.name))]
      ensures var k := old(FirstMatching(players, p.id));
        forall q | q in players && q != p && q != old(p.opponent) && (k == |players| || q != players[k]) ::
          q.state == old(q.state) && q.opponent == old(q.opponent)
    {
      ghost var stale := p.opponent;
      assert stale != p;
      p.state := Matching;
      if p.opponent != null {
        p.opponent.opponent := null;
      }
      var k := FirstMatching(players, p.id);
      // The search skips `p` by its id, so `p`'s new state does not move it.
      assert forall j | 0 <= j < |players| && players[j].id != p.id :: players[j].state == old(players[j].state);
      assert k == old(FirstMatching(players, p.id));
      forall q | q in all ensures q.opponent != q {
        if q != p && q != stale {
          assert q.opponent == old(q.opponent);
        }
      }
      if k == |players| {
        return;
      }
      PairWith(p, players[k]);
    }

    /** The pairing half of `MatchPlayer`: both players become `matched`,
        each becomes the other's opponent by a lookup of its id, and each is
        told the other's name. */
    method PairWith(p: Player, c: Player)
      requires Valid() && p in players && c in players && p != c
      modifies p`state, p`opponent, c`state, c`opponent, this`log
      ensures Valid()
      ensures p.state == Matched && c.state == Matched && p.opponent == c && c.opponent == p
      ensures log == old(log) + [M.Sent(p, M.NewGame(c.name)), M.Sent(c, M.NewGame(p.name))]
    {
      p.state := Matched;
      c.state := Matched;
      FindByIdMember(players, c);
      FindByIdMember(players, p);
      SetOpponent(p, c.id);
      SetOpponent(c, p.id);
      forall q | q in all ensures q.opponent != q {
        if q != p && q != c {
          assert q.opponent == old(q.opponent);
        }
      }
      Post([M.Sent(p, M.NewGame(c.name)), M.Sent(c, M.NewGame(p.name))]);
    }

    /** `updateCards(p, display)`: each of the pair sees its own hand, and
        the other's when `display`. */
    method UpdateCards(p: Player, display: bool)
      modifies this`log
      ensures log == old(log) + UpdateMsgs(p, display)
    {
      if p.opponent == null {
        return;
      }
      var o: Player := p.opponent;
      Post(M.CardsUpdateMsgs(p, o, p.cards, o.cards, display));
    }

    /** `switchTurn(p, turn)`: `p` is told `turn`, its opponent `!turn`,
        and nobody else's view of the turn changes. */
    method SwitchTurn(p: Player, turn: bool)
      requires Valid() && p in all
      modifies this`log
      ensures log == old(log) + SwitchMsgs(p, turn)
      ensures p.opponent != null ==>
        M.LastTurn(log, p) == Some(turn) && M.LastTurn(log, p.opponent) == Some(!turn)
      ensures forall q: Player | q != p && q != p.opponent :: M.LastTurn(log, q) == M.LastTurn(old(log), q)
    {
      if p.opponent == null {
        return;
      }
      var o: Player := p.opponent;
      var msgs := M.SwitchTurnMsgs(p, o, turn, p.name, o.name);
      Post(msgs);
      M.SwitchTurnTellsBoth(p, o, turn, p.name, o.name, p);
      M.TakesLastTurn(old(log), msgs, p, turn);
      M.TakesLastTurn(old(log), msgs, o, !turn);
      forall q: Player | q != p && q != o
        ensures M.LastTurn(log, q) == M.LastTurn(old(log), q)
      {
        M.SwitchTurnTellsBoth(p, o, turn, p.name, o.name, q);
        M.KeepsTurn(old(log), msgs, q);
      }
    }

    /** `checkGuess(p, index, guess)`: a guess that names the card at
        `index` of the opponent's hand shows that card and nothing else; a
        wrong guess changes no card. Neither tells anyone whose turn it is. */
    method CheckGuess(p: Player, index: int, guess: int)
      requires Valid() && p in all
      requires p.opponent != null ==> 0 <= index < |p.opponent.cards|
      modifies Opponents(p)`cards, this`log
      ensures p.opponent == null ==> log == old(log)
      ensures p.opponent != null && guess == old(p.opponent.cards[index].value) ==>
        p.opponent.cards == Reveal(old(p.opponent.cards), index) &&
        log == old(log) + M.CorrectGuessMsgs(p, p.opponent, p.cards, p.opponent.cards, p.name)
      ensures p.opponent != null && guess != old(p.opponent.cards[index].value) ==>
        p.opponent.cards == old(p.opponent.cards) &&
        log == old(log) + M.WrongGuessMsgs(p, p.opponent, guess, p.name)
      ensures forall q: Player :: M.LastTurn(log, q) == M.LastTurn(old(log), q)
    {
      if p.opponent == null {
        return;
      }
      var o: Player := p.opponent;
      var msgs;
      if guess == o.cards[index].value {
        o.cards := Reveal(o.cards, index);
        msgs := M.CorrectGuessMsgs(p, o, p.cards, o.cards, p.name);
      } else {
        msgs := M.WrongGuessMsgs(p, o, guess, p.name);
      }
      Post(msgs);
      forall q: Player ensures M.LastTurn(log, q) == M.LastTurn(old(log), q) {
        M.GuessKeepsTurn(p, o, p.cards, o.cards, guess, p.name, q);
        M.KeepsTurn(old(log), msgs, q);
      }
    }

    /** `punish(p, index)`: revealing an already shown card does nothing at
        all; otherwise exactly that card is shown, both players see the
        hands, and the turn passes to the opponent. */
    method Punish(p: Player, index: int)
      requires Valid() && p in all
      requires 0 <= index < |p.cards|
      modifies p`cards, this`log
      ensures old(p.cards[index].show) != 0 ==> p.cards == old(p.cards) && log == old(log)
      ensures old(p.cards[index].show) == 0 ==>
        p.cards == Reveal(old(p.cards), index) &&
        log == old(log) + UpdateMsgs(p, true) + SwitchMsgs(p, false)
      ensures old(p.cards[index].show) == 0 && p.opponent != null ==>
        M.LastTurn(log, p) == Some(false) && M.LastTurn(log, p.opponent) == Some(true)
    {
      if p.cards[index].show != 0 {
        return;
      }
      p.cards := Reveal(p.cards, index);
      UpdateCards(p, true);
      SwitchTurn(p, false);
    }

    /** `checkGameover(p)`: nothing without an opponent; otherwise the check
        of `p`'s hand and then the check of the opponent's, each of which,
        when the hand is all shown, names the winner and ends the game. */
    method CheckGameover(p: Player)
      requires GameoverSafe(p)
      modifies this`log
      ensures p.opponent == null ==> log == old(log)
      ensures log == old(log) + GameoverLog(p)
      ensures p.opponent != null && p.opponent.opponent == p ==>
        log == old(log) + M.CheckGameoverMsgs(p, p.opponent, p, AllUnfolded(p.cards), AllUnfolded(p.opponent.cards))
      ensures forall q: Player :: M.LastTurn(log, q) == M.LastTurn(old(log), q)
    {
      if p.opponent != null {
        var o: Player := p.opponent;
        if AllUnfolded(p.cards) {
          var loser: Player := o.opponent;
          Post(M.ResultMsgs(o, loser));
          Post(M.GameoverMsgs(p, o));
        }
        if AllUnfolded(o.cards) {
          Post(M.ResultMsgs(p, o));
          Post(M.GameoverMsgs(p, o));
        }
      }
      assert log == old(log) + GameoverLog(p);
      forall q: Player ensures M.LastTurn(log, q) == M.LastTurn(old(log), q) {
        GameoverKeepsTurn(p, q);
        M.KeepsTurn(old(log), GameoverLog(p), q);
      }
    }

    /** `Resign(p)`: `p` goes back to uninitialized with no opponent and its
        interval stopped; the opponent is told, loses its back-reference and
        has its interval stopped, but keeps its state. */
    method Resign(p: Player)
      requires Valid() && p in all
      modifies p`state, p`opponent, Opponents(p)`opponent, Counters(p)`clock, this`log
      ensures Valid()
      ensures p.state == Uninitialized && p.opponent == null
      ensures old(p.opponent) == null ==> log == old(log)
      ensures old(p.opponent) != null ==>
        old(p.opponent).opponent == null && log == old(log) + [M.Sent(old(p.opponent), M.Resigned)]
      ensures forall c | c in old(Counters(p)) :: c.clock == old(c.clock).(active := false)
    {
      var o := p.opponent;
      p.state := Uninitialized;
      p.opponent := null;
      if p.counter != null {
        p.counter.clock := p.counter.clock.(active := false);
      }
      if o != null {
        Post([M.Sent(o, M.Resigned)]);
        o.opponent := null;
        if o.counter != null {
          o.counter.clock := o.counter.clock.(active := false);
        }
      }
    }

    /** One call of `_countDown`: the hint with the seconds left goes to
        both captured players; on the call that brings the seconds to zero
        the interval is cleared, the reorder window closed and both hands
        shown to both. The turn draw that follows is made by `Tick`. */
    method CountDown(c: Countdown) returns (fired: bool)
      requires c.clock.active
      modifies c`clock, this`log
      ensures c.clock == Step(old(c.clock))
      ensures fired <==> Fires(old(c.clock))
      ensures log == old(log) + M.ReorderHintMsgs(c.player, c.opponent, old(c.clock.seconds)) +
        (if fired then M.AllowReorderMsgs(c.player, c.opponent, false) + UpdateMsgs(c.player, true) else [])
    {
      Post(M.ReorderHintMsgs(c.player, c.opponent, c.clock.seconds));
      c.clock := c.clock.(seconds := c.clock.seconds - 1);
      fired := c.clock.seconds == 0;
      if fired {
        c.clock := c.clock.(active := false);
        Post(M.AllowReorderMsgs(c.player, c.opponent, false));
        UpdateCards(c.player, true);
      }
    }

    /** The interval firing with `Math.random()` returning `r`: nothing once
        cleared; otherwise one countdown call, and on the last one the turn
        goes to the dealing player when `r > 0.5`. */
    method Tick(c: Countdown, r: real)
      requires Valid() && c.player in all
      requires 0.0 <= r < 1.0
      modifies c`clock, this`log
      ensures !old(c.clock.active) ==> c.clock == old(c.clock) && log == old(log)
      ensures old(c.clock.active) ==> c.clock == Step(old(c.clock))
      ensures old(c.clock.active) && !old(Fires(c.clock)) ==>
        log == old(log) + M.ReorderHintMsgs(c.player, c.opponent, old(c.clock.seconds))
      ensures old(Fires(c.clock)) ==>
        log == old(log) + M.ReorderHintMsgs(c.player, c.opponent, old(c.clock.seconds)) +
               M.AllowReorderMsgs(c.player, c.opponent, false) + UpdateMsgs(c.player, true) +
               SwitchMsgs(c.player, r > 0.5)
      ensures old(Fires(c.clock)) && c.player.opponent != null ==>
        M.LastTurn(log, c.player) == Some(r > 0.5) && M.LastTurn(log, c.player.opponent) == Some(r <= 0.5)
    {
      if !c.clock.active {
        return;
      }
      var fired := CountDown(c);
      if fired {
        SwitchTurn(c.player, r > 0.5);
      }
    }

    /** `specialCardsreorder(p)`: the reorder window opens for both, the
        countdown starts with one call made at once, and both players'
        `counter` refer to it. */
    method SpecialCardsReorder(p: Player)
      modifies p`counter, Opponents(p)`counter, this`log
      ensures p.opponent == null ==> p.counter == old(p.counter) && log == old(log)
      ensures p.opponent != null ==>
        p.counter != null && fresh(p.counter) && p.opponent.counter == p.counter &&
        p.counter.player == p && p.counter.opponent == p.opponent &&
        p.counter.clock == Run(Start(), 1) &&
        log == old(log) + M.AllowReorderMsgs(p, p.opponent, true) + M.ReorderHintMsgs(p, p.opponent, ReorderSeconds)
    {
      if p.opponent == null {
        return;
      }
      var o: Player := p.opponent;
      Post(M.AllowReorderMsgs(p, o, true));
      var c := new Countdown(p, o);
      var fired := CountDown(c);
      p.counter := c;
      o.counter := c;
    }

    /** The second half of `DealCards(p)`, once both hands are dealt: the
        hands are shown to their owners, both selections are cleared, the
        reorder countdown starts and both players are playing. */
    method StartRound(p: Player)
      requires p.opponent != null && p.opponent != p
      modifies p`state, p`counter, Opponents(p)`state, Opponents(p)`counter, this`log
      ensures p.opponent == old(p.opponent)
      ensures var o := p.opponent;
        p.state == Playing && o.state == Playing &&
        p.counter != null && fresh(p.counter) && o.counter == p.counter &&
        p.counter.player == p && p.counter.opponent == o &&
        p.counter.clock == Run(Start(), 1) &&
        log == old(log) + M.DealtMsgs(p, o, p.cards, o.cards, ReorderSeconds)
    {
      var o: Player := p.opponent;
      UpdateCards(p, false);
      Post([M.Sent(p, M.SelectCard(M.NoSelection)), M.Sent(o, M.SelectCard(M.NoSelection))]);
      ghost var handed := log;
      SpecialCardsReorder(p);
      assert log == handed + M.AllowReorderMsgs(p, o, true) + M.ReorderHintMsgs(p, o, ReorderSeconds);
      p.state := Playing;
      o.state := Playing;
    }

    /** `DealCards(p)`: once both players are ready, the shuffled deck's
        first ten cards go to `p` and the next ten to the opponent, each
        hand sorted; then the round starts. */
    method DealCards(p: Player, draws: Draws)
      requires Valid() && p in all && ValidDraws(draws)
      modifies p`cards, p`state, p`counter, Opponents(p)`cards, Opponents(p)`state, Opponents(p)`counter, this`log
      ensures Valid()
      ensures old(p.opponent == null || p.opponent.state != Ready) ==>
        log == old(log) && unchanged(p) && unchanged(Opponents(p))
      ensures old(p.opponent != null && p.opponent.state == Ready) ==>
        var o := p.opponent;
        (p.cards, o.cards) == DealtHands(draws.deck, draws.first, draws.second) &&
        p.state == Playing && o.state == Playing &&
        p.counter != null && fresh(p.counter) && o.counter == p.counter &&
        p.counter.player == p && p.counter.opponent == o &&
        p.counter.clock == Run(Start(), 1) &&
        log == old(log) + M.DealtMsgs(p, o, p.cards, o.cards, ReorderSeconds)
    {
      if p.opponent == null || p.opponent.state != Ready {
        return;
      }
      var o: Player := p.opponent;
      var h1, h2 := DealHands(draws.deck, draws.first, draws.second);
      p.cards := h1;
      o.cards := h2;
      StartRound(p);
    }

    /** `join`: the player takes its name, is told it is matching, and is
        matched if anyone else is waiting. */
    method OnJoin(p: Player, name: string)
      requires Valid() && p in players
      modifies p`name, p`state, p`opponent, Opponents(p)`opponent, players`state, players`opponent, this`log
      ensures Valid()
      ensures var k := old(FirstMatching(players, p.id));
        p.name == name &&
        (k == |players| ==> p.state == Matching && log == old(log) + [M.Sent(p, M.MatchingPlayer)]) &&
        (k < |players| ==>
          var c := players[k];
          p.state == Matched && c.state == Matched && p.opponent == c && c.opponent == p &&
          log == old(log) + [M.Sent(p, M.MatchingPlayer), M.Sent(p, M.NewGame(c.name)), M.Sent(c, M.NewGame(name))])
      ensures var k := old(FirstMatching(players, p.id));
        (k == |players| ==> p.opponent == old(p.opponent)) &&
        (old(p.opponent) != null && (k == |players| || old(p.opponent) != players[k]) ==>
          old(p.opponent).opponent == null && old(p.opponent).state == old(p.opponent.state))
      ensures var k := old(FirstMatching(players, p.id));
        forall q | q in players && q != p && q != old(p.opponent) && (k == |players| || q != players[k]) ::
          q.state == old(q.state) && q.opponent == old(q.opponent)
    {
      ghost var k := FirstMatching(players, p.id);
      p.name := name;
      // Naming `p` moves nobody in the search.
      assert forall j | 0 <= j < |players| :: players[j].state == old(players[j].state);
      assert FirstMatching(players, p.id) == k;
      Post([M.Sent(p, M.MatchingPlayer)]);
      MatchPlayer(p);
    }

    /** `ready`: with an opponent, the player is ready, both are told, and
        the cards are dealt if the opponent is ready too; without one, the
        player is told the opponent left. */
    method OnReady(p: Player, draws: Draws)
      requires Valid() && p in all && ValidDraws(draws)
      modifies p`cards, p`state, p`counter, Opponents(p)`cards, Opponents(p)`state, Opponents(p)`counter, this`log
      ensures Valid()
      ensures old(p.opponent) == null ==>
        p.state == old(p.state) && p.cards == old(p.cards) && p.counter == old(p.counter) &&
        log == old(log) + [M.Sent(p, M.HintUpdate(M.OpponentLeft))]
      ensures old(p.opponent) != null ==>
        var o: Player := old(p.opponent);
        var ready := [M.Sent(p, M.HintUpdate(M.ReadyHint)), M.Sent(o, M.HintUpdate(M.OpponentReady(p.name)))];
        p.opponent == o &&
        (old(o.state) != Ready ==>
          p.state == Ready && log == old(log) + ready &&
          p.cards == old(p.cards) && o.cards == old(o.cards) && o.state == old(o.state) &&
          p.counter == old(p.counter) && o.counter == old(o.counter)) &&
        (old(o.state) == Ready ==>
          (p.cards, o.cards) == DealtHands(draws.deck, draws.first, draws.second) &&
          p.state == Playing && o.state == Playing &&
          p.counter != null && fresh(p.counter) && o.counter == p.counter &&
          p.counter.player == p && p.counter.opponent == o && p.counter.clock == Run(Start(), 1) &&
          log == old(log) + ready + M.DealtMsgs(p, o, p.cards, o.cards, ReorderSeconds))
    {
      if p.opponent != null {
        var o: Player := p.opponent;
        p.state := Ready;
        Post([M.Sent(p, M.HintUpdate(M.ReadyHint)), M.Sent(o, M.HintUpdate(M.OpponentReady(p.name)))]);
        DealCards(p, draws);
      } else {
        Post([M.Sent(p, M.HintUpdate(M.OpponentLeft))]);
      }
    }

    /** `play`: the guess is checked, then the end of the game. Nobody is
        told whose turn it is, so the turn stays with the guesser. */
    method OnPlay(p: Player, index: int, guess: int)
      requires Valid() && p in all
      requires p.opponent != null ==> 0 <= index < |p.opponent.cards| && GameoverSafe(p)
      modifies Opponents(p)`cards, this`log
      ensures old(p.opponent) == null ==> log == old(log)
      ensures old(p.opponent) != null ==>
        var o: Player := old(p.opponent);
        var right := guess == old(o.cards[index].value);
        p.opponent == o &&
        o.cards == (if right then Reveal(old(o.cards), index) else old(o.cards)) &&
        GameoverSafe(p) &&
        log == old(log) +
          (if right then M.CorrectGuessMsgs(p, o, p.cards, o.cards, p.name) else M.WrongGuessMsgs(p, o, guess, p.name)) +
          GameoverLog(p)
      ensures forall q: Player :: M.LastTurn(log, q) == M.LastTurn(old(log), q)
    {
      CheckGuess(p, index, guess);
      ghost var guessed := log;
      CheckGameover(p);
      if p.opponent != null {
        var o: Player := p.opponent;
        forall q: Player ensures M.LastTurn(log, q) == M.LastTurn(old(log), q) {
          M.GuessKeepsTurn(p, o, p.cards, o.cards, guess, p.name, q);
          M.KeepsTurn(old(log), guessed[|old(log)|..], q);
          GameoverKeepsTurn(p, q);
          M.KeepsTurn(guessed, GameoverLog(p), q);
        }
      }
    }

    /** `punish`: the player reveals one of its own cards, then the end of
        the game is checked. */
    method OnPunish(p: Player, index: int)
      requires Valid() && p in all
      requires 0 <= index < |p.cards|
      requires p.opponent != null ==>
        |p.opponent.cards| > 0 && (AllUnfolded(Punished(p.cards, index)) ==> p.opponent.opponent != null)
      modifies p`cards, this`log
      ensures p.cards == Punished(old(p.cards), index) && GameoverSafe(p)
      ensures log == old(log) +
        (if old(p.cards[index].show) != 0 then [] else UpdateMsgs(p, true) + SwitchMsgs(p, false)) +
        GameoverLog(p)
      ensures old(p.cards[index].show) == 0 && p.opponent != null ==>
        M.LastTurn(log, p) == Some(false) && M.LastTurn(log, p.opponent) == Some(true)
    {
      Punish(p, index);
      assert p.cards == Punished(old(p.cards), index);
      assert GameoverSafe(p);
      ghost var sent := if old(p.cards[index].show) != 0 then [] else UpdateMsgs(p, true) + SwitchMsgs(p, false);
      ghost var punished := log;
      assert punished == old(log) + sent;
      CheckGameover(p);
      assert sent == if old(p.cards[index].show) != 0 then [] else UpdateMsgs(p, true) + SwitchMsgs(p, false);
      if p.opponent != null {
        var o: Player := p.opponent;
        GameoverKeepsTurn(p, p);
        M.KeepsTurn(punished, GameoverLog(p), p);
        GameoverKeepsTurn(p, o);
        M.KeepsTurn(punished, GameoverLog(p), o);
      }
    }

    /** The routes that pair players and set up a round: `join`, `ready`,
        `on_reorder` and `resign`. */
    method DispatchPairing(p: Player, a: Request, draws: Draws)
      requires Valid() && p in players && ValidDraws(draws)
      requires Handles(p, a)
      requires a.Join? || (p.state != Uninitialized && (a.ReadyUp? || a.OnReorder? || a.Resignation?))
      modifies this`log, p, Opponents(p), players`state, players`opponent, Counters(p)`clock
      ensures Valid()
      ensures a.Join? ==>
        var k := old(FirstMatching(players, p.id));
        p.name == a.name &&
        (k == |players| ==> p.state == Matching && log == old(log) + [M.Sent(p, M.MatchingPlayer)]) &&
        (k < |players| ==>
          var c := players[k];
          p.state == Matched && c.state == Matched && p.opponent == c && c.opponent == p &&
          log == old(log) + [M.Sent(p, M.MatchingPlayer), M.Sent(p, M.NewGame(c.name)), M.Sent(c, M.NewGame(a.name))])
      ensures a.Join? ==>
        var k := old(FirstMatching(players, p.id));
        (k == |players| ==> p.opponent == old(p.opponent)) &&
        (old(p.opponent) != null && (k == |players| || old(p.opponent) != players[k]) ==>
          old(p.opponent).opponent == null && old(p.opponent).state == old(p.opponent.state)) &&
        forall q | q in players && q != p && q != old(p.opponent) && (k == |players| || q != players[k]) ::
          q.state == old(q.state) && q.opponent == old(q.opponent)
      ensures old(p.state) != Uninitialized && a.ReadyUp? && old(p.opponent) == null ==>
        p.state == old(p.state) && p.cards == old(p.cards) && p.counter == old(p.counter) &&
        log == old(log) + [M.Sent(p, M.HintUpdate(M.OpponentLeft))]
      ensures old(p.state) != Uninitialized && a.ReadyUp? && old(p.opponent) != null ==>
        var o: Player := old(p.opponent);
        var ready := [M.Sent(p, M.HintUpdate(M.ReadyHint)), M.Sent(o, M.HintUpdate(M.OpponentReady(p.name)))];
        p.opponent == o &&
        (old(o.state) != Ready ==>
          p.state == Ready && log == old(log) + ready &&
          p.cards == old(p.cards) && o.cards == old(o.cards) && o.state == old(o.state) &&
          p.counter == old(p.counter) && o.counter == old(o.counter)) &&
        (old(o.state) == Ready ==>
          (p.cards, o.cards) == DealtHands(draws.deck, draws.first, draws.second) &&
          p.state == Playing && o.state == Playing &&
          p.counter != null && fresh(p.counter) && o.counter == p.counter &&
          p.counter.player == p && p.counter.opponent == o && p.counter.clock == Run(Start(), 1) &&
          log == old(log) + ready + M.DealtMsgs(p, o, p.cards, o.cards, ReorderSeconds))
      ensures old(p.state) != Uninitialized && a.OnReorder? ==> p.cards == a.cards && log == old(log)
      ensures old(p.state) != Uninitialized && a.Resignation? ==>
        p.state == Uninitialized && p.opponent == null &&
        (old(p.opponent) == null ==> log == old(log)) &&
        (old(p.opponent) != null ==>
          old(p.opponent).opponent == null && log == old(log) + [M.Sent(old(p.opponent), M.Resigned)]) &&
        forall c | c in old(Counters(p)) :: c.clock == old(c.clock).(active := false)
      // Which routes may change which field: every other route keeps it.
      ensures p.name == if a.Join? then a.name else old(p.name)
      ensures !(a.Join? || a.ReadyUp? || a.Resignation?) ==> p.state == old(p.state)
      ensures !(a.Join? || a.Resignation?) ==> p.opponent == old(p.opponent)
      ensures !(a.ReadyUp? || a.OnReorder? || a.TakePunishment?) ==> p.cards == old(p.cards)
      ensures !a.ReadyUp? ==> p.counter == old(p.counter)
      ensures var o := old(p.opponent);
        o != null ==>
          o.name == old(o.name) &&
          (!(a.Join? || a.ReadyUp?) ==> o.state == old(o.state)) &&
          (!(a.Join? || a.Resignation?) ==> o.opponent == old(o.opponent)) &&
          (!(a.ReadyUp? || a.Play?) ==> o.cards == old(o.cards)) &&
          (!a.ReadyUp? ==> o.counter == old(o.counter))
      ensures !a.Join? ==>
        forall q | q in players && q != p && q != old(p.opponent) :: q.state == old(q.state) && q.opponent == old(q.opponent)
      ensures !a.Resignation? ==> forall c | c in old(Counters(p)) :: c.clock == old(c.clock)

    {
      if a.Join? {
        OnJoin(p, a.name);
      } else if a.ReadyUp? {
        OnReady(p, draws);
      } else if a.OnReorder? {
        p.cards := a.cards;
      } else {
        Resign(p);
      }
    }

    /** The routes of a round in progress: `play`, `select_card`, `punish`,
        `skip`, and an action the switch does not know. */
    method DispatchGame(p: Player, a: Request, draws: Draws)
      requires Valid() && p in players && ValidDraws(draws)
      requires Handles(p, a)
      requires p.state != Uninitialized && (a.Play? || a.Select? || a.TakePunishment? || a.SkipRound? || a.Unrecognized?)
      modifies this`log, p, Opponents(p), players`state, players`opponent, Counters(p)`clock
      ensures Valid()
      ensures old(p.state) != Uninitialized && a.Play? && old(p.opponent) == null ==> log == old(log)
      ensures old(p.state) != Uninitialized && a.Play? && old(p.opponent) != null ==>
        var o: Player := old(p.opponent);
        var right := a.guess == old(o.cards[a.index].value);
        p.opponent == o &&
        o.cards == (if right then Reveal(old(o.cards), a.index) else old(o.cards)) &&
        GameoverSafe(p) &&
        log == old(log) +
          (if right then M.CorrectGuessMsgs(p, o, p.cards, o.cards, p.name) else M.WrongGuessMsgs(p, o, a.guess, p.name)) +
          GameoverLog(p)
      ensures old(p.state) != Uninitialized && a.Play? ==>
        forall q: Player :: M.LastTurn(log, q) == M.LastTurn(old(log), q)
      ensures old(p.state) != Uninitialized && a.Select? ==>
        log == old(log) + (if p.opponent == null then [] else [M.Sent(p.opponent, M.SelectCard(a.data))])
      ensures old(p.state) != Uninitialized && a.TakePunishment? ==>
        p.cards == Punished(old(p.cards), a.index) && GameoverSafe(p) &&
        log == old(log) +
          (if old(p.cards[a.index].show) != 0 then [] else UpdateMsgs(p, true) + SwitchMsgs(p, false)) +
          GameoverLog(p)
      ensures old(p.state) != Uninitialized && a.TakePunishment? && old(p.cards[a.index].show) == 0 && p.opponent != null ==>
        M.LastTurn(log, p) == Some(false) && M.LastTurn(log, p.opponent) == Some(true)
      ensures old(p.state) != Uninitialized && a.SkipRound? ==> log == old(log) + SwitchMsgs(p, false)
      ensures old(p.state) != Uninitialized && a.SkipRound? && p.opponent != null ==>
        M.LastTurn(log, p) == Some(false) && M.LastTurn(log, p.opponent) == Some(true)
      ensures a.Unrecognized? ==>
        log == old(log) && unchanged(p) && unchanged(old(Opponents(p))) && unchanged(old(Counters(p))) &&
        forall q | q in players :: unchanged(q)
      // A round in progress changes no player's name, state, opponent or
      // countdown; only `play` and `punish` change cards.
      ensures p.name == old(p.name) && p.state == old(p.state) && p.opponent == old(p.opponent)
      ensures !a.TakePunishment? ==> p.cards == old(p.cards)
      ensures p.counter == old(p.counter)
      ensures var o := old(p.opponent);
        o != null ==>
          o.name == old(o.name) && o.state == old(o.state) && o.opponent == old(o.opponent) &&
          (!a.Play? ==> o.cards == old(o.cards)) && o.counter == old(o.counter)
      ensures forall q | q in players && q != p && q != old(p.opponent) :: q.state == old(q.state) && q.opponent == old(q.opponent)
      ensures forall c | c in old(Counters(p)) :: c.clock == old(c.clock)
    {
      if a.Play? {
        OnPlay(p, a.index, a.guess);
      } else if a.Select? {
        if p.opponent != null {
          var o: Player := p.opponent;
          Post([M.Sent(o, M.SelectCard(a.data))]);
        }
      } else if a.TakePunishment? {
        OnPunish(p, a.index);
      } else if a.SkipRound? {
        SwitchTurn(p, false);
      }
    }

    /** The message handler: the gate, then the action. */
    method Dispatch(p: Player, a: Request, draws: Draws)
      requires Valid() && p in players && ValidDraws(draws)
      requires Handles(p, a)
      modifies this`log, p, Opponents(p), players`state, players`opponent, Counters(p)`clock
      ensures Valid()
      ensures old(p.state) == Uninitialized && !a.Join? ==>
        log == old(log) && unchanged(p) && unchanged(old(Opponents(p))) && unchanged(old(Counters(p))) &&
        forall q | q in players :: unchanged(q)
      ensures a.Join? ==>
        var k := old(FirstMatching(players, p.id));
        p.name == a.name &&
        (k == |players| ==> p.state == Matching && log == old(log) + [M.Sent(p, M.MatchingPlayer)]) &&
        (k < |players| ==>
          var c := players[k];
          p.state == Matched && c.state == Matched && p.opponent == c && c.opponent == p &&
          log == old(log) + [M.Sent(p, M.MatchingPlayer), M.Sent(p, M.NewGame(c.name)), M.Sent(c, M.NewGame(a.name))])
      ensures a.Join? ==>
        var k := old(FirstMatching(players, p.id));
        (k == |players| ==> p.opponent == old(p.opponent)) &&
        (old(p.opponent) != null && (k == |players| || old(p.opponent) != players[k]) ==>
          old(p.opponent).opponent == null && old(p.opponent).state == old(p.opponent.state)) &&
        forall q | q in players && q != p && q != old(p.opponent) && (k == |players| || q != players[k]) ::
          q.state == old(q.state) && q.opponent == old(q.opponent)
      ensures old(p.state) != Uninitialized && a.ReadyUp? && old(p.opponent) == null ==>
        p.state == old(p.state) && p.cards == old(p.cards) && p.counter == old(p.counter) &&
        log == old(log) + [M.Sent(p, M.HintUpdate(M.OpponentLeft))]
      ensures old(p.state) != Uninitialized && a.ReadyUp? && old(p.opponent) != null ==>
        var o: Player := old(p.opponent);
        var ready := [M.Sent(p, M.HintUpdate(M.ReadyHint)), M.Sent(o, M.HintUpdate(M.OpponentReady(p.name)))];
        p.opponent == o &&
        (old(o.state) != Ready ==>
          p.state == Ready && log == old(log) + ready &&
          p.cards == old(p.cards) && o.cards == old(o.cards) && o.state == old(o.state) &&
          p.counter == old(p.counter) && o.counter == old(o.counter)) &&
        (old(o.state) == Ready ==>
          (p.cards, o.cards) == DealtHands(draws.deck, draws.first, draws.second) &&
          p.state == Playing && o.state == Playing &&
          p.counter != null && fresh(p.counter) && o.counter == p.counter &&
          p.counter.player == p && p.counter.opponent == o && p.counter.clock == Run(Start(), 1) &&
          log == old(log) + ready + M.DealtMsgs(p, o, p.cards, o.cards, ReorderSeconds))
      ensures old(p.state) != Uninitialized && a.OnReorder? ==> p.cards == a.cards && log == old(log)
      ensures old(p.state) != Uninitialized && a.Resignation? ==>
        p.state == Uninitialized && p.opponent == null &&
        (old(p.opponent) == null ==> log == old(log)) &&
        (old(p.opponent) != null ==>
          old(p.opponent).opponent == null && log == old(log) + [M.Sent(old(p.opponent), M.Resigned)]) &&
        forall c | c in old(Counters(p)) :: c.clock == old(c.clock).(active := false)
      ensures old(p.state) != Uninitialized && a.Play? && old(p.opponent) == null ==> log == old(log)
      ensures old(p.state) != Uninitialized && a.Play? && old(p.opponent) != null ==>
        var o: Player := old(p.opponent);
        var right := a.guess == old(o.cards[a.index].value);
        p.opponent == o &&
        o.cards == (if right then Reveal(old(o.cards), a.index) else old(o.cards)) &&
        GameoverSafe(p) &&
        log == old(log) +
          (if right then M.CorrectGuessMsgs(p, o, p.cards, o.cards, p.name) else M.WrongGuessMsgs(p, o, a.guess, p.name)) +
          GameoverLog(p)
      ensures old(p.state) != Uninitialized && a.Play? ==>
        forall q: Player :: M.LastTurn(log, q) == M.LastTurn(old(log), q)
      ensures old(p.state) != Uninitialized && a.Select? ==>
        log == old(log) + (if p.opponent == null then [] else [M.Sent(p.opponent, M.SelectCard(a.data))])
      ensures old(p.state) != Uninitialized && a.TakePunishment? ==>
        p.cards == Punished(old(p.cards), a.index) && GameoverSafe(p) &&
        log == old(log) +
          (if old(p.cards[a.index].show) != 0 then [] else UpdateMsgs(p, true) + SwitchMsgs(p, false)) +
          GameoverLog(p)
      ensures old(p.state) != Uninitialized && a.TakePunishment? && old(p.cards[a.index].show) == 0 && p.opponent != null ==>
        M.LastTurn(log, p) == Some(false) && M.LastTurn(log, p.opponent) == Some(true)
      ensures old(p.state) != Uninitialized && a.SkipRound? ==> log == old(log) + SwitchMsgs(p, false)
      ensures old(p.state) != Uninitialized && a.SkipRound? && p.opponent != null ==>
        M.LastTurn(log, p) == Some(false) && M.LastTurn(log, p.opponent) == Some(true)
      ensures a.Unrecognized? ==>
        log == old(log) && unchanged(p) && unchanged(old(Opponents(p))) && unchanged(old(Counters(p))) &&
        forall q | q in players :: unchanged(q)
      // Which routes may change which field: every other route keeps it.
      ensures p.name == if a.Join? then a.name else old(p.name)
      ensures !(a.Join? || a.ReadyUp? || a.Resignation?) ==> p.state == old(p.state)
      ensures !(a.Join? || a.Resignation?) ==> p.opponent == old(p.opponent)
      ensures !(a.ReadyUp? || a.OnReorder? || a.TakePunishment?) ==> p.cards == old(p.cards)
      ensures !a.ReadyUp? ==> p.counter == old(p.counter)
      ensures var o := old(p.opponent);
        o != null ==>
          o.name == old(o.name) &&
          (!(a.Join? || a.ReadyUp?) ==> o.state == old(o.state)) &&
          (!(a.Join? || a.Resignation?) ==> o.opponent == old(o.opponent)) &&
          (!(a.ReadyUp? || a.Play?) ==> o.cards == old(o.cards)) &&
          (!a.ReadyUp? ==> o.counter == old(o.counter))
      ensures !a.Join? ==>
        forall q | q in players && q != p && q != old(p.opponent) :: q.state == old(q.state) && q.opponent == old(q.opponent)
      ensures !a.Resignation? ==> forall c | c in old(Counters(p)) :: c.clock == old(c.clock)

    {
      if !a.Join? && p.state == Uninitialized {
        return;
      }
      if a.Join? || a.ReadyUp? || a.OnReorder? || a.Resignation? {
        DispatchPairing(p, a, draws);
      } else {
        DispatchGame(p, a, draws);
      }
    }
  }
}
