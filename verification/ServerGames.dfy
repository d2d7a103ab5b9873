/** Whole games inside runs of the server. */
module ServerGames {
  import opened Protocol
  import opened ServerSpec
  import R = RoomInvariant
  import Runs
  import opened TurnOrder
  import TurnHistory
  import Scores
  import Termination
  import ServerRuns

  /** Slot i waits at first, keeps having players, and plays a game: what happens in
      it is a game of a room alone. */
  ghost predicate GameAt(v: ServerView, t: nat, es: seq<Event>, i: nat) {
    && Inv(v, t) && ServerRuns.Playable(v, t, es) && i < MAX_ROOMS && ServerRuns.Occupied(v, t, es, i)
    && Runs.Game(v.lobby.rooms[i], t, ServerRuns.RoomEvents(v, t, es, i))
  }

  /** Nobody returns to the room. */
  ghost predicate NoReturnAt(v: ServerView, t: nat, es: seq<Event>, i: nat)
    requires GameAt(v, t, es, i)
  {
    Runs.WithoutRejoin(ServerRuns.RoomEvents(v, t, es, i))
  }

  /** In every run of the server, and in any of its rooms to which nobody returns: the
      turns follow the seating at the start of the game, nobody draws twice, whoever
      stays draws exactly once, and the scores stay within the rounds. */
  lemma GamesInServer(v: ServerView, t: nat, es: seq<Event>, i: nat)
    requires GameAt(v, t, es, i) && NoReturnAt(v, t, es, i)
    ensures |ServerRuns.Run(v, t, es).lobby.rooms| == MAX_ROOMS
    ensures var r, events := v.lobby.rooms[i], ServerRuns.RoomEvents(v, t, es, i);
            var s := ServerRuns.Run(v, t, es).lobby.rooms[i];
            && TurnHistory.TurnsInOrder(s, TurnHistory.History(r, t, events), Names(Runs.Opening(r, t, events).seats))
            && Scores.ScoresInRange(s, |Runs.Opening(r, t, events).seats|)
  {
    ServerRuns.RoomRunsAlone(v, t, es, i);
    TurnHistory.TurnOrderOfGames(v.lobby.rooms[i], t, ServerRuns.RoomEvents(v, t, es, i));
    Scores.ScoresOfGames(v.lobby.rooms[i], t, ServerRuns.RoomEvents(v, t, es, i));
  }

  /** And with timer rounds a second apart it ends after 91 of them for each player and
      each return. */
  lemma GamesEndInServer(v: ServerView, t: nat, es: seq<Event>, i: nat, last: int)
    requires GameAt(v, t, es, i) && last <= t
    requires Termination.Spaced(last, ServerRuns.RoomEvents(v, t, es, i))
    requires var events := ServerRuns.RoomEvents(v, t, es, i);
             Termination.Ticks(events[1..]) >=
               91 * (|Runs.Opening(v.lobby.rooms[i], t, events).seats| + Termination.Rejoins(events[1..]))
    ensures |ServerRuns.Run(v, t, es).lobby.rooms| == MAX_ROOMS
    ensures ServerRuns.Run(v, t, es).lobby.rooms[i].phase == Ended
  {
    ServerRuns.RoomRunsAlone(v, t, es, i);
    Termination.GamesEnd(v.lobby.rooms[i], t, ServerRuns.RoomEvents(v, t, es, i), last);
  }
}
