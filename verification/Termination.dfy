/** Games end: with ticks at least a second apart, a game that started with n
    players is over after 91 * n ticks, plus 91 for every reconnection. */
module Termination {
  import opened Protocol
  import opened RoomSpec
  import opened TurnOrder
  import opened RoomInvariant
  import opened Runs

  /** Ticks of es come at least 1000 ms after each other and after `last`, the
      time of the tick before es; -1000 stands for none. */
  ghost predicate Spaced(last: int, es: seq<Event>)
    decreases |es|
  {
    es != [] ==>
      && (es[0].TimerTick? ==> last + 1000 <= es[0].now)
      && Spaced(LastTick(last, es[0]), es[1..])
  }

  ghost function LastTick(last: int, e: Event): int {
    if e.TimerTick? then e.now else last
  }

  ghost function Ticks(es: seq<Event>): nat
    decreases |es|
  {
    if es == [] then 0 else (if es[0].TimerTick? then 1 else 0) + Ticks(es[1..])
  }

  ghost function Rejoins(es: seq<Event>): nat
    decreases |es|
  {
    if es == [] then 0 else (if es[0].Rejoin? then 1 else 0) + Rejoins(es[1..])
  }

  /** An upper bound for the ticks a game can still take: the current round ends
      within as many ticks as seconds are left on its timer, or one more if it
      has not seen a tick yet, and each later round within ROUND_TIME + 1. */
  ghost function TicksLeft(r: RoomView, last: int): int {
    if r.phase != Playing then 0
    else (ROUND_TIME + 1) * Undrawn(r.seats) + if r.roundStart <= last then r.timeLeft else ROUND_TIME + 1
  }

  /** The timer shows the seconds left at the last tick of the round. */
  ghost predicate Timed(r: RoomView, last: int) {
    r.phase == Playing && r.roundStart <= last ==> r.timeLeft == ROUND_TIME - (last - r.roundStart) / 1000
  }

  // ----- Single steps -----

  /** Ending a round pays for the next one with a player who has yet to draw. */
  lemma EndRoundCost(r: RoomView, now: nat, word: string, last: int)
    requires RoundReady(r) && 0 <= r.drawer && last <= now
    ensures var s := EndRound(r, now, word);
            && Timed(s, last)
            && TicksLeft(s, last) <= (ROUND_TIME + 1) * Undrawn(r.seats)
            && (last == now && s.phase == Playing ==> TicksLeft(s, last) < (ROUND_TIME + 1) * Undrawn(r.seats))
  {
    NextRound(Send(r, Announce(RoundEnd)), now, word);
  }

  lemma AcceptCost(r: RoomView, t: nat, k: nat, now: nat, word: string, last: int)
    requires Inv(r, t) && last <= now && Timed(r, last)
    requires r.phase == Playing && k < |r.seats| && !r.seats[k].isDrawing
    ensures Timed(AcceptGuess(r, k, now, word), last)
    ensures TicksLeft(AcceptGuess(r, k, now, word), last) <= TicksLeft(r, last)
  {
    AwardKeepsInv(r, t, k);
    var m := Send(r.(seats := r.seats[k := Award(r.seats[k], Points(r.timeLeft))]), Announce(ScoreUpdate));
    if AllSettled(m.seats) {
      EndRoundCost(m, now, word, last);
    }
  }

  lemma ChatCost(r: RoomView, t: nat, k: nat, text: string, now: nat, word: string, last: int)
    requires Inv(r, t) && last <= now && Timed(r, last) && k < |r.seats|
    ensures Timed(Chat(r, k, text, now, word), last)
    ensures TicksLeft(Chat(r, k, text, now, word), last) <= TicksLeft(r, last)
  {
    if r.phase == Playing && !r.seats[k].isDrawing {
      AcceptCost(r, t, k, now, word, last);
    }
  }

  lemma VacateCost(r: RoomView, t: nat, k: nat, last: int)
    requires Inv(r, t) && Timed(r, last) && r.phase == Playing && 3 <= |r.seats| && k < |r.seats|
    ensures Timed(Vacate(r, k), last)
    ensures TicksLeft(Vacate(r, k), last) <= TicksLeft(r, last)
    ensures (ROUND_TIME + 1) * Undrawn(Vacate(r, k).seats) <= TicksLeft(r, last)
  {
    UndrawnRemoveAt(r.seats, k);
  }

  lemma LeaveCost(r: RoomView, t: nat, k: nat, now: nat, word: string, last: int)
    requires Inv(r, t) && last <= now && Timed(r, last) && k < |r.seats|
    ensures Timed(RemoveSeat(r, k, now, word), last)
    ensures TicksLeft(RemoveSeat(r, k, now, word), last) <= TicksLeft(r, last)
  {
    if r.phase == Playing && 3 <= |r.seats| {
      VacateReady(r, t, k);
      VacateCost(r, t, k, last);
      if r.seats[k].isDrawing {
        EndRoundCost(Vacate(r, k), now, word, last);
      }
    }
  }

  lemma SecondsPass(start: nat, last: int, now: nat)
    requires start <= last && last + 1000 <= now
    ensures (now - start) / 1000 >= (last - start) / 1000 + 1
  {
  }

  lemma TickCost(r: RoomView, t: nat, now: nat, word: string, last: int)
    requires Inv(r, t) && t <= now && last <= t && last + 1000 <= now && Timed(r, last) && r.phase == Playing
    ensures Timed(Tick(r, now, word), now)
    ensures TicksLeft(Tick(r, now, word), now) < TicksLeft(r, last)
  {
    if r.roundStart <= last {
      SecondsPass(r.roundStart, last, now);
    }
    if ROUND_TIME - (now - r.roundStart) / 1000 <= 0 {
      EndRoundCost(r.(timeLeft := 0), now, word, now);
    }
  }

  /** Each tick of a running game uses up at least one of the ticks left, only a
      reconnection adds some, and no other step adds any. */
  lemma StepCost(r: RoomView, t: nat, e: Event, last: int)
    requires Inv(r, t) && t <= e.now && Enabled(r, e) && r.phase != Waiting
    requires last <= t && Timed(r, last) && (e.TimerTick? ==> last + 1000 <= e.now)
    ensures var s, last' := Step(r, t, e), LastTick(last, e);
            && Timed(s, last')
            && TicksLeft(s, last') <= TicksLeft(r, last) + (if e.Rejoin? then ROUND_TIME + 1 else 0)
            && (e.TimerTick? && r.phase == Playing ==> TicksLeft(s, last') < TicksLeft(r, last))
  {
    match e
    case Join(_, _, _) =>
    case Say(p, text, now, word) =>
      var k := SeatOf(r.seats, p);
      if k >= 0 {
        ChatCost(r, t, k, text, now, word, last);
      }
    case TimerTick(now, word) =>
      if r.phase == Playing {
        TickCost(r, t, now, word, last);
      }
    case Leave(p, now, word) =>
      var k := SeatOf(r.seats, p);
      if k >= 0 {
        LeaveCost(r, t, k, now, word, last);
      }
    case Rejoin(s, _) => RejoinCost(r, s, last);
    case Register(p, id, token, _) =>
      var k := SeatOf(r.seats, p);
      if k >= 0 {
        RegisterKeepsInv(r, t, k, id, token, t);
      }
  }

  lemma RejoinCost(r: RoomView, s: Seat, last: int)
    requires Timed(r, last)
    ensures Timed(Reseat(r, s).0, last)
    ensures TicksLeft(Reseat(r, s).0, last) <= TicksLeft(r, last) + ROUND_TIME + 1
  {
    UndrawnConcat(r.seats, [s]);
  }

  // ----- Whole games -----

  lemma {:induction false} RunCost(r: RoomView, t: nat, es: seq<Event>, last: int)
    requires Inv(r, t) && Playable(r, t, es) && Spaced(last, es) && r.phase != Waiting
    requires last <= t && Timed(r, last)
    ensures var s := Run(r, t, es);
            s.phase == Playing ==> Ticks(es) < TicksLeft(r, last) + (ROUND_TIME + 1) * Rejoins(es)
    decreases |es|
  {
    if es == [] {
    } else if r.phase == Ended {
      EndedForGood(r, t, es);
    } else {
      StepKeepsInv(r, t, es[0]);
      StepCost(r, t, es[0], last);
      StepStarted(r, t, es[0]);
      RunCost(Step(r, t, es[0]), es[0].now, es[1..], LastTick(last, es[0]));
    }
  }

  /** A game among n players is over within 91 * n ticks after its start, whatever
      guesses and departures come in between; every reconnection can add 91 more. */
  lemma GamesEnd(r: RoomView, t: nat, es: seq<Event>, last: int)
    requires Game(r, t, es) && last <= t && Spaced(last, es)
    requires Ticks(es[1..]) >= (ROUND_TIME + 1) * (|Opening(r, t, es).seats| + Rejoins(es[1..]))
    ensures Run(r, t, es).phase == Ended
  {
    var g := Opening(r, t, es);
    StepKeepsInv(r, t, es[0]);
    StartCost(r, t, es[0], LastTick(last, es[0]));
    RunCost(g, es[0].now, es[1..], LastTick(last, es[0]));
    RunStarted(g, es[0].now, es[1..]);
  }

  lemma StartCost(r: RoomView, t: nat, e: Event, last: int)
    requires Inv(r, t) && t <= e.now && Enabled(r, e) && r.phase == Waiting && Step(r, t, e).phase == Playing
    requires last <= e.now
    ensures Timed(Step(r, t, e), last)
    ensures TicksLeft(Step(r, t, e), last) <= (ROUND_TIME + 1) * |Step(r, t, e).seats|
  {
    var m := StartLaunches(r, t, e);
    LaunchCost(m, e.now, e.word, last);
  }

  lemma LaunchCost(r: RoomView, t: nat, word: string, last: int)
    requires 2 <= |r.seats| <= MAX_PLAYERS && DistinctSeats(r.seats) && r.drawer == -1 && last <= t
    ensures Timed(Launch(r, t, word), last)
    ensures TicksLeft(Launch(r, t, word), last) <= (ROUND_TIME + 1) * |r.seats|
  {
    ResetReady(r);
    NextRound(Reset(r), t, word);
  }

  lemma {:induction false} RunStarted(r: RoomView, t: nat, es: seq<Event>)
    requires Inv(r, t) && Playable(r, t, es) && r.phase != Waiting
    ensures Run(r, t, es).phase != Waiting
    decreases |es|
  {
    if es != [] {
      StepKeepsInv(r, t, es[0]);
      StepStarted(r, t, es[0]);
      RunStarted(Step(r, t, es[0]), es[0].now, es[1..]);
    }
  }
}
