/** How large scores can get over whole games without reconnections. */
module Scores {
  import opened Protocol
  import opened RoomSpec
  import opened TurnOrder
  import opened RoomInvariant
  import opened Runs
  import opened TurnHistory

  /** 100 points for every round so far in which the player could have guessed
      and has had the chance: not the round drawn in, and not the current one
      while still guessing. */
  function Ceiling(round: int, s: Seat): int {
    100 * (round - (if s.hasDrawn then 1 else 0) - (if s.isDrawing || s.hasGuessed then 0 else 1))
  }

  ghost predicate Accounted(seats: seq<Seat>, round: int) {
    forall i :: 0 <= i < |seats| ==> 0 <= seats[i].score <= Ceiling(round, seats[i])
  }

  ghost predicate Capped(seats: seq<Seat>, cap: int) {
    forall i :: 0 <= i < |seats| ==> 0 <= seats[i].score <= cap
  }

  /** Scores in a game that n players started. */
  ghost predicate Fair(r: RoomView, n: nat) {
    && r.phase != Waiting
    && (r.phase == Playing ==> r.total == r.round + Undrawn(r.seats) <= n && Accounted(r.seats, r.round))
    && (r.phase == Ended ==> Capped(r.seats, 100 * (n - 1)))
  }

  /** Every award is worth between 10 and 100 points, more the earlier it comes. */
  lemma AwardRange(left: nat, earlier: nat)
    requires left <= earlier <= ROUND_TIME
    ensures 10 <= Points(left) <= Points(earlier) <= 100
    ensures Points(left) == 10 <==> left == 0
    ensures Points(earlier) == 100 <==> earlier == ROUND_TIME
    ensures Points(left) == 10 + left
  {
  }

  lemma UndrawnLeft(seats: seq<Seat>, i: nat)
    requires i < |seats| && !seats[i].hasDrawn
    ensures Undrawn(seats) > 0
  {
    PendingCount(seats);
    PendingIn(seats, i);
  }

  /** Scores of a game that is over after `round` rounds. */
  lemma FinalCap(seats: seq<Seat>, round: int, n: nat)
    requires Accounted(seats, round) && round + Undrawn(seats) <= n
    ensures Capped(seats, 100 * (n - 1))
  {
    forall i | 0 <= i < |seats| ensures seats[i].score <= 100 * (n - 1) {
      if !seats[i].hasDrawn {
        UndrawnLeft(seats, i);
      }
    }
  }

  lemma TurnAccounted(seats: seq<Seat>, d: nat, round: int)
    requires d < |seats| && !seats[d].hasDrawn && Accounted(seats, round)
    ensures Accounted(TurnSeats(seats, d), round + 1)
  {
  }

  lemma EndRoundFair(r: RoomView, n: nat, now: nat, word: string)
    requires RoundReady(r) && 0 <= r.drawer && Fair(r, n)
    ensures Fair(EndRound(r, now, word), n)
  {
    var m := Send(r, Announce(RoundEnd));
    NextRound(m, now, word);
    if OutOfRounds(m) {
      FinalCap(r.seats, r.round, n);
    } else {
      SearchFindsHead(m.seats, m.drawer);
      QueueSplit(m.seats, m.drawer, Search(m.seats, m.drawer, 0).1);
      TurnAccounted(m.seats, Search(m.seats, m.drawer, 0).1, m.round);
    }
  }

  lemma AwardFair(r: RoomView, t: nat, k: nat, n: nat)
    requires Inv(r, t) && Fair(r, n) && r.phase == Playing && k < |r.seats|
    requires !r.seats[k].isDrawing && !r.seats[k].hasGuessed
    ensures Fair(r.(seats := r.seats[k := Award(r.seats[k], Points(r.timeLeft))]), n)
  {
    AwardKeepsInv(r, t, k);
    AwardRange(r.timeLeft, r.timeLeft);
  }

  lemma AcceptFair(r: RoomView, t: nat, k: nat, n: nat, now: nat, word: string)
    requires Inv(r, t) && Fair(r, n) && r.phase == Playing && k < |r.seats|
    requires !r.seats[k].isDrawing && !r.seats[k].hasGuessed
    ensures Fair(AcceptGuess(r, k, now, word), n)
  {
    AwardKeepsInv(r, t, k);
    AwardFair(r, t, k, n);
    var m := Send(r.(seats := r.seats[k := Award(r.seats[k], Points(r.timeLeft))]), Announce(ScoreUpdate));
    if AllSettled(m.seats) {
      EndRoundFair(m, n, now, word);
    }
  }

  lemma ChatFair(r: RoomView, t: nat, k: nat, n: nat, text: string, now: nat, word: string)
    requires Inv(r, t) && Fair(r, n) && k < |r.seats|
    ensures Fair(Chat(r, k, text, now, word), n)
  {
    if r.phase == Playing && !r.seats[k].isDrawing && !r.seats[k].hasGuessed {
      AcceptFair(r, t, k, n, now, word);
    }
  }

  lemma TickFair(r: RoomView, t: nat, n: nat, now: nat, word: string)
    requires Inv(r, t) && Fair(r, n) && t <= now && r.phase == Playing
    ensures Fair(Tick(r, now, word), n)
  {
    if ROUND_TIME - (now - r.roundStart) / 1000 <= 0 {
      EndRoundFair(r.(timeLeft := 0), n, now, word);
    }
  }

  lemma RemovedSeats(seats: seq<Seat>, k: nat, round: int, cap: int)
    requires k < |seats|
    ensures Accounted(seats, round) ==> Accounted(RemoveAt(seats, k), round)
    ensures Capped(seats, cap) ==> Capped(RemoveAt(seats, k), cap)
  {
    assert forall i :: 0 <= i < |seats| - 1 ==> RemoveAt(seats, k)[i] == seats[if i < k then i else i + 1];
  }

  lemma LeaveFair(r: RoomView, t: nat, k: nat, n: nat, now: nat, word: string)
    requires Inv(r, t) && Fair(r, n) && k < |r.seats|
    ensures Fair(RemoveSeat(r, k, now, word), n)
  {
    RemovedSeats(r.seats, k, r.round, 100 * (n - 1));
    UndrawnRemoveAt(r.seats, k);
    if r.phase == Playing {
      if 3 <= |r.seats| {
        VacateReady(r, t, k);
        if r.seats[k].isDrawing {
          EndRoundFair(Vacate(r, k), n, now, word);
        }
      } else {
        FinalCap(RemoveAt(r.seats, k), r.round, n);
      }
    }
  }

  lemma StepFair(r: RoomView, t: nat, e: Event, n: nat)
    requires Inv(r, t) && Fair(r, n) && t <= e.now && Enabled(r, e) && !e.Rejoin?
    ensures Fair(Step(r, t, e), n)
  {
    match e
    case Join(_, _, _) =>
    case Say(p, text, now, word) =>
      var k := SeatOf(r.seats, p);
      if k >= 0 {
        ChatFair(r, t, k, n, text, now, word);
      }
    case TimerTick(now, word) =>
      if r.phase == Playing {
        TickFair(r, t, n, now, word);
      }
    case Leave(p, now, word) =>
      var k := SeatOf(r.seats, p);
      if k >= 0 {
        LeaveFair(r, t, k, n, now, word);
      }
    case Rejoin(_, _) =>
    case Register(p, id, token, _) =>
      var k := SeatOf(r.seats, p);
      if k >= 0 {
        RegisterKeepsInv(r, t, k, id, token, t);
      }
  }

  lemma {:induction false} RunFair(r: RoomView, t: nat, es: seq<Event>, n: nat)
    requires Inv(r, t) && Fair(r, n) && Playable(r, t, es) && WithoutRejoin(es)
    ensures Fair(Run(r, t, es), n)
    decreases |es|
  {
    if es != [] {
      StepKeepsInv(r, t, es[0]);
      StepFair(r, t, es[0], n);
      RunFair(Step(r, t, es[0]), es[0].now, es[1..], n);
    }
  }

  lemma ResetAccounted(r: RoomView)
    requires 2 <= |r.seats|
    ensures Accounted(TurnSeats(ResetSeats(r.seats), 0), 1)
  {
  }

  lemma LaunchFair(r: RoomView, now: nat, word: string)
    requires 2 <= |r.seats| <= MAX_PLAYERS && DistinctSeats(r.seats) && r.drawer == -1
    ensures Fair(Launch(r, now, word), |r.seats|)
  {
    var m := Reset(r);
    ResetReady(r);
    NextRound(m, now, word);
    UndrawnAll(m.seats);
    StepMod(-1, |m.seats|);
    assert Search(m.seats, -1, 0) == (true, 0);
    ResetAccounted(r);
  }

  lemma StartFair(r: RoomView, t: nat, e: Event)
    requires Inv(r, t) && t <= e.now && Enabled(r, e) && r.phase == Waiting && Step(r, t, e).phase == Playing
    ensures Fair(Step(r, t, e), |Step(r, t, e).seats|)
  {
    var m := StartLaunches(r, t, e);
    LaunchFair(m, e.now, e.word);
  }

  /** While n players' game runs, each score stays within the rounds the player
      could win; at the end nobody has more than 100 * (n - 1) points. */
  ghost predicate ScoresInRange(s: RoomView, n: nat) {
    && (s.phase == Playing ==>
          forall i :: 0 <= i < |s.seats| ==> 0 <= s.seats[i].score <= Ceiling(s.round, s.seats[i]))
    && (s.phase == Ended ==>
          forall i :: 0 <= i < |s.seats| ==> 0 <= s.seats[i].score <= 100 * (n - 1))
  }

  lemma ScoresOfGames(r: RoomView, t: nat, es: seq<Event>)
    requires Game(r, t, es) && WithoutRejoin(es)
    ensures ScoresInRange(Run(r, t, es), |Opening(r, t, es).seats|)
  {
    var g := Opening(r, t, es);
    StepKeepsInv(r, t, es[0]);
    StartFair(r, t, es[0]);
    RunFair(g, es[0].now, es[1..], |g.seats|);
  }
}
