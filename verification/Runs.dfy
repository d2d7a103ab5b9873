/** Runs of one room: any interleaving of its steps under a clock that never
    goes back. */
module Runs {
  import opened Protocol
  import opened RoomSpec
  import opened RoomInvariant

  /** Every event of es can happen when its turn comes. */
  ghost predicate Playable(r: RoomView, t: nat, es: seq<Event>)
    requires Inv(r, t)
    decreases |es|
  {
    es != [] ==>
      && t <= es[0].now && Enabled(r, es[0])
      && (StepKeepsInv(r, t, es[0]); Playable(Step(r, t, es[0]), es[0].now, es[1..]))
  }

  ghost function Run(r: RoomView, t: nat, es: seq<Event>): RoomView
    requires Inv(r, t) && Playable(r, t, es)
    decreases |es|
  {
    if es == [] then r
    else
      StepKeepsInv(r, t, es[0]);
      Run(Step(r, t, es[0]), es[0].now, es[1..])
  }

  ghost function EndTime(t: nat, es: seq<Event>): nat {
    if es == [] then t else es[|es| - 1].now
  }

  ghost predicate WithoutRejoin(es: seq<Event>) {
    forall i :: 0 <= i < |es| ==> !es[i].Rejoin?
  }

  ghost predicate WithoutLeave(es: seq<Event>) {
    forall i :: 0 <= i < |es| ==> !es[i].Leave?
  }

  /** The seat invariant holds in every reachable room, reconnections included. */
  lemma {:induction false} RunKeepsInv(r: RoomView, t: nat, es: seq<Event>)
    requires Inv(r, t) && Playable(r, t, es)
    ensures Inv(Run(r, t, es), EndTime(t, es))
    decreases |es|
  {
    if es != [] {
      StepKeepsInv(r, t, es[0]);
      RunKeepsInv(Step(r, t, es[0]), es[0].now, es[1..]);
    }
  }

  /** A freshly initialised room starts every run. */
  lemma FreshRoomInv(id: nat, isPrivate: bool, now: nat)
    ensures Inv(FreshRoom(id, isPrivate, now), now)
  {
  }

  /** An ended game stays ended, whatever happens to the room. */
  lemma {:induction false} EndedForGood(r: RoomView, t: nat, es: seq<Event>)
    requires Inv(r, t) && Playable(r, t, es) && r.phase == Ended
    ensures Run(r, t, es).phase == Ended
    decreases |es|
  {
    if es != [] {
      StepKeepsInv(r, t, es[0]);
      EndedForGood(Step(r, t, es[0]), es[0].now, es[1..]);
    }
  }

  // ----- Games -----

  /** A room in which a game can start. */
  ghost predicate Startable(m: RoomView) {
    2 <= |m.seats| <= MAX_PLAYERS && DistinctSeats(m.seats) && m.drawer == -1 && m.round == 0
  }

  /** A game: the room waits, the first event of es starts the game, and the
      others follow. */
  ghost predicate Game(r: RoomView, t: nat, es: seq<Event>) {
    && Inv(r, t) && r.phase == Waiting && es != [] && Playable(r, t, es)
    && Step(r, t, es[0]).phase == Playing
  }

  /** The room as the start of the game leaves it. */
  ghost function Opening(r: RoomView, t: nat, es: seq<Event>): RoomView
    requires Game(r, t, es)
  {
    Step(r, t, es[0])
  }

  /** Both ways a game starts, the last free seat and the countdown, are a launch
      of a room that a game can start in. */
  lemma LastSeatLaunches(r: RoomView, t: nat, s: Seat, now: nat, word: string)
    requires Inv(r, t) && r.phase == Waiting && SeatOf(r.seats, s.who) == -1
    ensures var m := StartCountdown(AddPlayer(r, s).0, now);
            Admit(r, s, now, word).phase == Playing ==> Startable(m) && Admit(r, s, now, word) == Launch(m, now, word)
  {
  }

  lemma CountdownLaunches(r: RoomView, t: nat, now: nat, word: string)
    requires Inv(r, t) && t <= now && r.phase == Waiting && Tick(r, now, word).phase == Playing
    ensures Startable(r) && Tick(r, now, word) == Send(Launch(r, now, word), Announce(TimerUpdate(ROUND_TIME)))
  {
    ResetReady(r);
    NextRound(Reset(r), now, word);
  }

  /** The room that a starting step launches, and whether the timer announcement
      follows. */
  lemma StartLaunches(r: RoomView, t: nat, e: Event) returns (m: RoomView)
    requires Inv(r, t) && t <= e.now && Enabled(r, e) && r.phase == Waiting && Step(r, t, e).phase == Playing
    ensures e.Join? || e.TimerTick?
    ensures Startable(m) && m.round == r.round
    ensures Step(r, t, e) == if e.Join? then Launch(m, e.now, e.word)
                             else Send(Launch(m, e.now, e.word), Announce(TimerUpdate(ROUND_TIME)))
    ensures Continues(m, Step(r, t, e))
  {
    match e
    case Join(s, now, word) =>
      m := StartCountdown(AddPlayer(r, s).0, now);
      LastSeatLaunches(r, t, s, now, word);
      LaunchContinues(m, now, word);
    case TimerTick(now, word) =>
      m := r;
      CountdownLaunches(r, t, now, word);
      LaunchContinues(m, now, word);
    case _ =>
  }

  lemma WaitingSteps(r: RoomView, t: nat, e: Event)
    requires Inv(r, t) && t <= e.now && Enabled(r, e) && r.phase == Waiting
    ensures Step(r, t, e).phase == Waiting || Step(r, t, e).phase == Playing
  {
    match e
    case Join(s, now, word) =>
      var b := StartCountdown(AddPlayer(r, s).0, now);
      if |b.seats| == MAX_PLAYERS {
        LaunchKeepsInv(b, now, word);
      }
    case TimerTick(now, word) =>
      if r.countdownActive && |r.seats| >= 2 {
        LaunchKeepsInv(r, now, word);
      }
    case _ =>
  }

  /** The run is a part that waits, k events long, and then a game. */
  ghost predicate GameAfter(r: RoomView, t: nat, es: seq<Event>, k: nat)
    requires Inv(r, t) && Playable(r, t, es)
  {
    && k < |es| && Playable(r, t, es[..k])
    && (var m, start := Run(r, t, es[..k]), EndTime(t, es[..k]);
        Game(m, start, es[k..]) && Run(m, start, es[k..]) == Run(r, t, es))
  }

  lemma GameLater(r: RoomView, t: nat, es: seq<Event>, j: nat)
    requires Inv(r, t) && es != [] && Playable(r, t, es)
    requires Inv(Step(r, t, es[0]), es[0].now) && Playable(Step(r, t, es[0]), es[0].now, es[1..])
    requires GameAfter(Step(r, t, es[0]), es[0].now, es[1..], j)
    ensures GameAfter(r, t, es, j + 1)
  {
    var front := es[..j + 1];
    assert front[0] == es[0] && front[1..] == es[1..][..j];
    assert es[j + 1..] == es[1..][j..];
    assert EndTime(t, front) == EndTime(es[0].now, front[1..]);
  }

  lemma GameNow(r: RoomView, t: nat, es: seq<Event>)
    requires Game(r, t, es)
    ensures GameAfter(r, t, es, 0)
  {
    assert es[..0] == [] && es[0..] == es;
  }

  /** Every run from a waiting room that gets beyond waiting is a part that waits
      and then a game: what is said of games is said of every started room. */
  lemma {:induction false} StartedByGame(r: RoomView, t: nat, es: seq<Event>) returns (k: nat)
    requires Inv(r, t) && Playable(r, t, es) && r.phase == Waiting && Run(r, t, es).phase != Waiting
    ensures GameAfter(r, t, es, k)
    decreases |es|
  {
    StepKeepsInv(r, t, es[0]);
    if Step(r, t, es[0]).phase == Playing {
      GameNow(r, t, es);
      k := 0;
    } else {
      WaitingSteps(r, t, es[0]);
      var j := StartedByGame(Step(r, t, es[0]), es[0].now, es[1..]);
      GameLater(r, t, es, j);
      k := j + 1;
    }
  }

  // ----- Countdown -----

  /** A public waiting room with two or more players is counting down, so any
      tick 15 s after the countdown began starts the game. */
  lemma CountdownProgress(r: RoomView, t: nat, now: nat, word: string)
    requires Inv(r, t) && t <= now && r.phase == Waiting && !r.isPrivate
    ensures |r.seats| < MAX_PLAYERS
    ensures 2 <= |r.seats| ==> r.countdownActive
    ensures 2 <= |r.seats| ==>
              (Step(r, t, TimerTick(now, word)).phase == Playing <==> now - r.countdownStart >= 15000)
  {
    if 2 <= |r.seats| {
      LaunchKeepsInv(r, now, word);
    }
  }

  lemma RoundOver(r: RoomView, t: nat, now: nat, word: string)
    requires Inv(r, t) && t <= now && r.phase == Playing && now - r.roundStart >= ROUND_TIME * 1000
    ensures UpdateTimer(r, now, word).round == r.round + 1
  {
    NextRound(Send(r.(timeLeft := 0), Announce(RoundEnd)), now, word);
  }

  /** A tick ends the round exactly when its time is used up; otherwise it shows
      the whole seconds left. */
  lemma RoundLasts(r: RoomView, t: nat, now: nat, word: string)
    requires Inv(r, t) && t <= now && r.phase == Playing
    ensures var s, elapsed := Step(r, t, TimerTick(now, word)), (now - r.roundStart) / 1000;
            if now - r.roundStart < ROUND_TIME * 1000
            then s.phase == Playing && s.round == r.round && s.seats == r.seats && s.timeLeft == ROUND_TIME - elapsed
            else s.round == r.round + 1
  {
    if now - r.roundStart >= ROUND_TIME * 1000 {
      RoundOver(r, t, now, word);
    }
  }
}
