/** The steps of one room and the invariant that all of them keep, departures
    and reconnections included. */
module RoomInvariant {
  import opened Protocol
  import opened RoomSpec
  import opened TurnOrder

  /** The steps of a room: each is one call of a message handler or of the timer
      callback. `seat` is the state of the arriving player. */
  datatype Event =
    | Join(seat: Seat, now: nat, word: string)
    | Say(speaker: Player, text: string, now: nat, word: string)
    | TimerTick(now: nat, word: string)
    | Leave(leaver: Player, now: nat, word: string)
    | Rejoin(seat: Seat, now: nat)
    | Register(player: Player, id: nat, token: string, now: nat)

  ghost predicate WaitingInv(r: RoomView, now: nat) {
    && r.drawer == -1 && r.round == 0 && |r.seats| < MAX_PLAYERS
    && (r.countdownActive ==> r.countdownStart <= now)
    && (2 <= |r.seats| && !r.isPrivate ==> r.countdownActive)
  }

  ghost predicate PlayingInv(r: RoomView, now: nat) {
    && 2 <= |r.seats| && 0 <= r.drawer < |r.seats|
    && r.seats[r.drawer].isDrawing && r.seats[r.drawer].hasDrawn && !r.seats[r.drawer].hasGuessed
    && 1 <= r.round && r.total <= r.round + Undrawn(r.seats)
    && 1 <= r.timeLeft <= ROUND_TIME && r.roundStart <= now
  }

  /** What every reachable room satisfies at time `now`. */
  ghost predicate Inv(r: RoomView, now: nat) {
    && |r.seats| <= MAX_PLAYERS && DistinctSeats(r.seats)
    && (r.phase == Waiting ==> WaitingInv(r, now))
    && (r.phase == Playing ==> PlayingInv(r, now))
  }

  /** Arriving players are not seated yet. Matchmaking only offers public
      waiting rooms, and a saved state only refers to a room that has started. */
  ghost predicate Enabled(r: RoomView, e: Event) {
    match e
    case Join(s, _, _) => r.phase == Waiting && !r.isPrivate && SeatOf(r.seats, s.who) == -1
    case Rejoin(s, _) => r.phase != Waiting && SeatOf(r.seats, s.who) == -1
    case _ => true
  }

  ghost function Step(r: RoomView, t: nat, e: Event): RoomView
    requires Inv(r, t) && t <= e.now && Enabled(r, e)
  {
    match e
    case Join(s, now, word) => Admit(r, s, now, word)
    case Say(p, text, now, word) =>
      var k := SeatOf(r.seats, p);
      if k == -1 then r else Chat(r, k, text, now, word)
    case TimerTick(now, word) => Ticked(r, now, word)
    case Leave(p, now, word) => RemovePlayer(r, p, now, word)
    case Rejoin(s, _) => Reseat(r, s).0
    case Register(p, id, token, _) =>
      var k := SeatOf(r.seats, p);
      if k == -1 then r else RegisterSeat(r, k, id, token)
  }

  // ----- Counting -----

  lemma UndrawnConcat(a: seq<Seat>, b: seq<Seat>)
    ensures Undrawn(a + b) == Undrawn(a) + Undrawn(b)
  {
    PendingConcat(a, b);
    PendingCount(a);
    PendingCount(b);
    PendingCount(a + b);
  }

  lemma SplitAt<T>(s: seq<T>, k: nat)
    requires k < |s|
    ensures s == s[..k] + ([s[k]] + s[k + 1..])
  {
  }

  lemma UndrawnRemoveAt(seats: seq<Seat>, k: nat)
    requires k < |seats|
    ensures Undrawn(seats) == Undrawn(RemoveAt(seats, k)) + if seats[k].hasDrawn then 0 else 1
  {
    SplitAt(seats, k);
    UndrawnConcat(seats[..k], [seats[k]] + seats[k + 1..]);
    UndrawnConcat([seats[k]], seats[k + 1..]);
    UndrawnConcat(seats[..k], seats[k + 1..]);
  }

  lemma {:induction false} UndrawnSame(a: seq<Seat>, b: seq<Seat>)
    requires |a| == |b| && forall i :: 0 <= i < |a| ==> a[i].hasDrawn == b[i].hasDrawn
    ensures Undrawn(a) == Undrawn(b)
  {
    if a != [] {
      UndrawnSame(a[..|a| - 1], b[..|b| - 1]);
    }
  }

  lemma {:induction false} UndrawnAll(a: seq<Seat>)
    requires forall i :: 0 <= i < |a| ==> !a[i].hasDrawn
    ensures Undrawn(a) == |a|
  {
    if a != [] {
      UndrawnAll(a[..|a| - 1]);
    }
  }

  lemma TurnUndrawn(r: RoomView, now: nat, word: string)
    requires -1 <= r.drawer < |r.seats| && 0 < Undrawn(r.seats)
    ensures Undrawn(TakeTurn(r, now, word).seats) == Undrawn(r.seats) - 1
  {
    TurnPopsHead(r, now, word);
    var s := TakeTurn(r, now, word);
    RotationPending(r.seats, r.drawer);
    RotationPending(s.seats, s.drawer);
  }

  // ----- The end of a round -----

  /** A room about to start its next round. */
  ghost predicate RoundReady(r: RoomView) {
    && r.phase == Playing && 2 <= |r.seats| <= MAX_PLAYERS && DistinctSeats(r.seats)
    && -1 <= r.drawer < |r.seats| && 0 <= r.round && r.total <= r.round + Undrawn(r.seats)
  }

  ghost predicate OutOfRounds(r: RoomView) {
    Undrawn(r.seats) == 0 || r.round + 1 > r.total
  }

  /** The next round starts, or the game is over: nothing else can happen. In
      particular the search for a drawer never comes back empty-handed. */
  lemma NextRound(r: RoomView, now: nat, word: string)
    requires RoundReady(r)
    ensures var s := StartNextRound(r, now, word);
            && s.round == r.round + 1 && s.total == r.total && s.isPrivate == r.isPrivate
            && (if OutOfRounds(r) then s == EndGame(r.(round := r.round + 1))
                else s == BeginTurn(r.(round := r.round + 1), Search(r.seats, r.drawer, 0).1, now, word)
                     && s.phase == Playing && Undrawn(s.seats) == Undrawn(r.seats) - 1
                     && Inv(s, now))
  {
    var s := r.(round := r.round + 1);
    if !OutOfRounds(r) {
      SearchFindsHead(s.seats, s.drawer);
      TurnUndrawn(s, now, word);
    }
  }

  lemma RoundEndKeepsInv(r: RoomView, now: nat, word: string)
    requires RoundReady(r) && 0 <= r.drawer
    ensures Inv(EndRound(r, now, word), now)
  {
    NextRound(Send(r, Announce(RoundEnd)), now, word);
  }

  /** The room between the reset and the first turn of a game. */
  function Reset(r: RoomView): RoomView {
    r.(countdownActive := false, phase := Playing, round := 0, total := |r.seats|, seats := ResetSeats(r.seats))
  }

  lemma ResetReady(r: RoomView)
    requires 2 <= |r.seats| <= MAX_PLAYERS && DistinctSeats(r.seats) && r.drawer == -1
    ensures RoundReady(Reset(r)) && Reset(r).total == Undrawn(Reset(r).seats) == |r.seats|
  {
    UndrawnAll(Reset(r).seats);
  }

  lemma LaunchKeepsInv(r: RoomView, now: nat, word: string)
    requires 2 <= |r.seats| <= MAX_PLAYERS && DistinctSeats(r.seats) && r.drawer == -1
    ensures Inv(Launch(r, now, word), now) && Launch(r, now, word).phase == Playing
  {
    ResetReady(r);
    NextRound(Reset(r), now, word);
  }

  // ----- Every step keeps the invariant -----

  lemma JoinKeepsInv(r: RoomView, t: nat, s: Seat, now: nat, word: string)
    requires Inv(r, t) && t <= now && r.phase == Waiting && SeatOf(r.seats, s.who) == -1
    ensures Inv(Admit(r, s, now, word), now)
  {
    var b := StartCountdown(AddPlayer(r, s).0, now);
    if |b.seats| == MAX_PLAYERS {
      LaunchKeepsInv(b, now, word);
    }
  }

  /** The seats after a correct guess differ in one score and one flag. */
  lemma AwardKeepsInv(r: RoomView, t: nat, k: nat)
    requires Inv(r, t) && r.phase == Playing && k < |r.seats| && !r.seats[k].isDrawing
    ensures Inv(r.(seats := r.seats[k := Award(r.seats[k], Points(r.timeLeft))]), t)
    ensures Undrawn(r.seats[k := Award(r.seats[k], Points(r.timeLeft))]) == Undrawn(r.seats)
  {
    UndrawnSame(r.seats[k := Award(r.seats[k], Points(r.timeLeft))], r.seats);
  }

  lemma AcceptKeepsInv(r: RoomView, t: nat, k: nat, now: nat, word: string)
    requires Inv(r, t) && t <= now && r.phase == Playing && k < |r.seats| && !r.seats[k].isDrawing
    ensures Inv(AcceptGuess(r, k, now, word), now)
  {
    AwardKeepsInv(r, t, k);
    var s := Send(r.(seats := r.seats[k := Award(r.seats[k], Points(r.timeLeft))]), Announce(ScoreUpdate));
    if AllSettled(s.seats) {
      RoundEndKeepsInv(s, now, word);
    }
  }

  lemma ChatKeepsInv(r: RoomView, t: nat, k: nat, text: string, now: nat, word: string)
    requires Inv(r, t) && t <= now && k < |r.seats|
    ensures Inv(Chat(r, k, text, now, word), now)
  {
    if r.phase == Playing && !r.seats[k].isDrawing {
      AcceptKeepsInv(r, t, k, now, word);
    }
  }

  lemma TimerKeepsInv(r: RoomView, t: nat, now: nat, word: string)
    requires Inv(r, t) && t <= now
    ensures Inv(UpdateTimer(r, now, word), now)
  {
    if r.phase == Playing && ROUND_TIME - (now - r.roundStart) / 1000 <= 0 {
      RoundEndKeepsInv(r.(timeLeft := 0), now, word);
    }
  }

  lemma CountdownKeepsInv(r: RoomView, t: nat, now: nat, word: string)
    requires Inv(r, t) && t <= now
    ensures Inv(CheckCountdown(r, now, word), now)
  {
    if r.phase == Waiting && r.countdownActive && (now - r.countdownStart) / 1000 >= 15 && |r.seats| >= 2 {
      LaunchKeepsInv(r, now, word);
    }
  }

  lemma VacateReady(r: RoomView, t: nat, k: nat)
    requires Inv(r, t) && r.phase == Playing && 3 <= |r.seats| && k < |r.seats|
    ensures RoundReady(Vacate(r, k)) && 0 <= Vacate(r, k).drawer
    ensures !r.seats[k].isDrawing ==> Inv(Vacate(r, k), t)
  {
    RemovedSeatGone(r.seats, k);
    RepairedRotation(r.seats, r.drawer, k);
  }

  lemma LeaveKeepsInv(r: RoomView, t: nat, k: nat, now: nat, word: string)
    requires Inv(r, t) && t <= now && k < |r.seats|
    ensures Inv(RemoveSeat(r, k, now, word), now)
  {
    RemovedSeatGone(r.seats, k);
    if r.phase == Playing && 3 <= |r.seats| {
      VacateReady(r, t, k);
      if r.seats[k].isDrawing {
        RoundEndKeepsInv(Vacate(r, k), now, word);
      }
    }
  }

  lemma TickKeepsInv(r: RoomView, t: nat, now: nat, word: string)
    requires Inv(r, t) && t <= now
    ensures Inv(Tick(r, now, word), now)
  {
    CountdownKeepsInv(r, t, now, word);
    TimerKeepsInv(CheckCountdown(r, now, word), now, now, word);
  }

  lemma RejoinKeepsInv(r: RoomView, t: nat, s: Seat, now: nat)
    requires Inv(r, t) && t <= now && r.phase != Waiting && SeatOf(r.seats, s.who) == -1
    ensures Inv(Reseat(r, s).0, now)
  {
    UndrawnConcat(r.seats, [s]);
  }

  lemma SayKeepsInv(r: RoomView, t: nat, p: Player, text: string, now: nat, word: string)
    requires Inv(r, t) && t <= now
    ensures Inv(Step(r, t, Say(p, text, now, word)), now)
  {
    var k := SeatOf(r.seats, p);
    if k >= 0 {
      ChatKeepsInv(r, t, k, text, now, word);
    }
  }

  lemma LeaverKeepsInv(r: RoomView, t: nat, p: Player, now: nat, word: string)
    requires Inv(r, t) && t <= now
    ensures Inv(RemovePlayer(r, p, now, word), now)
  {
    var k := SeatOf(r.seats, p);
    if k >= 0 {
      LeaveKeepsInv(r, t, k, now, word);
    }
  }

  lemma RegisterKeepsInv(r: RoomView, t: nat, k: nat, id: nat, token: string, now: nat)
    requires Inv(r, t) && t <= now && k < |r.seats|
    ensures Inv(RegisterSeat(r, k, id, token), now)
    ensures Undrawn(RegisterSeat(r, k, id, token).seats) == Undrawn(r.seats)
  {
    UndrawnSame(RegisterSeat(r, k, id, token).seats, r.seats);
  }

  /** The seats stay a compact block of distinct players, a running game has two
      to MAX_PLAYERS of them, its drawer index is a seat whose player is drawing
      and counted as having drawn, and the rounds still owed are covered by the
      players still to draw. */
  lemma StepKeepsInv(r: RoomView, t: nat, e: Event)
    requires Inv(r, t) && t <= e.now && Enabled(r, e)
    ensures Inv(Step(r, t, e), e.now)
  {
    match e
    case Join(s, now, word) => JoinKeepsInv(r, t, s, now, word);
    case Say(p, text, now, word) => SayKeepsInv(r, t, p, text, now, word);
    case TimerTick(now, word) => TickKeepsInv(r, t, now, word);
    case Leave(p, now, word) => LeaverKeepsInv(r, t, p, now, word);
    case Rejoin(s, now) => RejoinKeepsInv(r, t, s, now);
    case Register(p, id, token, now) =>
      var k := SeatOf(r.seats, p);
      if k >= 0 {
        RegisterKeepsInv(r, t, k, id, token, now);
      }
  }

  // ----- What no step changes -----

  lemma StepStarted(r: RoomView, t: nat, e: Event)
    requires Inv(r, t) && t <= e.now && Enabled(r, e) && r.phase != Waiting
    ensures Step(r, t, e).phase != Waiting
  {
  }

  /** s is the room r later on: the same room, with the same players on the same
      seats. */
  ghost predicate Continues(r: RoomView, s: RoomView) {
    && s.id == r.id && s.isPrivate == r.isPrivate
    && |s.seats| == |r.seats|
    && forall i :: 0 <= i < |r.seats| ==> s.seats[i].who == r.seats[i].who
  }

  lemma NextRoundContinues(r: RoomView, now: nat, word: string)
    requires -1 <= r.drawer
    ensures Continues(r, StartNextRound(r, now, word))
  {
  }

  lemma EndRoundContinues(r: RoomView, now: nat, word: string)
    requires -1 <= r.drawer
    ensures Continues(r, EndRound(r, now, word))
  {
    NextRoundContinues(Send(r, Announce(RoundEnd)), now, word);
  }

  lemma LaunchContinues(r: RoomView, now: nat, word: string)
    requires -1 <= r.drawer
    ensures Continues(r, Launch(r, now, word))
  {
    NextRoundContinues(Reset(r), now, word);
  }

  lemma ChatContinues(r: RoomView, t: nat, k: nat, text: string, now: nat, word: string)
    requires Inv(r, t) && k < |r.seats|
    ensures Continues(r, Chat(r, k, text, now, word))
  {
    if r.phase == Playing {
      EndRoundContinues(ScoreGuess(r, k), now, word);
    }
  }

  lemma TickContinues(r: RoomView, t: nat, now: nat, word: string)
    requires Inv(r, t) && t <= now
    ensures Continues(r, Tick(r, now, word))
  {
    if r.phase == Playing {
      EndRoundContinues(r.(timeLeft := 0), now, word);
    } else if r.phase == Waiting {
      LaunchContinues(r, now, word);
    }
  }

  lemma AdmitContinues(r: RoomView, s: Seat, now: nat, word: string)
    requires -1 <= r.drawer && |r.seats| < MAX_PLAYERS
    ensures Continues(AddPlayer(r, s).0, Admit(r, s, now, word))
  {
    LaunchContinues(StartCountdown(AddPlayer(r, s).0, now), now, word);
  }

  /** Everybody seated in s was seated in r, unless it is p. */
  ghost predicate Seats(r: RoomView, s: RoomView, p: Option<Player>) {
    forall i :: 0 <= i < |s.seats| ==> p == Some(s.seats[i].who) || SeatOf(r.seats, s.seats[i].who) >= 0
  }

  lemma ContinuesSeats(r: RoomView, s: RoomView)
    requires Continues(r, s)
    ensures Seats(r, s, None)
  {
    forall i | 0 <= i < |s.seats| ensures SeatOf(r.seats, s.seats[i].who) >= 0 {
      assert s.seats[i].who == r.seats[i].who;
    }
  }

  lemma VacateSeats(r: RoomView, k: nat)
    requires k < |r.seats|
    ensures Seats(r, Vacate(r, k), None)
  {
    var left := RemoveAt(r.seats, k);
    forall i | 0 <= i < |left| ensures SeatOf(r.seats, left[i].who) >= 0 {
      assert left[i] == r.seats[if i < k then i else i + 1];
    }
  }

  lemma LeaveContinues(r: RoomView, t: nat, k: nat, now: nat, word: string)
    requires Inv(r, t) && k < |r.seats|
    ensures Continues(Vacate(r, k), RemoveSeat(r, k, now, word))
  {
    if r.phase == Playing && 3 <= |r.seats| {
      VacateReady(r, t, k);
      EndRoundContinues(Vacate(r, k), now, word);
    }
  }

  lemma LeaveSeats(r: RoomView, t: nat, k: nat, now: nat, word: string)
    requires Inv(r, t) && k < |r.seats|
    ensures RemoveSeat(r, k, now, word).id == r.id
    ensures Seats(r, RemoveSeat(r, k, now, word), None)
  {
    var v, s := Vacate(r, k), RemoveSeat(r, k, now, word);
    VacateSeats(r, k);
    LeaveContinues(r, t, k, now, word);
    forall i | 0 <= i < |s.seats| ensures SeatOf(r.seats, s.seats[i].who) >= 0 {
      assert s.seats[i].who == v.seats[i].who;
    }
  }

  lemma AdmitSeated(r: RoomView, s: Seat, now: nat, word: string)
    requires -1 <= r.drawer && |r.seats| < MAX_PLAYERS
    ensures Admit(r, s, now, word).id == r.id && |Admit(r, s, now, word).seats| == |r.seats| + 1
    ensures Seats(r, Admit(r, s, now, word), Some(s.who))
  {
    var a := Admit(r, s, now, word);
    AdmitContinues(r, s, now, word);
    forall i | 0 <= i < |r.seats| ensures SeatOf(r.seats, a.seats[i].who) >= 0 {
      assert a.seats[i].who == AddPlayer(r, s).0.seats[i].who == r.seats[i].who;
    }
  }

  /** An arrival keeps the seats distinct exactly when the player is not seated yet,
      which neither operation looks at. */
  lemma SeatedOnce(r: RoomView, s: Seat, now: nat, word: string)
    requires DistinctSeats(r.seats) && |r.seats| < MAX_PLAYERS && -1 <= r.drawer
    ensures DistinctSeats(Admit(r, s, now, word).seats) <==> SeatOf(r.seats, s.who) == -1
    ensures DistinctSeats(Reseat(r, s).0.seats) <==> SeatOf(r.seats, s.who) == -1
  {
    var a, k := Admit(r, s, now, word), SeatOf(r.seats, s.who);
    AdmitContinues(r, s, now, word);
    assert a.seats[|r.seats|].who == AddPlayer(r, s).0.seats[|r.seats|].who == s.who;
    assert forall i :: 0 <= i < |r.seats| ==> a.seats[i].who == AddPlayer(r, s).0.seats[i].who == r.seats[i].who;
    if k >= 0 {
      assert a.seats[k].who == a.seats[|r.seats|].who && (r.seats + [s])[k].who == (r.seats + [s])[|r.seats|].who;
    }
  }

  function Newcomer(e: Event): Option<Player> {
    if e.Join? || e.Rejoin? then Some(e.seat.who) else None
  }

  /** Only arrivals and departures change who sits where. */
  lemma StepContinues(r: RoomView, t: nat, e: Event)
    requires Inv(r, t) && t <= e.now && Enabled(r, e) && !e.Join? && !e.Leave? && !e.Rejoin?
    ensures Continues(r, Step(r, t, e))
  {
    match e
    case Say(p, text, now, word) =>
      var k := SeatOf(r.seats, p);
      if k >= 0 {
        ChatContinues(r, t, k, text, now, word);
      }
    case TimerTick(now, word) => TickContinues(r, t, now, word);
    case _ =>
  }

  /** A step keeps the room's identity and seats nobody but its newcomer. */
  lemma StepSeats(r: RoomView, t: nat, e: Event)
    requires Inv(r, t) && t <= e.now && Enabled(r, e)
    ensures Step(r, t, e).id == r.id
    ensures Seats(r, Step(r, t, e), Newcomer(e))
    ensures !e.Leave? ==> |r.seats| <= |Step(r, t, e).seats|
  {
    match e
    case Join(s, now, word) => AdmitSeated(r, s, now, word);
    case Leave(p, now, word) => LeaverSeats(r, t, p, now, word);
    case Rejoin(s, _) => RejoinSeats(r, s);
    case _ =>
      StepContinues(r, t, e);
      ContinuesSeats(r, Step(r, t, e));
  }

  lemma LeaverSeats(r: RoomView, t: nat, p: Player, now: nat, word: string)
    requires Inv(r, t)
    ensures RemovePlayer(r, p, now, word).id == r.id
    ensures Seats(r, RemovePlayer(r, p, now, word), None)
  {
    var k := SeatOf(r.seats, p);
    ContinuesSeats(r, r);
    if k >= 0 {
      LeaveSeats(r, t, k, now, word);
    }
  }

  lemma RejoinSeats(r: RoomView, s: Seat)
    ensures Seats(r, Reseat(r, s).0, Some(s.who))
  {
    ContinuesSeats(r, r);
    forall i | 0 <= i < |r.seats| ensures SeatOf(r.seats, (r.seats + [s])[i].who) >= 0 {
      assert (r.seats + [s])[i] == r.seats[i];
    }
  }
}
