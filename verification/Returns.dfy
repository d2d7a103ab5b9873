/** Turns in games with reconnections: who still gets one, and who is left out. */
module Returns {
  import opened Protocol
  import opened RoomSpec
  import opened TurnOrder
  import opened RoomInvariant
  import opened Runs
  import opened TurnHistory
  import opened Sequences

  // ----- Counting unplanned returns -----

  /** The returns that no plan covers: planned rounds are counted anew when a
      player leaves the running game, and a return does not add to them. */
  function NextCount(r: RoomView, e: Event, n: nat): nat {
    match e
    case Leave(p, _, _) => if SeatOf(r.seats, p) >= 0 then 0 else n
    case Rejoin(s, _) => if |r.seats| < MAX_PLAYERS && !s.hasDrawn then n + 1 else n
    case _ => n
  }

  /** The accepted returns of players who do not count as having drawn, since the
      last departure from the running game; n of them happened before es. */
  ghost function Unplanned(r: RoomView, t: nat, es: seq<Event>, n: nat): nat
    requires Inv(r, t) && Playable(r, t, es)
    decreases |es|
  {
    if es == [] then n
    else
      StepKeepsInv(r, t, es[0]);
      Unplanned(Step(r, t, es[0]), es[0].now, es[1..], NextCount(r, es[0], n))
  }

  /** n players more are to draw than rounds are left. */
  ghost predicate Owes(r: RoomView, n: nat) {
    r.round + Undrawn(r.seats) - r.total == n && r.round <= r.total
  }

  /** After a step of a running game: the count still says what is owed, and if the
      rounds have run out it is the number of those who never came to draw. */
  ghost predicate Settles(s: RoomView, n: nat) {
    && (s.phase == Playing ==> Owes(s, n))
    && (s.phase == Ended && 2 <= |s.seats| ==> Undrawn(s.seats) == n)
  }

  lemma EndRoundSettles(r: RoomView, n: nat, now: nat, word: string)
    requires RoundReady(r) && 0 <= r.drawer && Owes(r, n)
    ensures Settles(EndRound(r, now, word), n)
  {
    NextRound(Send(r, Announce(RoundEnd)), now, word);
  }

  lemma ChatSettles(r: RoomView, t: nat, k: nat, text: string, n: nat, now: nat, word: string)
    requires Inv(r, t) && r.phase == Playing && Owes(r, n) && k < |r.seats|
    ensures Settles(Chat(r, k, text, now, word), n)
  {
    ChatCases(r, k, text, now, word);
    if !r.seats[k].isDrawing {
      var m := ScoreGuess(r, k);
      AwardKeepsInv(r, t, k);
      if AllSettled(m.seats) {
        EndRoundSettles(m, n, now, word);
      }
    }
  }

  lemma TickSettles(r: RoomView, t: nat, n: nat, now: nat, word: string)
    requires Inv(r, t) && r.phase == Playing && Owes(r, n) && t <= now
    ensures Settles(Tick(r, now, word), n)
  {
    if ROUND_TIME - (now - r.roundStart) / 1000 <= 0 {
      EndRoundSettles(r.(timeLeft := 0), n, now, word);
    }
  }

  lemma LeaveSettles(r: RoomView, t: nat, k: nat, now: nat, word: string)
    requires Inv(r, t) && r.phase == Playing && k < |r.seats|
    ensures Settles(RemoveSeat(r, k, now, word), 0)
  {
    if 3 <= |r.seats| {
      VacateReady(r, t, k);
      if r.seats[k].isDrawing {
        EndRoundSettles(Vacate(r, k), 0, now, word);
      }
    }
  }

  lemma RejoinSettles(r: RoomView, s: Seat, n: nat)
    requires r.phase == Playing && Owes(r, n)
    ensures Settles(Reseat(r, s).0, if |r.seats| < MAX_PLAYERS && !s.hasDrawn then n + 1 else n)
  {
    UndrawnConcat(r.seats, [s]);
    assert [s][..0] == [];
  }

  lemma StepSettles(r: RoomView, t: nat, e: Event, n: nat)
    requires Inv(r, t) && r.phase == Playing && Owes(r, n) && t <= e.now && Enabled(r, e)
    ensures Settles(Step(r, t, e), NextCount(r, e, n))
  {
    match e
    case Say(p, text, now, word) =>
      var k := SeatOf(r.seats, p);
      if k >= 0 {
        ChatSettles(r, t, k, text, n, now, word);
      }
    case TimerTick(now, word) => TickSettles(r, t, n, now, word);
    case Leave(p, now, word) =>
      var k := SeatOf(r.seats, p);
      if k >= 0 {
        LeaveSettles(r, t, k, now, word);
      }
    case Rejoin(s, _) => RejoinSettles(r, s, n);
    case Register(p, id, token, now) =>
      var k := SeatOf(r.seats, p);
      if k >= 0 {
        RegisterKeepsInv(r, t, k, id, token, now);
      }
    case Join(_, _, _) =>
  }

  lemma {:induction false} RunOwes(r: RoomView, t: nat, es: seq<Event>, n: nat)
    requires Inv(r, t) && Playable(r, t, es) && (r.phase == Playing ==> Owes(r, n)) && r.phase != Waiting
    requires Run(r, t, es).phase == Playing
    ensures Owes(Run(r, t, es), Unplanned(r, t, es, n))
    decreases |es|
  {
    if es != [] {
      if r.phase == Ended {
        EndedForGood(r, t, es);
      }
      StepKeepsInv(r, t, es[0]);
      StepSettles(r, t, es[0], n);
      StepStarted(r, t, es[0]);
      RunOwes(Step(r, t, es[0]), es[0].now, es[1..], NextCount(r, es[0], n));
    }
  }

  lemma StartOwesNothing(r: RoomView, t: nat, e: Event)
    requires Inv(r, t) && t <= e.now && Enabled(r, e) && r.phase == Waiting && Step(r, t, e).phase == Playing
    ensures Owes(Step(r, t, e), 0)
  {
    var m := StartLaunches(r, t, e);
    ResetReady(m);
    NextRound(Reset(m), e.now, e.word);
  }

  /** The unplanned returns of a game so far. */
  ghost function Owed(r: RoomView, t: nat, es: seq<Event>): nat
    requires Game(r, t, es)
  {
    StepKeepsInv(r, t, es[0]);
    Unplanned(Opening(r, t, es), es[0].now, es[1..], 0)
  }

  /** Throughout a running game, the rounds that are missing for everyone to draw
      are exactly the unplanned returns. */
  lemma RoundsOwed(r: RoomView, t: nat, es: seq<Event>)
    requires Game(r, t, es) && Run(r, t, es).phase == Playing
    ensures Owes(Run(r, t, es), Owed(r, t, es))
  {
    StepKeepsInv(r, t, es[0]);
    StartOwesNothing(r, t, es[0]);
    RunOwes(Opening(r, t, es), es[0].now, es[1..], 0);
  }

  /** When event e ends a game with two or more players left, those who do not count
      as having drawn are as many as the unplanned returns: everyone does exactly
      if there were none. */
  lemma EndOwes(r: RoomView, t: nat, es: seq<Event>, e: Event)
    requires Game(r, t, es) && Run(r, t, es).phase == Playing
    requires EndTime(t, es) <= e.now && Enabled(Run(r, t, es), e) && Inv(Run(r, t, es), EndTime(t, es))
    requires Step(Run(r, t, es), EndTime(t, es), e).phase == Ended
    requires 2 <= |Step(Run(r, t, es), EndTime(t, es), e).seats|
    ensures var s, n := Step(Run(r, t, es), EndTime(t, es), e), NextCount(Run(r, t, es), e, Owed(r, t, es));
            && Undrawn(s.seats) == n
            && (n == 0 <==> forall i :: 0 <= i < |s.seats| ==> s.seats[i].hasDrawn)
  {
    RoundsOwed(r, t, es);
    StepSettles(Run(r, t, es), EndTime(t, es), e, Owed(r, t, es));
    UndrawnNone(Step(Run(r, t, es), EndTime(t, es), e).seats);
  }

  lemma {:induction false} UndrawnNone(seats: seq<Seat>)
    ensures Undrawn(seats) == 0 <==> forall i :: 0 <= i < |seats| ==> seats[i].hasDrawn
  {
    if seats != [] {
      var last := |seats| - 1;
      UndrawnNone(seats[..last]);
      assert (forall i :: 0 <= i < |seats| ==> seats[i].hasDrawn) <==>
        seats[last].hasDrawn && forall i :: 0 <= i < last ==> seats[..last][i].hasDrawn;
    }
  }

  // ----- The flag and the history -----

  /** A seated player counts as having drawn exactly if a turn was his, and nobody's
      was twice. */
  ghost predicate Exact(seats: seq<Seat>, h: seq<Player>) {
    && NoDuplicates(h)
    && DistinctSeats(seats)
    && forall i :: 0 <= i < |seats| ==> (seats[i].hasDrawn <==> seats[i].who in h)
  }

  ghost predicate SameTurns(a: seq<Seat>, b: seq<Seat>) {
    |a| == |b| && forall i :: 0 <= i < |a| ==> a[i].who == b[i].who && a[i].hasDrawn == b[i].hasDrawn
  }

  lemma SameExact(a: seq<Seat>, b: seq<Seat>, h: seq<Player>)
    requires SameTurns(a, b) && Exact(a, h)
    ensures Exact(b, h)
  {
  }

  lemma NextRoundExact(r: RoomView, h: seq<Player>, now: nat, word: string)
    requires RoundReady(r) && Exact(r.seats, h)
    ensures var s := StartNextRound(r, now, word);
            Exact(s.seats, h + Drew(r, s)) && (s.phase == Playing || s.phase == Ended)
  {
    var s := StartNextRound(r, now, word);
    NextRound(r, now, word);
    if OutOfRounds(r) {
      ConcatNothing(h);
    } else {
      QueueSplit(r.seats, r.drawer, s.drawer);
      TurnExact(r.seats, s.drawer, h);
    }
  }

  lemma TurnExact(seats: seq<Seat>, d: nat, h: seq<Player>)
    requires d < |seats| && !seats[d].hasDrawn && Exact(seats, h)
    ensures Exact(TurnSeats(seats, d), h + [seats[d].who])
  {
  }

  lemma EndRoundExact(r: RoomView, h: seq<Player>, now: nat, word: string)
    requires RoundReady(r) && 0 <= r.drawer && Exact(r.seats, h)
    ensures var s := EndRound(r, now, word);
            Exact(s.seats, h + Drew(r, s))
  {
    var m := Send(r, Announce(RoundEnd));
    NextRoundExact(m, h, now, word);
    assert Drew(r, EndRound(r, now, word)) == Drew(m, StartNextRound(m, now, word));
  }

  lemma ChatExact(r: RoomView, t: nat, k: nat, text: string, h: seq<Player>, now: nat, word: string)
    requires Inv(r, t) && r.phase == Playing && Exact(r.seats, h) && k < |r.seats|
    ensures var s := Chat(r, k, text, now, word);
            Exact(s.seats, h + Drew(r, s))
  {
    ConcatNothing(h);
    ChatCases(r, k, text, now, word);
    if !r.seats[k].isDrawing {
      var m := ScoreGuess(r, k);
      AwardKeepsInv(r, t, k);
      SameExact(r.seats, m.seats, h);
      if AllSettled(m.seats) {
        EndRoundExact(m, h, now, word);
      }
    }
  }

  lemma TickExact(r: RoomView, t: nat, h: seq<Player>, now: nat, word: string)
    requires Inv(r, t) && r.phase == Playing && Exact(r.seats, h) && t <= now
    ensures var s := Tick(r, now, word);
            Exact(s.seats, h + Drew(r, s))
  {
    ConcatNothing(h);
    if ROUND_TIME - (now - r.roundStart) / 1000 <= 0 {
      EndRoundExact(r.(timeLeft := 0), h, now, word);
    }
  }

  lemma RemovedExact(seats: seq<Seat>, k: nat, h: seq<Player>)
    requires k < |seats| && Exact(seats, h)
    ensures Exact(RemoveAt(seats, k), h)
  {
    RemovedSeatGone(seats, k);
    assert forall i :: 0 <= i < |seats| - 1 ==> RemoveAt(seats, k)[i] == seats[if i < k then i else i + 1];
  }

  lemma LeaveExact(r: RoomView, t: nat, k: nat, h: seq<Player>, now: nat, word: string)
    requires Inv(r, t) && r.phase == Playing && Exact(r.seats, h) && k < |r.seats|
    ensures var s := RemoveSeat(r, k, now, word);
            Exact(s.seats, h + Drew(r, s))
  {
    ConcatNothing(h);
    RemovedExact(r.seats, k, h);
    if 3 <= |r.seats| {
      VacateReady(r, t, k);
      if r.seats[k].isDrawing {
        EndRoundExact(Vacate(r, k), h, now, word);
      }
    }
  }

  /** Whoever returns does so on a new connection: it has not drawn, and was not
      seen before. */
  ghost predicate NewReturn(e: Event, h: seq<Player>) {
    e.Rejoin? ==> !e.seat.hasDrawn && e.seat.who !in h
  }

  lemma RejoinExact(r: RoomView, s: Seat, h: seq<Player>)
    requires Exact(r.seats, h) && !s.hasDrawn && s.who !in h && SeatOf(r.seats, s.who) == -1
    ensures Exact(Reseat(r, s).0.seats, h)
  {
  }

  lemma StepExact(r: RoomView, t: nat, e: Event, h: seq<Player>)
    requires Inv(r, t) && r.phase == Playing && Exact(r.seats, h) && NewReturn(e, h)
    requires t <= e.now && Enabled(r, e)
    ensures Exact(Step(r, t, e).seats, h + Drew(r, Step(r, t, e)))
  {
    ConcatNothing(h);
    match e
    case Say(p, text, now, word) =>
      var k := SeatOf(r.seats, p);
      if k >= 0 {
        ChatExact(r, t, k, text, h, now, word);
      }
    case TimerTick(now, word) => TickExact(r, t, h, now, word);
    case Leave(p, now, word) =>
      var k := SeatOf(r.seats, p);
      if k >= 0 {
        LeaveExact(r, t, k, h, now, word);
      }
    case Rejoin(s, _) => RejoinExact(r, s, h);
    case Register(_, _, _, _) => SameExact(r.seats, Step(r, t, e).seats, h);
    case Join(_, _, _) =>
  }

  ghost predicate NewReturns(r: RoomView, t: nat, es: seq<Event>, h: seq<Player>)
    requires Inv(r, t) && Playable(r, t, es)
    decreases |es|
  {
    es != [] ==>
      && NewReturn(es[0], h)
      && (StepKeepsInv(r, t, es[0]);
          NewReturns(Step(r, t, es[0]), es[0].now, es[1..], h + Drew(r, Step(r, t, es[0]))))
  }

  lemma {:induction false} RunExact(r: RoomView, t: nat, es: seq<Event>, h: seq<Player>)
    requires Inv(r, t) && Playable(r, t, es) && NewReturns(r, t, es, h) && r.phase != Waiting
    requires (r.phase == Playing ==> Exact(r.seats, h)) && Run(r, t, es).phase == Playing
    ensures Exact(Run(r, t, es).seats, h + History(r, t, es))
    decreases |es|
  {
    if es == [] {
      ConcatNothing(h);
    } else {
      if r.phase == Ended {
        EndedForGood(r, t, es);
      }
      var s := Step(r, t, es[0]);
      StepKeepsInv(r, t, es[0]);
      StepExact(r, t, es[0], h);
      StepStarted(r, t, es[0]);
      RunExact(s, es[0].now, es[1..], h + Drew(r, s));
      ConcatAssociative(h, Drew(r, s), History(s, es[0].now, es[1..]));
    }
  }

  lemma StartExact(r: RoomView, t: nat, e: Event)
    requires Inv(r, t) && t <= e.now && Enabled(r, e) && r.phase == Waiting && Step(r, t, e).phase == Playing
    ensures Exact(Step(r, t, e).seats, Drew(r, Step(r, t, e)))
  {
    var m := StartLaunches(r, t, e);
    LaunchExact(m, e.now, e.word);
    assert Drew(r, Step(r, t, e)) == Drew(m, Launch(m, e.now, e.word));
  }

  lemma LaunchExact(m: RoomView, now: nat, word: string)
    requires Startable(m)
    ensures var s := Launch(m, now, word);
            Exact(s.seats, Drew(m, s))
  {
    ResetReady(m);
    NextRoundExact(Reset(m), [], now, word);
    NothingConcat(Drew(Reset(m), StartNextRound(Reset(m), now, word)));
    assert Drew(m, Launch(m, now, word)) == Drew(Reset(m), StartNextRound(Reset(m), now, word));
  }

  /** In a game whose returns are all on new connections, no connection draws twice,
      and a seated player counts as having drawn exactly if he has. */
  lemma FlagsAreExact(r: RoomView, t: nat, es: seq<Event>)
    requires Game(r, t, es) && Run(r, t, es).phase == Playing
    requires NewReturns(r, t, es, [])
    ensures Exact(Run(r, t, es).seats, History(r, t, es))
  {
    StepKeepsInv(r, t, es[0]);
    StartExact(r, t, es[0]);
    NothingConcat(Drew(r, Opening(r, t, es)));
    RunExact(Opening(r, t, es), es[0].now, es[1..], Drew(r, Opening(r, t, es)));
  }

  /** So when event e ends such a game with two or more players left, every one of
      them has had a turn exactly if no return was unplanned. */
  lemma EveryoneHadTurn(r: RoomView, t: nat, es: seq<Event>, e: Event)
    requires Game(r, t, es) && Run(r, t, es).phase == Playing && NewReturns(r, t, es, [])
    requires EndTime(t, es) <= e.now && Enabled(Run(r, t, es), e) && Inv(Run(r, t, es), EndTime(t, es))
    requires NewReturn(e, History(r, t, es))
    requires Step(Run(r, t, es), EndTime(t, es), e).phase == Ended
    requires 2 <= |Step(Run(r, t, es), EndTime(t, es), e).seats|
    ensures var s := Step(Run(r, t, es), EndTime(t, es), e);
            NextCount(Run(r, t, es), e, Owed(r, t, es)) == 0 <==>
              forall i :: 0 <= i < |s.seats| ==> s.seats[i].who in History(r, t, es)
  {
    var m := Run(r, t, es);
    FlagsAreExact(r, t, es);
    EndOwes(r, t, es, e);
    StepExact(m, EndTime(t, es), e, History(r, t, es));
    ConcatNothing(History(r, t, es));
  }
}
