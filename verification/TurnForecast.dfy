/** Who will draw, from any state of a running game up to the next departure or
    return, reconnections before it included. */
module TurnForecast {
  import opened Protocol
  import opened RoomSpec
  import opened TurnOrder
  import opened RoomInvariant
  import opened Runs
  import opened TurnHistory
  import opened Returns
  import opened Sequences

  /** Nobody leaves and nobody returns. */
  predicate Steady(es: seq<Event>) {
    forall i :: 0 <= i < |es| ==> !es[i].Leave? && !es[i].Rejoin?
  }

  /** The players still to draw, in order. */
  function Queue(r: RoomView): seq<Player>
    requires -1 <= r.drawer < |r.seats|
  {
    Names(Upcoming(r.seats, r.drawer))
  }

  /** The rounds still planned. */
  function RoundsLeft(r: RoomView): int {
    r.total - r.round
  }

  /** Of the queue q, b players will draw, and h have done so. The rest of q is the
      queue; while the game runs, the rest of b are the rounds left, and once it is
      over, there is no rest. */
  ghost predicate OnCourse(s: RoomView, q: seq<Player>, b: int, h: seq<Player>) {
    && s.phase != Waiting
    && 0 <= s.drawer < |s.seats| && h + Queue(s) == q
    && (if s.phase == Playing then 0 <= RoundsLeft(s) && |h| + RoundsLeft(s) == b else |h| == b)
  }

  lemma EndRoundOnCourse(r: RoomView, q: seq<Player>, b: int, h: seq<Player>, now: nat, word: string)
    requires RoundReady(r) && OnCourse(r, q, b, h)
    ensures var s := EndRound(r, now, word);
            OnCourse(s, q, b, h + Drew(r, s))
  {
    if OutOfRounds(r) {
      LastRoundOnCourse(r, q, b, h, now, word);
    } else {
      TurnOnCourse(r, q, b, h, now, word);
    }
  }

  lemma LastRoundOnCourse(r: RoomView, q: seq<Player>, b: int, h: seq<Player>, now: nat, word: string)
    requires RoundReady(r) && OutOfRounds(r) && OnCourse(r, q, b, h)
    ensures var s := EndRound(r, now, word);
            OnCourse(s, q, b, h + Drew(r, s))
  {
    NextRound(Send(r, Announce(RoundEnd)), now, word);
    ConcatNothing(h);
  }

  lemma TurnOnCourse(r: RoomView, q: seq<Player>, b: int, h: seq<Player>, now: nat, word: string)
    requires RoundReady(r) && !OutOfRounds(r) && OnCourse(r, q, b, h)
    ensures var s := EndRound(r, now, word);
            OnCourse(s, q, b, h + Drew(r, s))
  {
    var m := Send(r, Announce(RoundEnd));
    NextTurnOnCourse(m, q, b, h, now, word);
    SentOnCourse(m, StartNextRound(m, now, word), EndRound(r, now, word), q, b, h);
  }

  lemma NextTurnOnCourse(r: RoomView, q: seq<Player>, b: int, h: seq<Player>, now: nat, word: string)
    requires RoundReady(r) && !OutOfRounds(r) && OnCourse(r, q, b, h)
    ensures var s := StartNextRound(r, now, word);
            OnCourse(s, q, b, h + Drew(r, s))
  {
    NextRound(r, now, word);
    TurnPopsHead(r.(round := r.round + 1), now, word);
    TurnCounts(r, q, b, h, StartNextRound(r, now, word));
  }

  lemma SentOnCourse(r: RoomView, s: RoomView, e: RoomView, q: seq<Player>, b: int, h: seq<Player>)
    requires OnCourse(s, q, b, h + Drew(r, s)) && e == s.(sent := e.sent)
    ensures OnCourse(e, q, b, h + Drew(r, e))
  {
  }

  lemma TurnCounts(r: RoomView, q: seq<Player>, b: int, h: seq<Player>, s: RoomView)
    requires 0 <= r.drawer < |r.seats| && OnCourse(r, q, b, h) && Queue(r) != [] && r.phase == Playing == s.phase
    requires s.round == r.round + 1 && s.total == r.total && s.round <= s.total
    requires 0 <= s.drawer < |s.seats| && s.seats[s.drawer].who == Queue(r)[0] && Queue(s) == Queue(r)[1..]
    ensures OnCourse(s, q, b, h + Drew(r, s))
  {
    HeadToHistory(h, Queue(r)[0], Queue(r));
  }

  lemma AwardOnCourse(r: RoomView, t: nat, k: nat, q: seq<Player>, b: int, h: seq<Player>)
    requires Inv(r, t) && r.phase == Playing && k < |r.seats| && !r.seats[k].isDrawing
    requires OnCourse(r, q, b, h)
    ensures OnCourse(ScoreGuess(r, k), q, b, h)
    ensures RoundReady(ScoreGuess(r, k))
  {
    AwardKeepsInv(r, t, k);
    AwardKeepsQueue(r.seats, r.drawer, k, Points(r.timeLeft));
  }

  lemma AcceptOnCourse(r: RoomView, t: nat, k: nat, q: seq<Player>, b: int, h: seq<Player>, now: nat, word: string)
    requires Inv(r, t) && r.phase == Playing && k < |r.seats| && !r.seats[k].isDrawing
    requires OnCourse(r, q, b, h)
    ensures var s := AcceptGuess(r, k, now, word);
            OnCourse(s, q, b, h + Drew(r, s))
  {
    ConcatNothing(h);
    AwardOnCourse(r, t, k, q, b, h);
    if AllSettled(ScoreGuess(r, k).seats) {
      EndRoundOnCourse(ScoreGuess(r, k), q, b, h, now, word);
    }
  }

  lemma SendOnCourse(r: RoomView, s: RoomView, q: seq<Player>, b: int, h: seq<Player>, m: Message)
    requires OnCourse(s, q, b, h + Drew(r, s))
    ensures OnCourse(Send(s, m), q, b, h + Drew(r, Send(s, m)))
  {
  }

  lemma ChatOnCourse(r: RoomView, t: nat, k: nat, text: string, q: seq<Player>, b: int, h: seq<Player>, now: nat,
                     word: string)
    requires Inv(r, t) && OnCourse(r, q, b, h) && k < |r.seats|
    ensures var s := Chat(r, k, text, now, word);
            OnCourse(s, q, b, h + Drew(r, s))
  {
    ConcatNothing(h);
    ChatCases(r, k, text, now, word);
    if Chat(r, k, text, now, word) == Send(r, Announce(ChatBroadcast)) {
      SendOnCourse(r, r, q, b, h, Announce(ChatBroadcast));
    } else {
      var s := AcceptGuess(r, k, now, word);
      AcceptOnCourse(r, t, k, q, b, h, now, word);
      SendOnCourse(r, s, q, b, h, Announce(GuessCorrect));
      SendOnCourse(r, Send(s, Announce(GuessCorrect)), q, b, h, Announce(ScoreUpdate));
    }
  }

  lemma TimerOnCourse(r: RoomView, t: nat, q: seq<Player>, b: int, h: seq<Player>, now: nat, word: string)
    requires Inv(r, t) && r.phase == Playing && OnCourse(r, q, b, h) && t <= now
    ensures var s := UpdateTimer(r, now, word);
            OnCourse(s, q, b, h + Drew(r, s))
  {
    ConcatNothing(h);
    if ROUND_TIME - (now - r.roundStart) / 1000 <= 0 {
      EndRoundOnCourse(r.(timeLeft := 0), q, b, h, now, word);
    }
  }

  lemma TickOnCourse(r: RoomView, t: nat, q: seq<Player>, b: int, h: seq<Player>, now: nat, word: string)
    requires Inv(r, t) && OnCourse(r, q, b, h) && t <= now
    ensures var s := Ticked(r, now, word);
            OnCourse(s, q, b, h + Drew(r, s))
  {
    ConcatNothing(h);
    if r.phase == Playing {
      TimerOnCourse(r, t, q, b, h, now, word);
      SendOnCourse(r, UpdateTimer(r, now, word), q, b, h, Announce(TimerUpdate(UpdateTimer(r, now, word).timeLeft)));
    }
  }

  lemma StepOnCourse(r: RoomView, t: nat, e: Event, q: seq<Player>, b: int, h: seq<Player>)
    requires Inv(r, t) && OnCourse(r, q, b, h)
    requires t <= e.now && Enabled(r, e) && !e.Leave? && !e.Rejoin?
    ensures OnCourse(Step(r, t, e), q, b, h + Drew(r, Step(r, t, e)))
  {
    ConcatNothing(h);
    match e
    case Say(p, text, now, word) =>
      var k := SeatOf(r.seats, p);
      if k >= 0 {
        ChatOnCourse(r, t, k, text, q, b, h, now, word);
      }
    case TimerTick(now, word) => TickOnCourse(r, t, q, b, h, now, word);
    case Register(p, id, token, _) =>
      var k := SeatOf(r.seats, p);
      if k >= 0 {
        RegisterKeepsQueue(r.seats, r.drawer, k, id, token);
      }
    case _ =>
  }

  lemma {:induction false} RunOnCourse(r: RoomView, t: nat, es: seq<Event>, q: seq<Player>, b: int, h: seq<Player>)
    requires Inv(r, t) && Playable(r, t, es) && Steady(es) && OnCourse(r, q, b, h)
    ensures OnCourse(Run(r, t, es), q, b, h + History(r, t, es))
    decreases |es|
  {
    if es == [] {
      ConcatNothing(h);
    } else {
      var s := Step(r, t, es[0]);
      StepKeepsInv(r, t, es[0]);
      StepOnCourse(r, t, es[0], q, b, h);
      RunOnCourse(s, es[0].now, es[1..], q, b, h + Drew(r, s));
      ConcatAssociative(h, Drew(r, s), History(s, es[0].now, es[1..]));
    }
  }

  /** From a running room on, as long as nobody leaves or returns, the drawers come
      from its queue q in order, as many as rounds are left. Once the game is over,
      those still in the queue are exactly the rest of q. */
  ghost predicate Foreseen(r: RoomView, s: RoomView, h: seq<Player>)
    requires 0 <= r.drawer < |r.seats|
  {
    && s.phase != Waiting && 0 <= s.drawer < |s.seats|
    && 0 <= RoundsLeft(r) <= |Queue(r)|
    && (s.phase == Playing ==> h + Queue(s) == Queue(r) && |h| + RoundsLeft(s) == RoundsLeft(r))
    && (s.phase == Ended ==> h == Queue(r)[..RoundsLeft(r)] && Queue(s) == Queue(r)[RoundsLeft(r)..])
  }

  lemma SplitConcat<T>(h: seq<T>, rest: seq<T>)
    ensures (h + rest)[..|h|] == h && (h + rest)[|h|..] == rest
  {
  }

  lemma RunForeseen(r: RoomView, t: nat, es: seq<Event>)
    requires Inv(r, t) && Playable(r, t, es) && Steady(es) && r.phase == Playing && r.round <= r.total
    ensures Foreseen(r, Run(r, t, es), History(r, t, es))
  {
    RotationPending(r.seats, r.drawer);
    NothingConcat(Queue(r));
    NothingConcat(History(r, t, es));
    RunOnCourse(r, t, es, Queue(r), RoundsLeft(r), []);
    SplitConcat(History(r, t, es), Queue(Run(r, t, es)));
  }

  /** The part front of a game has been played, reconnections included, and the
      game goes on with es. */
  ghost predicate Continued(r: RoomView, t: nat, front: seq<Event>, es: seq<Event>) {
    && Game(r, t, front) && Run(r, t, front).phase == Playing
    && Inv(Run(r, t, front), EndTime(t, front)) && Playable(Run(r, t, front), EndTime(t, front), es)
  }

  /** So it is at every point of every game. */
  lemma Forecast(r: RoomView, t: nat, front: seq<Event>, es: seq<Event>)
    requires Continued(r, t, front, es) && Steady(es)
    ensures var m, now := Run(r, t, front), EndTime(t, front);
            Foreseen(m, Run(m, now, es), History(m, now, es))
  {
    RoundsOwed(r, t, front);
    RunForeseen(Run(r, t, front), EndTime(t, front), es);
  }

  // ----- Where a returner stands -----

  lemma NamesConcat(a: seq<Seat>, b: seq<Seat>)
    ensures Names(a + b) == Names(a) + Names(b)
  {
  }

  /** A player who returns without having drawn takes the last seat, and so enters the
      queue behind those after the drawer, and in front of those up to him. */
  lemma ReturnerInQueue(seats: seq<Seat>, d: nat, s: Seat)
    requires d < |seats| && !s.hasDrawn
    ensures Upcoming(seats + [s], d) == Pending(seats[d + 1..]) + [s] + Pending(seats[..d + 1])
    ensures Upcoming(seats, d) == Pending(seats[d + 1..]) + Pending(seats[..d + 1])
  {
    assert (seats + [s])[d + 1..] == seats[d + 1..] + [s];
    assert (seats + [s])[..d + 1] == seats[..d + 1];
    PendingConcat(seats[d + 1..] + [s], seats[..d + 1]);
    PendingConcat(seats[d + 1..], [s]);
    NothingDrawn([s]);
    PendingConcat(seats[d + 1..], seats[..d + 1]);
  }

  /** p is seated and does not count as having drawn. */
  ghost predicate Undone(seats: seq<Seat>, p: Player) {
    exists i :: 0 <= i < |seats| && seats[i].who == p && !seats[i].hasDrawn
  }

  /** The queue holds those who do not count as having drawn, each of them once. */
  lemma QueueMembers(r: RoomView, p: Player)
    requires -1 <= r.drawer < |r.seats| && DistinctSeats(r.seats)
    ensures p in Queue(r) <==> Undone(r.seats, p)
    ensures NoDuplicates(Queue(r))
  {
    RotationMembers(r.seats, r.drawer);
    PendingMembers(Rotation(r.seats, r.drawer), p);
    if Undone(r.seats, p) {
      SameUndone(r.seats, Rotation(r.seats, r.drawer), p);
    } else if Undone(Rotation(r.seats, r.drawer), p) {
      SameUndone(Rotation(r.seats, r.drawer), r.seats, p);
    }
  }

  lemma SameUndone(a: seq<Seat>, b: seq<Seat>, p: Player)
    requires Undone(a, p) && forall i :: 0 <= i < |a| ==> a[i] in b
    ensures Undone(b, p)
  {
    var i :| 0 <= i < |a| && a[i].who == p && !a[i].hasDrawn;
    assert a[i] in b;
  }

  lemma RotationMembers(seats: seq<Seat>, d: int)
    requires -1 <= d < |seats| && DistinctSeats(seats)
    ensures forall i :: 0 <= i < |seats| ==> Rotation(seats, d)[i] in seats && seats[i] in Rotation(seats, d)
    ensures DistinctSeats(Rotation(seats, d))
  {
    forall i | 0 <= i < |seats| ensures Rotation(seats, d)[i] in seats && seats[i] in Rotation(seats, d) {
      RotationAt(seats, d, i);
      RotationAt(seats, d, if i > d then i - d - 1 else |seats| - d - 1 + i);
    }
    forall i, j | 0 <= i < j < |seats| ensures Rotation(seats, d)[i].who != Rotation(seats, d)[j].who {
      RotationAt(seats, d, i);
      RotationAt(seats, d, j);
    }
  }

  lemma RotationAt(seats: seq<Seat>, d: int, j: nat)
    requires -1 <= d < |seats| && j < |seats|
    ensures Rotation(seats, d)[j] == seats[if j < |seats| - d - 1 then d + 1 + j else j - (|seats| - d - 1)]
  {
  }

  lemma {:induction false} PendingMembers(seats: seq<Seat>, p: Player)
    requires DistinctSeats(seats)
    ensures p in Names(Pending(seats)) <==> Undone(seats, p)
    ensures NoDuplicates(Names(Pending(seats)))
  {
    if seats != [] {
      var rest := seats[1..];
      assert forall i, j :: 0 <= i < j < |rest| ==> rest[i] == seats[i + 1] && rest[j] == seats[j + 1];
      PendingMembers(rest, p);
      PendingMembers(rest, seats[0].who);
      UndoneStep(seats, p);
      UndoneStep(seats, seats[0].who);
      NamesConcat(if seats[0].hasDrawn then [] else [seats[0]], Pending(rest));
      assert Names([seats[0]]) == [seats[0].who];
      assert Names(Pending(seats)) ==
        (if seats[0].hasDrawn then [] else [seats[0].who]) + Names(Pending(rest));
    }
  }

  lemma UndoneStep(seats: seq<Seat>, p: Player)
    requires seats != [] && DistinctSeats(seats)
    ensures Undone(seats, p) <==> (seats[0].who == p && !seats[0].hasDrawn) || Undone(seats[1..], p)
    ensures !Undone(seats[1..], seats[0].who)
  {
    var rest := seats[1..];
    if Undone(rest, p) {
      var i :| 0 <= i < |rest| && rest[i].who == p && !rest[i].hasDrawn;
      assert seats[i + 1].who == p && !seats[i + 1].hasDrawn;
    }
    if Undone(seats, p) {
      var i :| 0 <= i < |seats| && seats[i].who == p && !seats[i].hasDrawn;
      if i > 0 {
        assert rest[i - 1].who == p && !rest[i - 1].hasDrawn;
        assert Undone(rest, p);
      }
    }
  }

  /** The game goes on from r with es to its end, without departures and returns. */
  ghost predicate PlaysOut(r: RoomView, t: nat, es: seq<Event>) {
    Inv(r, t) && Playable(r, t, es) && Steady(es) && Run(r, t, es).phase == Ended
  }

  /** A player who returns to a running game draws, on the new connection, before
      anybody else leaves or returns exactly if fewer players are before him in the
      queue than rounds are left: those behind the drawer. */
  lemma ReturnerDraws(r: RoomView, t: nat, front: seq<Event>, m: RoomView, s: Seat, now: nat, es: seq<Event>)
    requires Reached(r, t, front, m) && |m.seats| < MAX_PLAYERS && !s.hasDrawn
    requires PlaysOut(Reseat(m, s).0, now, es)
    ensures 0 <= m.drawer < |m.seats|
    ensures s.who in History(Reseat(m, s).0, now, es) <==> |Pending(m.seats[m.drawer + 1..])| < RoundsLeft(m)
  {
    RoundsRemain(r, t, front, m);
    SeatedReturnerDraws(m, s, now, es);
  }

  /** The part front of a game leads to m, where the game runs. */
  ghost predicate Reached(r: RoomView, t: nat, front: seq<Event>, m: RoomView) {
    Game(r, t, front) && m == Run(r, t, front) && m.phase == Playing
  }

  lemma RoundsRemain(r: RoomView, t: nat, front: seq<Event>, m: RoomView)
    requires Reached(r, t, front, m)
    ensures 0 <= m.drawer < |m.seats| && m.round <= m.total
  {
    RoundsOwed(r, t, front);
    RunKeepsInv(r, t, front);
  }

  lemma SeatedReturnerDraws(m: RoomView, s: Seat, now: nat, es: seq<Event>)
    requires 0 <= m.drawer < |m.seats| < MAX_PLAYERS && !s.hasDrawn && m.phase == Playing && m.round <= m.total
    requires PlaysOut(Reseat(m, s).0, now, es)
    ensures s.who in History(Reseat(m, s).0, now, es) <==> |Pending(m.seats[m.drawer + 1..])| < RoundsLeft(m)
  {
    var back := Reseat(m, s).0;
    RunForeseen(back, now, es);
    ReturnerInQueue(m.seats, m.drawer, s);
    ReturnerPlace(back, |Pending(m.seats[m.drawer + 1..])|, s.who, RoundsLeft(m));
  }

  lemma ReturnerPlace(a: RoomView, i: nat, p: Player, b: nat)
    requires 0 <= a.drawer < |a.seats| && DistinctSeats(a.seats) && b <= |Queue(a)|
    requires i < |Queue(a)| && Queue(a)[i] == p
    ensures p in Queue(a)[..b] <==> i < b
  {
    QueueMembers(a, p);
    if i < b {
      assert Queue(a)[..b][i] == p;
    }
  }

  /** At the end of the game, those who never came to draw are exactly the rest of
      the queue: those behind the first players for whom rounds were left. */
  lemma LeftOutAtEnd(r: RoomView, t: nat, front: seq<Event>, es: seq<Event>, p: Player)
    requires Continued(r, t, front, es) && Steady(es)
    requires Run(Run(r, t, front), EndTime(t, front), es).phase == Ended
    ensures var m := Run(r, t, front);
            var s := Run(m, EndTime(t, front), es);
            && 0 <= m.drawer < |m.seats| && 0 <= RoundsLeft(m) <= |Queue(m)|
            && (Undone(s.seats, p) <==> p in Queue(m)[RoundsLeft(m)..])
  {
    Forecast(r, t, front, es);
    RunKeepsInv(Run(r, t, front), EndTime(t, front), es);
    QueueMembers(Run(Run(r, t, front), EndTime(t, front), es), p);
  }
}
