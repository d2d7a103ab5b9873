/** Who draws, and in what order, over whole games without reconnections. */
module TurnHistory {
  import opened Protocol
  import opened RoomSpec
  import opened TurnOrder
  import opened RoomInvariant
  import opened Runs
  import opened Sequences

  // ----- Subsequences -----

  ghost predicate Subsequence<T>(a: seq<T>, b: seq<T>) {
    a == [] ||
    (b != [] && ((a[0] == b[0] && Subsequence(a[1..], b[1..])) || Subsequence(a, b[1..])))
  }

  ghost predicate NoDuplicates<T>(s: seq<T>) {
    forall i, j :: 0 <= i < j < |s| ==> s[i] != s[j]
  }

  lemma {:induction false} SubsequenceReflexive<T>(a: seq<T>)
    ensures Subsequence(a, a)
  {
    if a != [] {
      SubsequenceReflexive(a[1..]);
    }
  }

  lemma {:induction false} SubsequenceTransitive<T>(a: seq<T>, b: seq<T>, c: seq<T>)
    requires Subsequence(a, b) && Subsequence(b, c)
    ensures Subsequence(a, c)
    decreases |a| + |b| + |c|
  {
    if a == [] {
    } else if b[0] == c[0] && Subsequence(b[1..], c[1..]) {
      if a[0] == b[0] && Subsequence(a[1..], b[1..]) {
        SubsequenceTransitive(a[1..], b[1..], c[1..]);
      } else {
        SubsequenceTransitive(a, b[1..], c[1..]);
      }
    } else {
      SubsequenceTransitive(a, b, c[1..]);
    }
  }

  lemma {:induction false} SubsequencePrefixed<T>(h: seq<T>, a: seq<T>, b: seq<T>)
    requires Subsequence(a, b)
    ensures Subsequence(h + a, h + b)
  {
    if h == [] {
      assert h + a == a && h + b == b;
    } else {
      SubsequencePrefixed(h[1..], a, b);
      assert (h + a)[1..] == h[1..] + a && (h + b)[1..] == h[1..] + b;
    }
  }

  lemma {:induction false} SubsequenceMember<T>(a: seq<T>, b: seq<T>, x: T)
    requires Subsequence(a, b) && x in a
    ensures x in b
    decreases |b|
  {
    if a[0] == b[0] && Subsequence(a[1..], b[1..]) {
      if x != a[0] {
        SubsequenceMember(a[1..], b[1..], x);
      }
    } else {
      SubsequenceMember(a, b[1..], x);
    }
  }

  lemma {:induction false} SubsequenceDistinct<T>(a: seq<T>, b: seq<T>)
    requires Subsequence(a, b) && NoDuplicates(b)
    ensures NoDuplicates(a)
    decreases |b|
  {
    if a == [] {
    } else if a[0] == b[0] && Subsequence(a[1..], b[1..]) {
      SubsequenceDistinct(a[1..], b[1..]);
      if a[0] in a[1..] {
        SubsequenceMember(a[1..], b[1..], a[0]);
      }
      assert forall i :: 1 <= i < |a| ==> a[i] == a[1..][i - 1];
    } else {
      SubsequenceDistinct(a, b[1..]);
    }
  }

  lemma {:induction false} WithoutIsSubsequence(q: seq<Seat>, p: Player)
    ensures Subsequence(Names(Without(q, p)), Names(q))
  {
    if q != [] {
      WithoutIsSubsequence(q[1..], p);
      assert Names(q)[1..] == Names(q[1..]);
      if q[0].who == p {
        assert Without(q, p) == Without(q[1..], p);
      } else {
        assert Names(Without(q, p))[1..] == Names(Without(q[1..], p));
      }
    }
  }

  ghost function Times<T>(h: seq<T>, x: T): nat {
    multiset(h)[x]
  }

  lemma {:induction false} OnceInHistory<T>(h: seq<T>, x: T)
    requires x in h && NoDuplicates(h)
    ensures Times(h, x) == 1
  {
    var last := |h| - 1;
    assert h == h[..last] + [h[last]];
    if h[last] == x {
      assert x !in h[..last];
    } else {
      OnceInHistory(h[..last], x);
    }
  }

  // ----- The history of drawers -----

  /** The drawer of the turn that a step started, if it started one. */
  ghost function Drew(r: RoomView, s: RoomView): seq<Player> {
    if s.phase == Playing && s.round != r.round && 0 <= s.drawer < |s.seats| then [s.seats[s.drawer].who] else []
  }

  ghost function History(r: RoomView, t: nat, es: seq<Event>): seq<Player>
    requires Inv(r, t) && Playable(r, t, es)
    decreases |es|
  {
    if es == [] then []
    else
      StepKeepsInv(r, t, es[0]);
      var s := Step(r, t, es[0]);
      Drew(r, s) + History(s, es[0].now, es[1..])
  }

  // ----- What holds without reconnections -----

  /** One drawer only, and exactly as many rounds to go as players to draw; a
      game ends because all have drawn or because fewer than two are left. */
  ghost predicate Undisturbed(r: RoomView) {
    && (r.phase == Playing ==>
          && r.total == r.round + Undrawn(r.seats)
          && forall i :: 0 <= i < |r.seats| ==> (r.seats[i].isDrawing <==> i == r.drawer))
    && (r.phase == Ended ==> Undrawn(r.seats) == 0 || |r.seats| < 2)
  }

  /** Whoever counts as having drawn is in the history. */
  ghost predicate Recorded(seats: seq<Seat>, h: seq<Player>) {
    forall i :: 0 <= i < |seats| && seats[i].hasDrawn ==> seats[i].who in h
  }

  /** The history h followed by the queue is an excerpt of the seating at the
      start of the game, and whoever counts as having drawn is in h. */
  ghost predicate InOrder(r: RoomView, h: seq<Player>, seating: seq<Player>) {
    && (r.phase == Playing ==>
          && -1 <= r.drawer < |r.seats|
          && Subsequence(h + Names(Upcoming(r.seats, r.drawer)), seating))
    && Subsequence(h, seating)
    && Recorded(r.seats, h)
  }

  ghost predicate Good(r: RoomView, h: seq<Player>, seating: seq<Player>) {
    Undisturbed(r) && r.phase != Waiting && InOrder(r, h, seating)
  }

  // ----- The next round -----

  lemma PrefixIsSubsequence<T>(a: seq<T>, b: seq<T>, c: seq<T>)
    requires Subsequence(a + b, c)
    ensures Subsequence(a, c)
  {
    SubsequencePrefixed(a, [], b);
    assert a + [] == a;
    SubsequenceTransitive(a, a + b, c);
  }

  /** A turn moves the head of the queue to the end of the history. */
  lemma TurnInOrder(r: RoomView, h: seq<Player>, seating: seq<Player>, now: nat, word: string)
    requires -1 <= r.drawer < |r.seats| && 0 < Undrawn(r.seats) && InOrder(r, h, seating) && r.phase == Playing
    ensures var s := TakeTurn(r, now, word);
            0 <= s.drawer < |s.seats| && InOrder(s, h + [s.seats[s.drawer].who], seating)
  {
    var s, queue := TakeTurn(r, now, word), Names(Upcoming(r.seats, r.drawer));
    TurnPopsHead(r, now, word);
    SearchFindsHead(r.seats, r.drawer);
    var p := s.seats[s.drawer].who;
    HeadToHistory(h, p, queue);
    PrefixIsSubsequence(h + [p], queue[1..], seating);
  }

  lemma HeadToHistory<T>(h: seq<T>, x: T, queue: seq<T>)
    requires queue != [] && queue[0] == x
    ensures h + queue == (h + [x]) + queue[1..]
  {
  }

  lemma NextRoundInOrder(r: RoomView, h: seq<Player>, seating: seq<Player>, now: nat, word: string)
    requires RoundReady(r) && r.total == r.round + Undrawn(r.seats) && InOrder(r, h, seating)
    ensures InOrder(StartNextRound(r, now, word), h + Drew(r, StartNextRound(r, now, word)), seating)
  {
    NextRound(r, now, word);
    if OutOfRounds(r) {
      LastRoundInOrder(r, h, seating, now, word);
    } else {
      TurnInOrder(r.(round := r.round + 1), h, seating, now, word);
    }
  }

  lemma LastRoundInOrder(r: RoomView, h: seq<Player>, seating: seq<Player>, now: nat, word: string)
    requires RoundReady(r) && OutOfRounds(r) && InOrder(r, h, seating)
    ensures InOrder(StartNextRound(r, now, word), h + Drew(r, StartNextRound(r, now, word)), seating)
  {
    NextRound(r, now, word);
    ConcatNothing(h);
  }

  lemma NextRoundUndisturbed(r: RoomView, now: nat, word: string)
    requires RoundReady(r) && r.total == r.round + Undrawn(r.seats)
    ensures Undisturbed(StartNextRound(r, now, word))
  {
    NextRound(r, now, word);
  }

  lemma EndRoundGood(r: RoomView, h: seq<Player>, seating: seq<Player>, now: nat, word: string)
    requires RoundReady(r) && 0 <= r.drawer && r.total == r.round + Undrawn(r.seats) && InOrder(r, h, seating)
    ensures var s := EndRound(r, now, word);
            Good(s, h + Drew(r, s), seating)
  {
    var m := Send(r, Announce(RoundEnd));
    NextRoundGood(m, h, seating, now, word);
    SentGood(m, StartNextRound(m, now, word), EndRound(r, now, word), h, seating);
  }

  lemma NextRoundGood(r: RoomView, h: seq<Player>, seating: seq<Player>, now: nat, word: string)
    requires RoundReady(r) && r.total == r.round + Undrawn(r.seats) && InOrder(r, h, seating)
    ensures Good(StartNextRound(r, now, word), h + Drew(r, StartNextRound(r, now, word)), seating)
  {
    NextRoundInOrder(r, h, seating, now, word);
    NextRoundUndisturbed(r, now, word);
    NextRound(r, now, word);
  }

  /** What is sent makes no difference. */
  lemma SentGood(r: RoomView, s: RoomView, e: RoomView, h: seq<Player>, seating: seq<Player>)
    requires Good(s, h + Drew(r, s), seating) && e == s.(sent := e.sent)
    ensures Good(e, h + Drew(r, e), seating)
  {
  }

  lemma ResetInOrder(r: RoomView)
    requires 2 <= |r.seats| && r.drawer == -1
    ensures InOrder(Reset(r), [], Names(r.seats))
  {
    var seats := Reset(r).seats;
    NothingDrawn(seats);
    SubsequenceReflexive(Names(r.seats));
    RotationWrap(seats);
    ResetNames(r);
    NothingConcat(Names(seats));
  }

  lemma ResetNames(r: RoomView)
    ensures Names(Reset(r).seats) == Names(r.seats)
  {
  }

  /** The game starts with the whole seating in the queue. */
  lemma LaunchGood(r: RoomView, now: nat, word: string)
    requires 2 <= |r.seats| <= MAX_PLAYERS && DistinctSeats(r.seats) && r.drawer == -1 && r.round == 0
    ensures var s := Launch(r, now, word);
            Good(s, Drew(r, s), Names(r.seats))
  {
    ResetReady(r);
    ResetInOrder(r);
    var m := Reset(r);
    NextRound(m, now, word);
    NextRoundInOrder(m, [], Names(r.seats), now, word);
    NextRoundUndisturbed(m, now, word);
    var s, e := StartNextRound(m, now, word), Launch(r, now, word);
    assert e == s.(sent := e.sent);
    assert Drew(r, e) == [] + Drew(m, s);
  }

  lemma {:induction false} NothingDrawn(a: seq<Seat>)
    requires forall i :: 0 <= i < |a| ==> !a[i].hasDrawn
    ensures Pending(a) == a
  {
    if a != [] {
      NothingDrawn(a[1..]);
    }
  }

  // ----- A departure and the turn -----

  /** The end of a round hands the turn to the head of the queue, or ends the game
      when nobody is waiting. */
  ghost predicate HandsOn(queue: seq<Seat>, round: int, s: RoomView) {
    && 0 <= s.drawer < |s.seats|
    && (if queue == [] then s.phase == Ended
        else s.phase == Playing && s.round == round + 1 && s.seats[s.drawer].who == queue[0].who &&
             Names(Upcoming(s.seats, s.drawer)) == Names(queue)[1..])
  }

  lemma NextRoundHandsOn(r: RoomView, now: nat, word: string)
    requires RoundReady(r) && 0 <= r.drawer && r.total == r.round + Undrawn(r.seats)
    ensures HandsOn(Upcoming(r.seats, r.drawer), r.round, StartNextRound(r, now, word))
  {
    RotationPending(r.seats, r.drawer);
    NextRound(r, now, word);
    if Undrawn(r.seats) > 0 {
      TurnPopsHead(r.(round := r.round + 1), now, word);
    }
  }

  lemma EndRoundHandsOn(r: RoomView, now: nat, word: string)
    requires RoundReady(r) && 0 <= r.drawer && r.total == r.round + Undrawn(r.seats)
    ensures HandsOn(Upcoming(r.seats, r.drawer), r.round, EndRound(r, now, word))
  {
    NextRoundHandsOn(Send(r, Announce(RoundEnd)), now, word);
  }

  lemma QuietLeave(r: RoomView, t: nat, k: nat)
    requires Inv(r, t) && r.phase == Playing && 3 <= |r.seats| && k < |r.seats| && !r.seats[k].isDrawing
    ensures 0 <= Vacate(r, k).drawer < |Vacate(r, k).seats|
    ensures Vacate(r, k).seats[Vacate(r, k).drawer] == r.seats[r.drawer]
  {
  }

  /** A departure from a running game of three or more, in any place and with any
      flags: the players still to draw are those before it without the leaver, in
      the same order. If the leaver was drawing, the turn ends, and the first of
      them becomes the drawer or, when there is none, the game is over. */
  lemma LeaveHandsOn(r: RoomView, t: nat, k: nat, now: nat, word: string)
    requires Inv(r, t) && r.phase == Playing && 3 <= |r.seats| && k < |r.seats|
    ensures var s := RemoveSeat(r, k, now, word);
            var queue := Without(Upcoming(r.seats, r.drawer), r.seats[k].who);
            if r.seats[k].isDrawing then HandsOn(queue, r.round, s)
            else
              && s.phase == Playing && s.round == r.round && 0 <= s.drawer < |s.seats|
              && s.seats[s.drawer].who == r.seats[r.drawer].who
              && Upcoming(s.seats, s.drawer) == queue
  {
    VacateReady(r, t, k);
    VacateQueue(r, t, k);
    if r.seats[k].isDrawing {
      EndRoundHandsOn(Vacate(r, k), now, word);
    } else {
      QuietLeave(r, t, k);
    }
  }

  lemma VacateQueue(r: RoomView, t: nat, k: nat)
    requires Inv(r, t) && r.phase == Playing && 3 <= |r.seats| && k < |r.seats|
    ensures var v := Vacate(r, k);
            && 0 <= v.drawer < |v.seats| && v.total == v.round + Undrawn(v.seats)
            && Upcoming(v.seats, v.drawer) == Without(Upcoming(r.seats, r.drawer), r.seats[k].who)
  {
    QueueSurvivesLeave(r.seats, r.drawer, k);
  }

  /** So it is the leaver's drawing flag that ends the turn, even when it is out of
      date and the real drawer stays. */
  lemma FlagEndsTurn(r: RoomView, t: nat, k: nat, now: nat, word: string)
    requires Inv(r, t) && r.phase == Playing && 3 <= |r.seats| && k < |r.seats|
    ensures RemoveSeat(r, k, now, word).round == r.round + (if r.seats[k].isDrawing then 1 else 0)
  {
    VacateReady(r, t, k);
    NextRound(Send(Vacate(r, k), Announce(RoundEnd)), now, word);
  }

  // ----- Steps -----

  lemma RecordedRemoveAt(seats: seq<Seat>, k: nat, h: seq<Player>)
    requires k < |seats| && Recorded(seats, h)
    ensures Recorded(RemoveAt(seats, k), h)
  {
    assert forall i :: 0 <= i < |seats| - 1 ==> RemoveAt(seats, k)[i] == seats[if i < k then i else i + 1];
  }

  lemma VacateInOrder(r: RoomView, t: nat, k: nat, h: seq<Player>, seating: seq<Player>)
    requires Inv(r, t) && Good(r, h, seating) && k < |r.seats| && r.phase == Playing && 3 <= |r.seats|
    ensures InOrder(Vacate(r, k), h, seating)
  {
    var queue, p := Upcoming(r.seats, r.drawer), r.seats[k].who;
    QueueSurvivesLeave(r.seats, r.drawer, k);
    WithoutIsSubsequence(queue, p);
    SubsequencePrefixed(h, Names(Without(queue, p)), Names(queue));
    SubsequenceTransitive(h + Names(Without(queue, p)), h + Names(queue), seating);
    RecordedRemoveAt(r.seats, k, h);
  }

  lemma VacateUndisturbed(r: RoomView, t: nat, k: nat)
    requires Inv(r, t) && Undisturbed(r) && r.phase == Playing && k < |r.seats| && 3 <= |r.seats|
    ensures RoundReady(Vacate(r, k)) && 0 <= Vacate(r, k).drawer
    ensures Vacate(r, k).total == Vacate(r, k).round + Undrawn(Vacate(r, k).seats)
    ensures !r.seats[k].isDrawing ==> Undisturbed(Vacate(r, k))
  {
    RemovedSeatGone(r.seats, k);
    RepairedRotation(r.seats, r.drawer, k);
  }

  lemma LeaveGood(r: RoomView, t: nat, k: nat, h: seq<Player>, seating: seq<Player>, now: nat, word: string)
    requires Inv(r, t) && Good(r, h, seating) && k < |r.seats|
    requires r.phase == Playing && 3 <= |r.seats|
    ensures var s := RemoveSeat(r, k, now, word);
            Good(s, h + Drew(r, s), seating)
  {
    ConcatNothing(h);
    VacateInOrder(r, t, k, h, seating);
    VacateUndisturbed(r, t, k);
    if r.seats[k].isDrawing {
      EndRoundGood(Vacate(r, k), h, seating, now, word);
    }
  }

  /** A departure that ends the game, or that comes after its end. */
  lemma LastLeaveGood(r: RoomView, t: nat, k: nat, h: seq<Player>, seating: seq<Player>, now: nat, word: string)
    requires Inv(r, t) && Good(r, h, seating) && k < |r.seats|
    requires r.phase == Ended || |r.seats| == 2
    ensures var s := RemoveSeat(r, k, now, word);
            Good(s, h + Drew(r, s), seating)
  {
    RecordedRemoveAt(r.seats, k, h);
    ConcatNothing(h);
    UndrawnRemoveAt(r.seats, k);
  }

  lemma AwardKeepsQueue(seats: seq<Seat>, d: nat, k: nat, points: int)
    requires d < |seats| && k < |seats|
    ensures Names(Upcoming(seats[k := Award(seats[k], points)], d)) == Names(Upcoming(seats, d))
  {
    PendingNames(Rotation(seats[k := Award(seats[k], points)], d), Rotation(seats, d));
  }

  lemma AwardGood(r: RoomView, t: nat, k: nat, h: seq<Player>, seating: seq<Player>)
    requires Inv(r, t) && Good(r, h, seating)
    requires r.phase == Playing && k < |r.seats| && !r.seats[k].isDrawing
    ensures var m := r.(seats := r.seats[k := Award(r.seats[k], Points(r.timeLeft))]);
            Inv(m, t) && Good(m, h, seating)
  {
    AwardKeepsInv(r, t, k);
    AwardKeepsQueue(r.seats, r.drawer, k, Points(r.timeLeft));
  }

  lemma AcceptGood(r: RoomView, t: nat, k: nat, h: seq<Player>, seating: seq<Player>, now: nat, word: string)
    requires Inv(r, t) && Good(r, h, seating)
    requires r.phase == Playing && k < |r.seats| && !r.seats[k].isDrawing
    ensures var s := AcceptGuess(r, k, now, word);
            Good(s, h + Drew(r, s), seating)
  {
    ConcatNothing(h);
    AwardGood(r, t, k, h, seating);
    var m := Send(r.(seats := r.seats[k := Award(r.seats[k], Points(r.timeLeft))]), Announce(ScoreUpdate));
    if AllSettled(m.seats) {
      EndRoundGood(m, h, seating, now, word);
    }
  }

  lemma SendGood(r: RoomView, s: RoomView, h: seq<Player>, seating: seq<Player>, m: Message)
    requires Good(s, h + Drew(r, s), seating)
    ensures Good(Send(s, m), h + Drew(r, Send(s, m)), seating)
  {
  }

  /** A chat message is shown, or it is a guess that is accepted. */
  lemma ChatCases(r: RoomView, k: nat, text: string, now: nat, word: string)
    requires k < |r.seats| && (r.phase == Playing ==> 0 <= r.drawer && 0 <= r.timeLeft)
    ensures || Chat(r, k, text, now, word) == Send(r, Announce(ChatBroadcast))
            || (&& r.phase == Playing && !r.seats[k].isDrawing
                && Chat(r, k, text, now, word)
                   == Send(Send(AcceptGuess(r, k, now, word), Announce(GuessCorrect)), Announce(ScoreUpdate)))
  {
  }

  lemma ChatGood(r: RoomView, t: nat, k: nat, h: seq<Player>, seating: seq<Player>, text: string, now: nat,
                 word: string)
    requires Inv(r, t) && Good(r, h, seating) && k < |r.seats|
    ensures var s := Chat(r, k, text, now, word);
            Good(s, h + Drew(r, s), seating)
  {
    ChatCases(r, k, text, now, word);
    if Chat(r, k, text, now, word) == Send(r, Announce(ChatBroadcast)) {
      ConcatNothing(h);
      SendGood(r, r, h, seating, Announce(ChatBroadcast));
    } else {
      var s := AcceptGuess(r, k, now, word);
      AcceptGood(r, t, k, h, seating, now, word);
      SendGood(r, s, h, seating, Announce(GuessCorrect));
      SendGood(r, Send(s, Announce(GuessCorrect)), h, seating, Announce(ScoreUpdate));
    }
  }

  lemma TickGood(r: RoomView, t: nat, h: seq<Player>, seating: seq<Player>, now: nat, word: string)
    requires Inv(r, t) && Good(r, h, seating) && t <= now && r.phase == Playing
    ensures var s := Tick(r, now, word);
            Good(s, h + Drew(r, s), seating)
  {
    ConcatNothing(h);
    if ROUND_TIME - (now - r.roundStart) / 1000 <= 0 {
      EndRoundGood(r.(timeLeft := 0), h, seating, now, word);
    }
  }

  lemma SayGood(r: RoomView, t: nat, p: Player, h: seq<Player>, seating: seq<Player>, text: string, now: nat,
                word: string)
    requires Inv(r, t) && Good(r, h, seating) && t <= now
    ensures var s := Step(r, t, Say(p, text, now, word));
            Good(s, h + Drew(r, s), seating)
  {
    ConcatNothing(h);
    var k := SeatOf(r.seats, p);
    if k >= 0 {
      ChatGood(r, t, k, h, seating, text, now, word);
    }
  }

  lemma LeaverGood(r: RoomView, t: nat, p: Player, h: seq<Player>, seating: seq<Player>, now: nat, word: string)
    requires Inv(r, t) && Good(r, h, seating)
    ensures var s := RemovePlayer(r, p, now, word);
            Good(s, h + Drew(r, s), seating)
  {
    ConcatNothing(h);
    var k := SeatOf(r.seats, p);
    if k >= 0 {
      if r.phase == Playing && 3 <= |r.seats| {
        LeaveGood(r, t, k, h, seating, now, word);
      } else {
        LastLeaveGood(r, t, k, h, seating, now, word);
      }
    }
  }

  lemma RegisterGood(r: RoomView, t: nat, k: nat, id: nat, token: string, h: seq<Player>, seating: seq<Player>)
    requires Inv(r, t) && Good(r, h, seating) && k < |r.seats|
    ensures Good(RegisterSeat(r, k, id, token), h, seating)
  {
    UndrawnSame(RegisterSeat(r, k, id, token).seats, r.seats);
    if r.phase == Playing {
      RegisterKeepsQueue(r.seats, r.drawer, k, id, token);
    }
  }

  lemma RegisterKeepsQueue(seats: seq<Seat>, d: nat, k: nat, id: nat, token: string)
    requires d < |seats| && k < |seats|
    ensures Names(Upcoming(seats[k := Enrol(seats[k], id, token)], d)) == Names(Upcoming(seats, d))
  {
    PendingNames(Rotation(seats[k := Enrol(seats[k], id, token)], d), Rotation(seats, d));
  }

  lemma StepGood(r: RoomView, t: nat, e: Event, h: seq<Player>, seating: seq<Player>)
    requires Inv(r, t) && Good(r, h, seating) && t <= e.now && Enabled(r, e) && !e.Rejoin?
    ensures var s := Step(r, t, e);
            Good(s, h + Drew(r, s), seating)
  {
    ConcatNothing(h);
    match e
    case Join(_, _, _) =>
    case Say(p, text, now, word) => SayGood(r, t, p, h, seating, text, now, word);
    case TimerTick(now, word) =>
      if r.phase == Playing {
        TickGood(r, t, h, seating, now, word);
      }
    case Leave(p, now, word) => LeaverGood(r, t, p, h, seating, now, word);
    case Rejoin(_, _) =>
    case Register(p, id, token, _) =>
      RegistererGood(r, t, p, id, token, h, seating);
  }

  lemma RegistererGood(r: RoomView, t: nat, p: Player, id: nat, token: string, h: seq<Player>, seating: seq<Player>)
    requires Inv(r, t) && Good(r, h, seating)
    ensures var s := Step(r, t, Register(p, id, token, t));
            Good(s, h + Drew(r, s), seating)
  {
    var k := SeatOf(r.seats, p);
    ConcatNothing(h);
    if k >= 0 {
      RegisterGood(r, t, k, id, token, h, seating);
    }
  }

  // ----- The front seats -----

  /** The seats up to e have drawn and the others have not. */
  ghost predicate Front(seats: seq<Seat>, e: int) {
    forall i :: 0 <= i < |seats| ==> (seats[i].hasDrawn <==> i <= e)
  }

  /** While the game runs, those up to the drawer have drawn. */
  ghost predicate FrontDrawn(r: RoomView) {
    r.phase == Playing ==> Front(r.seats, r.drawer)
  }

  /** The search finds the seat behind the front; after a departure from the first
      seat it comes round from the last one. */
  lemma SearchFront(seats: seq<Seat>, d: int, e: int)
    requires -1 <= d < |seats| && 0 < Undrawn(seats) && Front(seats, e)
    requires e == d || (e == -1 && d == |seats| - 1)
    ensures Search(seats, d, 0) == (true, e + 1) && 0 <= e + 1 < |seats|
    ensures Front(TurnSeats(seats, e + 1), e + 1)
  {
    SomeoneUndrawn(seats, e);
    StepMod(d, |seats|);
  }

  lemma NextRoundFront(r: RoomView, e: int, now: nat, word: string)
    requires RoundReady(r) && Front(r.seats, e)
    requires e == r.drawer || (e == -1 && r.drawer == |r.seats| - 1)
    ensures FrontDrawn(StartNextRound(r, now, word))
  {
    NextRound(r, now, word);
    if !OutOfRounds(r) {
      SearchFront(r.seats, r.drawer, e);
    }
  }

  lemma EndRoundFront(r: RoomView, e: int, now: nat, word: string)
    requires RoundReady(r) && Front(r.seats, e)
    requires e == r.drawer || (e == -1 && r.drawer == |r.seats| - 1)
    ensures FrontDrawn(EndRound(r, now, word))
  {
    NextRoundFront(Send(r, Announce(RoundEnd)), e, now, word);
  }

  lemma SomeoneUndrawn(seats: seq<Seat>, e: int)
    requires Front(seats, e) && 0 < Undrawn(seats)
    ensures e < |seats| - 1
  {
    PendingCount(seats);
    if |seats| - 1 <= e {
      AllDrawn(seats);
    }
  }

  lemma ChatFront(r: RoomView, t: nat, k: nat, text: string, now: nat, word: string)
    requires Inv(r, t) && r.phase == Playing && FrontDrawn(r) && k < |r.seats|
    ensures FrontDrawn(Chat(r, k, text, now, word))
  {
    ChatCases(r, k, text, now, word);
    if !r.seats[k].isDrawing {
      AwardKeepsInv(r, t, k);
      EndRoundFront(ScoreGuess(r, k), r.drawer, now, word);
    }
  }

  lemma LeaveFront(r: RoomView, t: nat, k: nat, now: nat, word: string)
    requires Inv(r, t) && r.phase == Playing && Undisturbed(r) && FrontDrawn(r) && k < |r.seats|
    ensures FrontDrawn(RemoveSeat(r, k, now, word))
  {
    if 3 <= |r.seats| {
      VacateReady(r, t, k);
      if k == r.drawer {
        EndRoundFront(Vacate(r, k), k - 1, now, word);
      }
    }
  }

  lemma StepFront(r: RoomView, t: nat, e: Event)
    requires Inv(r, t) && Undisturbed(r) && FrontDrawn(r) && r.phase != Waiting
    requires t <= e.now && Enabled(r, e) && !e.Rejoin?
    ensures FrontDrawn(Step(r, t, e))
  {
    if r.phase == Playing {
      match e
      case Say(p, text, now, word) =>
        var k := SeatOf(r.seats, p);
        if k >= 0 {
          ChatFront(r, t, k, text, now, word);
        }
      case TimerTick(now, word) => EndRoundFront(r.(timeLeft := 0), r.drawer, now, word);
      case Leave(p, now, word) =>
        var k := SeatOf(r.seats, p);
        if k >= 0 {
          LeaveFront(r, t, k, now, word);
        }
      case _ =>
    } else {
      EndedForGood(r, t, [e]);
    }
  }

  lemma StartFront(r: RoomView, t: nat, e: Event)
    requires Inv(r, t) && t <= e.now && Enabled(r, e) && r.phase == Waiting && Step(r, t, e).phase == Playing
    ensures FrontDrawn(Step(r, t, e))
  {
    var m := StartLaunches(r, t, e);
    LaunchFront(m, e.now, e.word);
  }

  lemma LaunchFront(m: RoomView, now: nat, word: string)
    requires Startable(m)
    ensures FrontDrawn(Launch(m, now, word))
  {
    ResetReady(m);
    NextRoundFront(Reset(m), -1, now, word);
  }

  lemma {:induction false} RunFront(r: RoomView, t: nat, es: seq<Event>, h: seq<Player>, seating: seq<Player>)
    requires Inv(r, t) && Good(r, h, seating) && FrontDrawn(r) && Playable(r, t, es) && WithoutRejoin(es)
    ensures FrontDrawn(Run(r, t, es))
    decreases |es|
  {
    if es != [] {
      StepKeepsInv(r, t, es[0]);
      StepGood(r, t, es[0], h, seating);
      StepFront(r, t, es[0]);
      RunFront(Step(r, t, es[0]), es[0].now, es[1..], h + Drew(r, Step(r, t, es[0])), seating);
    }
  }

  /** So the queue is the row of seats behind the drawer. */
  lemma QueueBehindDrawer(seats: seq<Seat>, d: nat)
    requires d < |seats| && Front(seats, d)
    ensures Upcoming(seats, d) == seats[d + 1..]
  {
    PendingConcat(seats[d + 1..], seats[..d + 1]);
    NothingDrawn(seats[d + 1..]);
    AllDrawn(seats[..d + 1]);
    ConcatNothing(seats[d + 1..]);
  }

  lemma GameFront(r: RoomView, t: nat, es: seq<Event>)
    requires Game(r, t, es) && WithoutRejoin(es) && Run(r, t, es).phase == Playing
    ensures var s := Run(r, t, es);
            && 0 <= s.drawer < |s.seats| && Front(s.seats, s.drawer)
            && Upcoming(s.seats, s.drawer) == s.seats[s.drawer + 1..]
  {
    StartGood(r, t, es[0]);
    StartFront(r, t, es[0]);
    StepKeepsInv(r, t, es[0]);
    var g := Opening(r, t, es);
    RunFront(g, es[0].now, es[1..], Drew(r, g), Names(g.seats));
    RunKeepsInv(r, t, es);
    QueueBehindDrawer(Run(r, t, es).seats, Run(r, t, es).drawer);
  }

  // ----- Whole games -----

  lemma {:induction false} RunGood(r: RoomView, t: nat, es: seq<Event>, h: seq<Player>, seating: seq<Player>)
    requires Inv(r, t) && Good(r, h, seating) && Playable(r, t, es) && WithoutRejoin(es)
    ensures Good(Run(r, t, es), h + History(r, t, es), seating)
    decreases |es|
  {
    if es == [] {
      ConcatNothing(h);
    } else {
      StepKeepsInv(r, t, es[0]);
      StepGood(r, t, es[0], h, seating);
      var s := Step(r, t, es[0]);
      RunGood(s, es[0].now, es[1..], h + Drew(r, s), seating);
      ConcatAssociative(h, Drew(r, s), History(s, es[0].now, es[1..]));
    }
  }

  lemma EveryoneDrewOnce(seats: seq<Seat>, h: seq<Player>)
    requires Undrawn(seats) == 0 && Recorded(seats, h) && NoDuplicates(h)
    ensures forall i :: 0 <= i < |seats| ==> Times(h, seats[i].who) == 1
  {
    forall i | 0 <= i < |seats| ensures Times(h, seats[i].who) == 1 {
      PendingCount(seats);
      if !seats[i].hasDrawn {
        PendingIn(seats, i);
      }
      OnceInHistory(h, seats[i].who);
    }
  }

  /** Either start of a game puts the whole seating in the queue. */
  lemma StartGood(r: RoomView, t: nat, e: Event)
    requires Inv(r, t) && t <= e.now && Enabled(r, e) && r.phase == Waiting && Step(r, t, e).phase == Playing
    ensures var s := Step(r, t, e);
            Good(s, Drew(r, s), Names(s.seats))
  {
    var m := StartLaunches(r, t, e);
    LaunchGood(m, e.now, e.word);
    SameNames(m, Step(r, t, e));
    if e.TimerTick? {
      AnnouncedGood(m, Launch(m, e.now, e.word), Names(m.seats), TimerUpdate(ROUND_TIME));
    }
  }

  lemma SameNames(r: RoomView, s: RoomView)
    requires Continues(r, s)
    ensures Names(s.seats) == Names(r.seats)
  {
  }

  lemma AnnouncedGood(r: RoomView, s: RoomView, seating: seq<Player>, k: Kind)
    requires Good(s, Drew(r, s), seating)
    ensures Good(Send(s, Announce(k)), Drew(r, Send(s, Announce(k))), seating)
  {
  }

  lemma GameGood(r: RoomView, t: nat, es: seq<Event>)
    requires Game(r, t, es) && WithoutRejoin(es)
    ensures Good(Run(r, t, es), History(r, t, es), Names(Opening(r, t, es).seats))
    ensures NoDuplicates(History(r, t, es))
  {
    StartGood(r, t, es[0]);
    StepKeepsInv(r, t, es[0]);
    var g := Opening(r, t, es);
    RunGood(g, es[0].now, es[1..], Drew(r, g), Names(g.seats));
    SubsequenceDistinct(History(r, t, es), Names(g.seats));
  }

  /** The turns of a game: nobody draws twice. While the game runs, the drawers so
      far followed by the players still to draw are an excerpt of the seating at
      the start, in that order; there is exactly one drawer, and the rounds still
      owed are exactly the players still to draw: those who sit behind the drawer,
      as those before him have drawn. When the game is over with two
      or more players left, each of them has drawn exactly once. */
  ghost predicate TurnsInOrder(s: RoomView, h: seq<Player>, seating: seq<Player>) {
    && NoDuplicates(h)
    && Subsequence(h, seating)
    && (s.phase == Playing ==>
          && 0 <= s.drawer < |s.seats|
          && Front(s.seats, s.drawer) && Upcoming(s.seats, s.drawer) == s.seats[s.drawer + 1..]
          && Subsequence(h + Names(Upcoming(s.seats, s.drawer)), seating)
          && s.total == s.round + Undrawn(s.seats)
          && forall i :: 0 <= i < |s.seats| ==> (s.seats[i].isDrawing <==> i == s.drawer))
    && (s.phase == Ended && 2 <= |s.seats| ==>
          forall i :: 0 <= i < |s.seats| ==> Times(h, s.seats[i].who) == 1)
  }

  lemma TurnOrderOfGames(r: RoomView, t: nat, es: seq<Event>)
    requires Game(r, t, es) && WithoutRejoin(es)
    ensures TurnsInOrder(Run(r, t, es), History(r, t, es), Names(Opening(r, t, es).seats))
  {
    GameGood(r, t, es);
    RunKeepsInv(r, t, es);
    var s, h := Run(r, t, es), History(r, t, es);
    if s.phase == Playing {
      GameFront(r, t, es);
    } else if s.phase == Ended && 2 <= |s.seats| {
      EveryoneDrewOnce(s.seats, h);
    }
  }

  /** The two conditions that end a game agree in every game without reconnects:
      the rounds run out exactly when everyone has drawn. */
  lemma GuardsCoincide(r: RoomView, t: nat, es: seq<Event>)
    requires Game(r, t, es) && WithoutRejoin(es) && Run(r, t, es).phase == Playing
    ensures var s := Run(r, t, es);
            Undrawn(s.seats) == 0 <==> s.round + 1 > s.total
  {
    TurnOrderOfGames(r, t, es);
  }

  /** In every state of a running game, reconnects or not, the next round either
      ends the game or finds a drawer: the search never gives up. */
  lemma SearchNeverGivesUp(r: RoomView, t: nat, es: seq<Event>)
    requires Inv(r, t) && Playable(r, t, es) && Run(r, t, es).phase == Playing
    ensures var s := Run(r, t, es);
            && 0 <= s.drawer < |s.seats|
            && s.total <= s.round + Undrawn(s.seats)
            && (!OutOfRounds(s) ==> Search(s.seats, s.drawer, 0).0)
            && (OutOfRounds(s) <==> s.round + 1 > s.total)
  {
    RunKeepsInv(r, t, es);
    var s := Run(r, t, es);
    SearchFindsHead(s.seats, s.drawer);
  }

  /** A player who comes back keeps the balance of rounds and players still to
      draw exactly when the new connection already counts as having drawn. A new
      connection never does, whatever the player had drawn before. */
  lemma ReturnKeepsBalance(r: RoomView, t: nat, s: Seat, now: nat)
    requires Inv(r, t) && r.phase == Playing && r.total == r.round + Undrawn(r.seats)
    requires |r.seats| < MAX_PLAYERS && SeatOf(r.seats, s.who) == -1 && t <= now
    ensures var m := Step(r, t, Rejoin(s, now));
            m.total == m.round + Undrawn(m.seats) <==> s.hasDrawn
  {
    UndrawnConcat(r.seats, [s]);
    assert [s][..0] == [];
  }
}
