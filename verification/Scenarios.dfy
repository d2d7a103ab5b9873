/** Runs of a room, from its opening on, that show what the theorems leave open. */
module Scenarios {
  import opened Protocol
  import opened RoomSpec
  import opened TurnOrder
  import opened RoomInvariant
  import opened Runs
  import opened TurnHistory
  import opened Sequences
  import G = Guessing

  // ----- Runs step by step -----

  function Opened(): RoomView {
    FreshRoom(1, false, 0)
  }

  /** The events es lead from the opened room to r at time t, with the turns of h. */
  ghost predicate Reaches(es: seq<Event>, r: RoomView, t: nat, h: seq<Player>) {
    && Inv(Opened(), 0) && Playable(Opened(), 0, es)
    && Run(Opened(), 0, es) == r && EndTime(0, es) == t && History(Opened(), 0, es) == h
    && Inv(r, t)
  }

  lemma {:induction false} OneMore(r: RoomView, t: nat, es: seq<Event>, e: Event)
    requires Inv(r, t) && Playable(r, t, es)
    requires Inv(Run(r, t, es), EndTime(t, es)) && EndTime(t, es) <= e.now && Enabled(Run(r, t, es), e)
    ensures Playable(r, t, es + [e])
    ensures var s := Step(Run(r, t, es), EndTime(t, es), e);
            && Run(r, t, es + [e]) == s
            && History(r, t, es + [e]) == History(r, t, es) + Drew(Run(r, t, es), s)
    decreases |es|
  {
    if es == [] {
      StepKeepsInv(r, t, e);
      NothingConcat([e]);
      ConcatNothing(Drew(r, Step(r, t, e)));
      NothingConcat(Drew(r, Step(r, t, e)));
    } else {
      StepKeepsInv(r, t, es[0]);
      var s := Step(r, t, es[0]);
      assert (es + [e])[0] == es[0] && (es + [e])[1..] == es[1..] + [e];
      assert EndTime(t, es) == EndTime(es[0].now, es[1..]);
      OneMore(s, es[0].now, es[1..], e);
      ConcatAssociative(Drew(r, s), History(s, es[0].now, es[1..]),
                        Drew(Run(r, t, es), Step(Run(r, t, es), EndTime(t, es), e)));
    }
  }

  lemma Extend(es: seq<Event>, r: RoomView, t: nat, h: seq<Player>, e: Event)
    requires Reaches(es, r, t, h) && t <= e.now && Enabled(r, e)
    ensures Reaches(es + [e], Step(r, t, e), e.now, h + Drew(r, Step(r, t, e)))
  {
    OneMore(Opened(), 0, es, e);
    StepKeepsInv(r, t, e);
  }

  // ----- Small tables -----

  /** A seat: identity, points, drawing, guessed, drawn. */
  function Sits(p: Player, id: nat, score: int, drawing: bool, guessed: bool, drawn: bool): Seat {
    Seat(p, id, "", score, if drawing then Drawing else Guessing, 0, drawing, guessed, drawn)
  }

  function New(p: Player, id: nat): Seat {
    Seat(p, id, "", 0, Lobby, 0, false, false, false)
  }

  function Owing(s: Seat): nat {
    if s.hasDrawn then 0 else 1
  }

  lemma UndrawnOf2(x: Seat, y: Seat)
    ensures Undrawn([x, y]) == Owing(x) + Owing(y)
  {
    assert [x, y][..1] == [x] && [x][..0] == [];
  }

  lemma UndrawnOf3(x: Seat, y: Seat, z: Seat)
    ensures Undrawn([x, y, z]) == Owing(x) + Owing(y) + Owing(z)
  {
    assert [x, y, z][..2] == [x, y];
    UndrawnOf2(x, y);
  }

  /** The search stops at the next seat, or at the one after it. */
  lemma NextSeat(seats: seq<Seat>, idx: int, i: nat)
    requires -1 <= idx < |seats| && i < |seats| && i == (if idx + 1 == |seats| then 0 else idx + 1)
    requires !seats[i].hasDrawn
    ensures Search(seats, idx, 0) == (true, i)
  {
    StepMod(idx, |seats|);
  }

  lemma SecondSeat(seats: seq<Seat>, idx: int, i: nat, j: nat)
    requires -1 <= idx < |seats| && i < |seats| && i == (if idx + 1 == |seats| then 0 else idx + 1)
    requires j < |seats| && j == (if i + 1 == |seats| then 0 else i + 1) && 2 <= |seats|
    requires seats[i].hasDrawn && !seats[j].hasDrawn
    ensures Search(seats, idx, 0) == (true, j)
  {
    StepMod(idx, |seats|);
    StepMod(i, |seats|);
    assert Search(seats, idx, 0) == Search(seats, i, 1);
  }

  /** A running game in the first moment of a turn. */
  ghost predicate Turn(r: RoomView, seats: seq<Seat>, drawer: int, round: int, total: int, start: nat) {
    && r.phase == Playing && r.seats == seats && r.drawer == drawer && r.round == round && r.total == total
    && r.roundStart == start && r.timeLeft == ROUND_TIME
  }

  // ----- A game of three -----

  /** Three players join, and 15 s later the first of them draws. */
  lemma ThreeStart(a: Player, b: Player, c: Player) returns (es: seq<Event>, r: RoomView)
    requires a != b && a != c && b != c
    ensures Reaches(es, r, 15000, [a]) && r.word == "cat"
    ensures es == [Join(New(a, 1), 0, ""), Join(New(b, 2), 0, ""), Join(New(c, 3), 0, ""), TimerTick(15000, "cat")]
    ensures Turn(r, [Sits(a, 1, 0, true, false, true), Sits(b, 2, 0, false, false, false),
                     Sits(c, 3, 0, false, false, false)], 0, 1, 3, 15000)
  {
    var w := ThreeWait(a, b, c);
    es := [Join(New(a, 1), 0, ""), Join(New(b, 2), 0, ""), Join(New(c, 3), 0, "")];
    var e := TimerTick(15000, "cat");
    Extend(es, w, 0, [], e);
    r := Step(w, 0, e);
    LaunchOfThree(w);
    es := es + [e];
  }

  lemma LaunchOfThree(w: RoomView)
    requires Inv(w, 0) && w.phase == Waiting && w.countdownActive && w.countdownStart == 0 && |w.seats| == 3
    ensures var s := Step(w, 0, TimerTick(15000, "cat"));
            && Turn(s, TurnSeats(ResetSeats(w.seats), 0), 0, 1, 3, 15000) && s.word == "cat"
            && Drew(w, s) == [w.seats[0].who]
  {
    LaunchKeepsInv(w, 15000, "cat");
    CountdownLaunches(w, 0, 15000, "cat");
    FirstTurn(w);
  }

  lemma FirstTurn(w: RoomView)
    requires |w.seats| == 3 && DistinctSeats(w.seats) && w.drawer == -1 && w.round == 0
    ensures var s := Launch(w, 15000, "cat");
            Turn(s, TurnSeats(ResetSeats(w.seats), 0), 0, 1, 3, 15000) && s.word == "cat"
  {
    ResetReady(w);
    NextRound(Reset(w), 15000, "cat");
    NextSeat(Reset(w).seats, -1, 0);
  }

  lemma ThreeWait(a: Player, b: Player, c: Player) returns (w: RoomView)
    requires a != b && a != c && b != c
    ensures Reaches([Join(New(a, 1), 0, ""), Join(New(b, 2), 0, ""), Join(New(c, 3), 0, "")], w, 0, [])
    ensures w.phase == Waiting && w.countdownActive && w.countdownStart == 0
    ensures w.seats == [Waits(a, 1), Waits(b, 2), Waits(c, 3)]
  {
    var x, y, z := Join(New(a, 1), 0, ""), Join(New(b, 2), 0, ""), Join(New(c, 3), 0, "");
    FreshRoomInv(1, false, 0);
    NothingConcat([x]);
    var r1 := JoinOne([], Opened(), New(a, 1));
    var r2 := JoinOne([x], r1, New(b, 2));
    var r3 := JoinOne([x] + [y], r2, New(c, 3));
    assert [x] + [y] + [z] == [x, y, z];
    w := r3;
  }

  function Waits(p: Player, id: nat): Seat {
    New(p, id).(state := InRoom)
  }

  lemma JoinOne(es: seq<Event>, r: RoomView, s: Seat) returns (w: RoomView)
    requires Reaches(es, r, 0, []) && r.phase == Waiting && !r.isPrivate
    requires |r.seats| <= 2 && SeatOf(r.seats, s.who) == -1
    requires |r.seats| < 2 || (r.countdownActive && r.countdownStart == 0)
    requires |r.seats| == 1 ==> !r.countdownActive
    requires |r.seats| == 0 ==> !r.countdownActive
    ensures Reaches(es + [Join(s, 0, "")], w, 0, [])
    ensures w.phase == Waiting && !w.isPrivate && w.seats == r.seats + [s.(state := InRoom)]
    ensures |w.seats| == 1 ==> !w.countdownActive
    ensures |w.seats| >= 2 ==> w.countdownActive && w.countdownStart == 0
  {
    Extend(es, r, 0, [], Join(s, 0, ""));
    w := Step(r, 0, Join(s, 0, ""));
  }

  // ----- A round with nobody left to guess -----

  /** One of two guessers has the word, and the other one leaves: the round goes
      on although nobody can guess. */
  lemma StalledRound(a: Player, b: Player, c: Player) returns (es: seq<Event>, r: RoomView)
    requires a != b && a != c && b != c
    ensures Reaches(es, r, 15000, [a]) && r.phase == Playing && r.round == 1 && 2 <= |r.seats|
    ensures !G.Live(r)
  {
    es, r := ThreeStart(a, b, c);
    var guess, leave := Say(b, "cat", 15000, ""), Leave(c, 15000, "");
    GuessOfSecond(r, a, b, c);
    Extend(es, r, 15000, [a], guess);
    var s := Step(r, 15000, guess);
    ConcatNothing([a]);
    Extend(es + [guess], s, 15000, [a], leave);
    G.LeaveLive(s, 15000, 2, 15000, "");
    FlagEndsTurn(s, 15000, 2, 15000, "");
    es, r := es + [guess] + [leave], Step(s, 15000, leave);
  }

  lemma GuessOfSecond(r: RoomView, a: Player, b: Player, c: Player)
    requires a != b && a != c && b != c && Inv(r, 15000) && r.word == "cat"
    requires Turn(r, [Sits(a, 1, 0, true, false, true), Sits(b, 2, 0, false, false, false),
                      Sits(c, 3, 0, false, false, false)], 0, 1, 3, 15000)
    ensures var s := Step(r, 15000, Say(b, "cat", 15000, ""));
            && Turn(s, [Sits(a, 1, 0, true, false, true), Sits(b, 2, 100, false, true, false),
                        Sits(c, 3, 0, false, false, false)], 0, 1, 3, 15000)
            && Drew(r, s) == []
            && SeatOf(s.seats, c) == 2
  {
    assert SeatOf(r.seats, b) == 1;
    var m := ScoreGuess(r, 1);
    assert m.seats == [Sits(a, 1, 0, true, false, true), Sits(b, 2, 100, false, true, false),
                       Sits(c, 3, 0, false, false, false)];
    assert !AllSettled(m.seats) by {
      assert !(m.seats[2].hasGuessed || m.seats[2].isDrawing);
    }
    assert SeatOf(m.seats, c) == 2;
  }

  // ----- A guess of an earlier round -----

  lemma SecondGuessedAndGone(a: Player, b: Player, c: Player) returns (es: seq<Event>, r: RoomView)
    requires a != b && a != c && b != c
    ensures Reaches(es, r, 15000, [a])
    ensures Turn(r, [Sits(a, 1, 0, true, false, true), Sits(c, 3, 0, false, false, false)], 0, 1, 2, 15000)
  {
    var r0;
    es, r0 := ThreeStart(a, b, c);
    var guess, leave := Say(b, "cat", 15000, ""), Leave(b, 15000, "");
    GuessOfSecond(r0, a, b, c);
    Extend(es, r0, 15000, [a], guess);
    var s := Step(r0, 15000, guess);
    ConcatNothing([a]);
    Extend(es + [guess], s, 15000, [a], leave);
    r := GuesserLeaves(s, a, b, c);
    es := es + [guess] + [leave];
  }

  lemma GuesserLeaves(r: RoomView, a: Player, b: Player, c: Player) returns (s: RoomView)
    requires a != b && a != c && b != c && Inv(r, 15000)
    requires Turn(r, [Sits(a, 1, 0, true, false, true), Sits(b, 2, 100, false, true, false),
                      Sits(c, 3, 0, false, false, false)], 0, 1, 3, 15000)
    ensures s == Step(r, 15000, Leave(b, 15000, ""))
    ensures Turn(s, [Sits(a, 1, 0, true, false, true), Sits(c, 3, 0, false, false, false)], 0, 1, 2, 15000)
    ensures Drew(r, s) == []
  {
    s := Step(r, 15000, Leave(b, 15000, ""));
    assert SeatOf(r.seats, b) == 1;
    assert RemoveAt(r.seats, 1) == [r.seats[0], r.seats[2]];
    UndrawnOf2(r.seats[0], r.seats[2]);
  }

  /** Of two players, the second takes the second turn. */
  lemma SecondOfTwo(r: RoomView, a: Player, c: Player, e: Event) returns (s: RoomView)
    requires Inv(r, 15000) && e == TimerTick(105000, "dog")
    requires Turn(r, [Sits(a, 1, 0, true, false, true), Sits(c, 3, 0, false, false, false)], 0, 1, 2, 15000)
    ensures s == Step(r, 15000, e) && Drew(r, s) == [c] && s.word == "dog"
    ensures Turn(s, [Sits(a, 1, 0, false, false, true), Sits(c, 3, 0, true, false, true)], 1, 2, 2, 105000)
  {
    s := Step(r, 15000, e);
    var m := Send(r.(timeLeft := 0), Announce(RoundEnd));
    UndrawnOf2(r.seats[0], r.seats[1]);
    NextRound(m, e.now, e.word);
    NextSeat(m.seats, 0, 1);
  }

  /** The second player guesses the first word, leaves, and comes back as b2 in the
      next round. He says the new word, and it is shown as chat: his old guess is
      taken for a guess of this round. */
  lemma OldGuessCounts(a: Player, b: Player, c: Player, b2: Player) returns (es: seq<Event>, r: RoomView, s: RoomView)
    requires a != b && a != c && b != c && b2 != a && b2 != b && b2 != c
    ensures Reaches(es, r, 105000, [a, c]) && Reaches(es + [Say(b2, "dog", 105000, "")], s, 105000, [a, c])
    ensures Turn(r, [Sits(a, 1, 0, false, false, true), Sits(c, 3, 0, true, false, true),
                     Sits(b2, 2, 100, false, true, false)], 1, 2, 2, 105000)
    ensures r.word == "dog" && s == Send(r, Announce(ChatBroadcast))
  {
    var r2;
    es, r2 := SecondRound(a, b, c);
    var back, say := Rejoin(Sits(b2, 2, 100, false, true, false), 105000), Say(b2, "dog", 105000, "");
    Extend(es, r2, 105000, [a, c], back);
    r := Step(r2, 105000, back);
    ConcatNothing([a, c]);
    es := es + [back];
    Extend(es, r, 105000, [a, c], say);
    s := Step(r, 105000, say);
    assert SeatOf(r.seats, b2) == 2;
  }

  lemma SecondRound(a: Player, b: Player, c: Player) returns (es: seq<Event>, r: RoomView)
    requires a != b && a != c && b != c
    ensures Reaches(es, r, 105000, [a, c]) && r.word == "dog"
    ensures Turn(r, [Sits(a, 1, 0, false, false, true), Sits(c, 3, 0, true, false, true)], 1, 2, 2, 105000)
  {
    var r1;
    es, r1 := SecondGuessedAndGone(a, b, c);
    var tick := TimerTick(105000, "dog");
    Extend(es, r1, 15000, [a], tick);
    r := SecondOfTwo(r1, a, c, tick);
    assert [a] + [c] == [a, c];
    es := es + [tick];
  }

  // ----- A player left out -----

  lemma SecondGone(a: Player, b: Player, c: Player) returns (es: seq<Event>, r: RoomView)
    requires a != b && a != c && b != c
    ensures Reaches(es, r, 15000, [a])
    ensures Turn(r, [Sits(a, 1, 0, true, false, true), Sits(c, 3, 0, false, false, false)], 0, 1, 2, 15000)
  {
    var r0;
    es, r0 := ThreeStart(a, b, c);
    var leave := Leave(b, 15000, "");
    Extend(es, r0, 15000, [a], leave);
    r := LeaveOfSecond(r0, a, b, c);
    ConcatNothing([a]);
    es := es + [leave];
  }

  lemma SecondBack(a: Player, b: Player, c: Player, b2: Player) returns (es: seq<Event>, r: RoomView)
    requires a != b && a != c && b != c && b2 != a && b2 != b && b2 != c
    ensures Reaches(es, r, 15000, [a])
    ensures Turn(r, [Sits(a, 1, 0, true, false, true), Sits(c, 3, 0, false, false, false),
                     Sits(b2, 2, 0, false, false, false)], 0, 1, 2, 15000)
  {
    var r1;
    es, r1 := SecondGone(a, b, c);
    var back := Rejoin(Sits(b2, 2, 0, false, false, false), 15000);
    Extend(es, r1, 15000, [a], back);
    r := Step(r1, 15000, back);
    ConcatNothing([a]);
    es := es + [back];
  }

  /** The second player leaves before his turn and comes back as b2: the rounds run
      out, and he is seated, and neither of his connections ever drew. */
  lemma LeftOut(a: Player, b: Player, c: Player, b2: Player) returns (es: seq<Event>, r: RoomView)
    requires a != b && a != c && b != c && b2 != a && b2 != b && b2 != c
    ensures Reaches(es, r, 195000, [a, c]) && r.phase == Ended
    ensures |r.seats| == 3 && r.seats[2].who == b2 && r.seats[2].playerId == 2 && !r.seats[2].hasDrawn
  {
    var r2;
    es, r2 := SecondBack(a, b, c, b2);
    var tick1, tick2 := TimerTick(105000, "dog"), TimerTick(195000, "fox");
    Extend(es, r2, 15000, [a], tick1);
    var r3 := ThirdTurn(r2, a, c, Sits(b2, 2, 0, false, false, false), tick1);
    assert [a] + [c] == [a, c];
    Extend(es + [tick1], r3, 105000, [a, c], tick2);
    r := LastRound(r3, tick2);
    ConcatNothing([a, c]);
    es := es + [tick1] + [tick2];
  }

  lemma LeaveOfSecond(r: RoomView, a: Player, b: Player, c: Player) returns (s: RoomView)
    requires a != b && a != c && b != c && Inv(r, 15000)
    requires Turn(r, [Sits(a, 1, 0, true, false, true), Sits(b, 2, 0, false, false, false),
                      Sits(c, 3, 0, false, false, false)], 0, 1, 3, 15000)
    ensures s == Step(r, 15000, Leave(b, 15000, ""))
    ensures Turn(s, [Sits(a, 1, 0, true, false, true), Sits(c, 3, 0, false, false, false)], 0, 1, 2, 15000)
    ensures Drew(r, s) == []
  {
    s := Step(r, 15000, Leave(b, 15000, ""));
    assert SeatOf(r.seats, b) == 1;
    assert RemoveAt(r.seats, 1) == [r.seats[0], r.seats[2]];
    UndrawnOf2(r.seats[0], r.seats[2]);
  }

  /** With two rounds planned, the second turn is the third player's. */
  lemma ThirdTurn(r: RoomView, a: Player, c: Player, back: Seat, e: Event) returns (s: RoomView)
    requires Inv(r, 15000) && e.TimerTick? && e.now == 105000 && !back.hasDrawn
    requires Turn(r, [Sits(a, 1, 0, true, false, true), Sits(c, 3, 0, false, false, false), back], 0, 1, 2, 15000)
    ensures s == Step(r, 15000, e) && Drew(r, s) == [c]
    ensures s.phase == Playing && s.round == 2 && s.total == 2 && s.roundStart == 105000
    ensures |s.seats| == 3 && s.seats[2].who == back.who && s.seats[2].playerId == back.playerId
    ensures !s.seats[2].hasDrawn
  {
    s := Step(r, 15000, e);
    var m := Send(r.(timeLeft := 0), Announce(RoundEnd));
    UndrawnOf3(r.seats[0], r.seats[1], r.seats[2]);
    NextRound(m, e.now, e.word);
    NextSeat(m.seats, 0, 1);
  }

  /** With all planned rounds played, a tick at the end of the time ends the game. */
  lemma LastRound(r: RoomView, e: Event) returns (s: RoomView)
    requires Inv(r, 105000) && e.TimerTick? && e.now == 195000
    requires r.phase == Playing && r.round == 2 && r.total == 2 && r.roundStart == 105000
    ensures s == Step(r, 105000, e) && s.phase == Ended && s.seats == r.seats && Drew(r, s) == []
  {
    s := Step(r, 105000, e);
    NextRound(Send(r.(timeLeft := 0), Announce(RoundEnd)), e.now, e.word);
  }

  // ----- A player who draws twice, and a flag out of date -----

  lemma DrawerGone(a: Player, b: Player, c: Player) returns (es: seq<Event>, r: RoomView)
    requires a != b && a != c && b != c
    ensures Reaches(es, r, 15000, [a, b]) && 0 < |es| && es[0] == Join(New(a, 1), 0, "")
    ensures Turn(r, [Sits(b, 2, 0, true, false, true), Sits(c, 3, 0, false, false, false)], 0, 2, 3, 15000)
  {
    var r0;
    es, r0 := ThreeStart(a, b, c);
    var leave := Leave(a, 15000, "dog");
    Extend(es, r0, 15000, [a], leave);
    r := DrawerLeaves(r0, a, b, c, leave);
    assert [a] + [b] == [a, b];
    es := es + [leave];
  }

  /** The first player leaves while drawing and comes back as a2. The second one
      draws now; a2 still carries the drawing flag. */
  lemma StaleFlag(a: Player, b: Player, c: Player, a2: Player) returns (es: seq<Event>, r: RoomView)
    requires a != b && a != c && b != c && a2 != a && a2 != b && a2 != c
    ensures Reaches(es, r, 15000, [a, b]) && 0 < |es| && es[0] == Join(New(a, 1), 0, "")
    ensures Turn(r, [Sits(b, 2, 0, true, false, true), Sits(c, 3, 0, false, false, false),
                     Sits(a2, 1, 0, true, false, false)], 0, 2, 3, 15000)
  {
    var r1;
    es, r1 := DrawerGone(a, b, c);
    var back := Rejoin(Sits(a2, 1, 0, true, false, false), 15000);
    Extend(es, r1, 15000, [a, b], back);
    r := Step(r1, 15000, back);
    ConcatNothing([a, b]);
    es := es + [back];
  }

  lemma DrawerLeaves(r: RoomView, a: Player, b: Player, c: Player, e: Event) returns (s: RoomView)
    requires a != b && a != c && b != c && Inv(r, 15000) && e == Leave(a, 15000, "dog")
    requires Turn(r, [Sits(a, 1, 0, true, false, true), Sits(b, 2, 0, false, false, false),
                      Sits(c, 3, 0, false, false, false)], 0, 1, 3, 15000)
    ensures s == Step(r, 15000, e) && Drew(r, s) == [b]
    ensures Turn(s, [Sits(b, 2, 0, true, false, true), Sits(c, 3, 0, false, false, false)], 0, 2, 3, 15000)
  {
    s := Step(r, 15000, e);
    FirstLeaves(r, a);
    FirstVacated(r, b, c);
    SecondTurn(Vacate(r, 0), b, c);
  }

  lemma FirstLeaves(r: RoomView, a: Player)
    requires Inv(r, 15000) && r.phase == Playing && |r.seats| == 3 && r.seats[0].who == a && r.seats[0].isDrawing
    ensures Step(r, 15000, Leave(a, 15000, "dog")) == EndRound(Vacate(r, 0), 15000, "dog")
  {
    assert SeatOf(r.seats, a) == 0;
  }

  lemma FirstVacated(r: RoomView, b: Player, c: Player)
    requires Inv(r, 15000) && r.phase == Playing && r.drawer == 0 && r.round == 1 && r.total == 3 && |r.seats| == 3
    requires r.seats[1] == Sits(b, 2, 0, false, false, false) && r.seats[2] == Sits(c, 3, 0, false, false, false)
    ensures var v := Vacate(r, 0);
            && RoundReady(v) && v.drawer == 1 && v.round == 1 && v.total == 3
            && v.seats == [Sits(b, 2, 0, false, false, false), Sits(c, 3, 0, false, false, false)]
  {
    VacateReady(r, 15000, 0);
    assert RemoveAt(r.seats, 0) == [r.seats[1], r.seats[2]];
    UndrawnOf2(r.seats[1], r.seats[2]);
  }

  lemma SecondTurn(v: RoomView, b: Player, c: Player)
    requires RoundReady(v) && v.drawer == 1 && v.round == 1 && v.total == 3
    requires v.seats == [Sits(b, 2, 0, false, false, false), Sits(c, 3, 0, false, false, false)]
    ensures Turn(EndRound(v, 15000, "dog"), [Sits(b, 2, 0, true, false, true), Sits(c, 3, 0, false, false, false)],
                 0, 2, 3, 15000)
  {
    var m := Send(v, Announce(RoundEnd));
    UndrawnOf2(v.seats[0], v.seats[1]);
    NextRound(m, 15000, "dog");
    NextSeat(m.seats, 1, 0);
  }

  /** When a2 leaves again, the round ends, although b was drawing and stays. */
  lemma StaleFlagEndsTurn(a: Player, b: Player, c: Player, a2: Player)
    returns (es: seq<Event>, r: RoomView, s: RoomView)
    requires a != b && a != c && b != c && a2 != a && a2 != b && a2 != c
    ensures Reaches(es, r, 15000, [a, b]) && 0 <= r.drawer < |r.seats| && r.seats[r.drawer].who == b
    ensures Reaches(es + [Leave(a2, 15000, "")], s, 15000, [a, b, c])
    ensures s.phase == Playing && s.round == r.round + 1 && SeatOf(s.seats, b) >= 0
  {
    es, r := StaleFlag(a, b, c, a2);
    var e := Leave(a2, 15000, "");
    Extend(es, r, 15000, [a, b], e);
    s := StaleLeaves(r, b, c, a2, e);
  }

  lemma StaleLeaves(r: RoomView, b: Player, c: Player, a2: Player, e: Event) returns (s: RoomView)
    requires b != c && a2 != b && a2 != c && Inv(r, 15000) && e == Leave(a2, 15000, "")
    requires Turn(r, [Sits(b, 2, 0, true, false, true), Sits(c, 3, 0, false, false, false),
                      Sits(a2, 1, 0, true, false, false)], 0, 2, 3, 15000)
    ensures s == Step(r, 15000, e) && Drew(r, s) == [c]
    ensures s.phase == Playing && s.round == 3 && SeatOf(s.seats, b) >= 0
  {
    s := Step(r, 15000, e);
    assert SeatOf(r.seats, a2) == 2;
    var v := Vacate(r, 2);
    assert v.seats == [r.seats[0], r.seats[1]];
    UndrawnOf2(r.seats[0], r.seats[1]);
    VacateReady(r, 15000, 2);
    NextRound(Send(v, Announce(RoundEnd)), 15000, "");
    SecondSeat(v.seats, 1, 0, 1);
    assert s.seats[0].who == b;
  }

  /** When the third player leaves instead, the rounds are planned anew and a2 gets
      a turn: the player with identity 1 draws twice. */
  lemma DrawsTwice(a: Player, b: Player, c: Player, a2: Player) returns (es: seq<Event>, r: RoomView)
    requires a != b && a != c && b != c && a2 != a && a2 != b && a2 != c
    ensures Reaches(es, r, 105000, [a, b, a2]) && r.phase == Playing
    ensures 0 < |es| && es[0] == Join(New(a, 1), 0, "")
    ensures 0 <= r.drawer < |r.seats| && r.seats[r.drawer].who == a2 && r.seats[r.drawer].playerId == 1
  {
    es, r := StaleFlag(a, b, c, a2);
    var leave, tick := Leave(c, 15000, ""), TimerTick(105000, "fox");
    Extend(es, r, 15000, [a, b], leave);
    var s := ThirdLeaves(r, b, c, a2, leave);
    ConcatNothing([a, b]);
    Extend(es + [leave], s, 15000, [a, b], tick);
    r := TurnOfReturner(s, b, a2, tick);
    es := es + [leave] + [tick];
  }

  lemma ThirdLeaves(r: RoomView, b: Player, c: Player, a2: Player, e: Event) returns (s: RoomView)
    requires b != c && a2 != b && a2 != c && Inv(r, 15000) && e == Leave(c, 15000, "")
    requires Turn(r, [Sits(b, 2, 0, true, false, true), Sits(c, 3, 0, false, false, false),
                      Sits(a2, 1, 0, true, false, false)], 0, 2, 3, 15000)
    ensures s == Step(r, 15000, e) && Drew(r, s) == []
    ensures Turn(s, [Sits(b, 2, 0, true, false, true), Sits(a2, 1, 0, true, false, false)], 0, 2, 3, 15000)
  {
    s := Step(r, 15000, e);
    assert SeatOf(r.seats, c) == 1;
    assert RemoveAt(r.seats, 1) == [r.seats[0], r.seats[2]];
    UndrawnOf2(r.seats[0], r.seats[2]);
  }

  lemma TurnOfReturner(r: RoomView, b: Player, a2: Player, e: Event) returns (s: RoomView)
    requires Inv(r, 15000) && e.TimerTick? && e.now == 105000
    requires Turn(r, [Sits(b, 2, 0, true, false, true), Sits(a2, 1, 0, true, false, false)], 0, 2, 3, 15000)
    ensures s == Step(r, 15000, e) && Drew(r, s) == [a2] && s.phase == Playing
    ensures 0 <= s.drawer < |s.seats| && s.seats[s.drawer].who == a2 && s.seats[s.drawer].playerId == 1
  {
    s := Step(r, 15000, e);
    var m := Send(r.(timeLeft := 0), Announce(RoundEnd));
    UndrawnOf2(r.seats[0], r.seats[1]);
    NextRound(m, e.now, e.word);
    NextSeat(m.seats, 0, 1);
  }
}
