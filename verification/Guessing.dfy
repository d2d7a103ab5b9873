/** What counts as the word, and whether somebody is still left to guess. */
module Guessing {
  import opened Protocol
  import opened RoomSpec
  import opened RoomInvariant
  import opened Runs

  // ----- Comparison -----

  /** Equal, or the two cases of one ASCII letter. */
  predicate SameLetter(a: char, b: char) {
    a == b || ('A' <= a <= 'Z' && b == a + 32 as char) || ('A' <= b <= 'Z' && a == b + 32 as char)
  }

  /** A guess is correct exactly when it is the word up to the case of letters,
      from a player who neither draws nor has guessed already. */
  lemma GuessIsCaseInsensitive(r: RoomView, k: nat, guess: string, now: nat, word: string)
    requires k < |r.seats| && -1 <= r.drawer && 0 <= r.timeLeft
    ensures ProcessGuess(r, k, guess, now, word).1 <==>
              && !r.seats[k].isDrawing && !r.seats[k].hasGuessed
              && |guess| == |r.word| && forall i :: 0 <= i < |guess| ==> SameLetter(guess[i], r.word[i])
  {
    LowerEqual(guess, r.word);
  }

  /** A correct guess pays its author ten points and one for every second left,
      pays nobody else, and ends the round exactly when everyone else has guessed
      or is drawing. */
  lemma GuessPays(r: RoomView, t: nat, k: nat, guess: string, now: nat, word: string)
    requires Inv(r, t) && r.phase == Playing && k < |r.seats| && ProcessGuess(r, k, guess, now, word).1
    ensures var s := ProcessGuess(r, k, guess, now, word).0;
            && |s.seats| == |r.seats|
            && (forall i :: 0 <= i < |r.seats| ==>
                  && s.seats[i].who == r.seats[i].who
                  && s.seats[i].score == r.seats[i].score + if i == k then 10 + r.timeLeft else 0)
            && (s.round != r.round <==>
                  forall i :: 0 <= i < |r.seats| && i != k ==> r.seats[i].hasGuessed || r.seats[i].isDrawing)
  {
    var m := ScoreGuess(r, k);
    AwardKeepsInv(r, t, k);
    SettledButOne(r.seats, k, Points(r.timeLeft));
    if AllSettled(m.seats) {
      ScoresKept(m, now, word);
    }
  }

  lemma SettledButOne(seats: seq<Seat>, k: nat, points: int)
    requires k < |seats|
    ensures AllSettled(seats[k := Award(seats[k], points)]) <==>
              forall i :: 0 <= i < |seats| && i != k ==> seats[i].hasGuessed || seats[i].isDrawing
  {
    var after := seats[k := Award(seats[k], points)];
    if AllSettled(after) {
      assert forall i :: 0 <= i < |seats| && i != k ==> after[i] == seats[i];
    }
  }

  /** The end of a round changes nobody's score. */
  lemma ScoresKept(r: RoomView, now: nat, word: string)
    requires RoundReady(r) && 0 <= r.drawer
    ensures var s := EndRound(r, now, word);
            && |s.seats| == |r.seats| && s.round == r.round + 1
            && forall i :: 0 <= i < |r.seats| ==>
                 s.seats[i].who == r.seats[i].who && s.seats[i].score == r.seats[i].score
  {
    NextRound(Send(r, Announce(RoundEnd)), now, word);
  }

  lemma LowerEqual(a: string, b: string)
    ensures Lower(a) == Lower(b) <==> |a| == |b| && forall i :: 0 <= i < |a| ==> SameLetter(a[i], b[i])
  {
    if |a| == |b| {
      assert forall i :: 0 <= i < |a| ==> (Lower(a)[i] == Lower(b)[i] <==> SameLetter(a[i], b[i]));
    }
  }

  // ----- Somebody left to guess -----

  /** A running game waits for at least one guess. */
  ghost predicate Live(r: RoomView) {
    r.phase == Playing ==> !AllSettled(r.seats)
  }

  lemma TurnIsLive(seats: seq<Seat>, d: nat)
    requires 2 <= |seats|
    ensures !AllSettled(TurnSeats(seats, d))
  {
    var i := if d == 0 then 1 else 0;
    assert TurnSeats(seats, d)[i] == TurnSeat(seats[i], false);
  }

  lemma EndRoundLive(r: RoomView, now: nat, word: string)
    requires RoundReady(r) && 0 <= r.drawer
    ensures Live(EndRound(r, now, word))
  {
    var m := Send(r, Announce(RoundEnd));
    NextRound(m, now, word);
    TurnIsLive(m.seats, Search(m.seats, m.drawer, 0).1);
  }

  lemma LaunchLive(r: RoomView, now: nat, word: string)
    requires 2 <= |r.seats| <= MAX_PLAYERS && DistinctSeats(r.seats) && r.drawer == -1
    ensures Live(Launch(r, now, word))
  {
    var s := Reset(r);
    ResetReady(r);
    NextRound(s, now, word);
    TurnIsLive(s.seats, Search(s.seats, s.drawer, 0).1);
  }

  lemma ChatLive(r: RoomView, t: nat, k: nat, text: string, now: nat, word: string)
    requires Inv(r, t) && Live(r) && k < |r.seats|
    ensures Live(Chat(r, k, text, now, word))
  {
    if r.phase == Playing && !r.seats[k].isDrawing {
      AwardKeepsInv(r, t, k);
      var m := ScoreGuess(r, k);
      if AllSettled(m.seats) {
        EndRoundLive(m, now, word);
      }
    }
  }

  lemma TickLive(r: RoomView, t: nat, now: nat, word: string)
    requires Inv(r, t) && t <= now && Live(r)
    ensures Live(Tick(r, now, word))
  {
    if r.phase == Playing {
      if ROUND_TIME - (now - r.roundStart) / 1000 <= 0 {
        EndRoundLive(r.(timeLeft := 0), now, word);
      }
    } else if r.phase == Waiting && r.countdownActive && |r.seats| >= 2 {
      LaunchLive(r, now, word);
    }
  }

  lemma JoinLive(r: RoomView, t: nat, s: Seat, now: nat, word: string)
    requires Inv(r, t) && r.phase == Waiting && SeatOf(r.seats, s.who) == -1
    ensures Live(Admit(r, s, now, word))
  {
    var b := StartCountdown(AddPlayer(r, s).0, now);
    if |b.seats| == MAX_PLAYERS {
      LaunchLive(b, now, word);
    }
  }

  lemma RejoinLive(r: RoomView, s: Seat)
    requires Live(r)
    ensures Live(Reseat(r, s).0)
  {
    if r.phase == Playing {
      var i :| 0 <= i < |r.seats| && !(r.seats[i].hasGuessed || r.seats[i].isDrawing);
      assert (r.seats + [s])[i] == r.seats[i];
    }
  }

  /** Every step but a departure leaves somebody to guess: the last correct
      guess ends the round in the same step. */
  lemma StepLive(r: RoomView, t: nat, e: Event)
    requires Inv(r, t) && Live(r) && t <= e.now && Enabled(r, e) && !e.Leave?
    ensures Live(Step(r, t, e))
  {
    match e
    case Join(s, now, word) => JoinLive(r, t, s, now, word);
    case Say(p, text, now, word) =>
      var k := SeatOf(r.seats, p);
      if k >= 0 {
        ChatLive(r, t, k, text, now, word);
      }
    case TimerTick(now, word) => TickLive(r, t, now, word);
    case Rejoin(s, _) => RejoinLive(r, s);
    case Register(_, _, _, _) =>
      if r.phase == Playing {
        var i :| 0 <= i < |r.seats| && !(r.seats[i].hasGuessed || r.seats[i].isDrawing);
        assert !(Step(r, t, e).seats[i].hasGuessed || Step(r, t, e).seats[i].isDrawing);
      }
    case Leave(_, _, _) =>
  }

  lemma {:induction false} RunLive(r: RoomView, t: nat, es: seq<Event>)
    requires Inv(r, t) && Live(r) && Playable(r, t, es) && WithoutLeave(es)
    ensures Live(Run(r, t, es))
    decreases |es|
  {
    if es != [] {
      StepKeepsInv(r, t, es[0]);
      StepLive(r, t, es[0]);
      RunLive(Step(r, t, es[0]), es[0].now, es[1..]);
    }
  }

  // ----- Departures -----

  /** A departure leaves a running game with nobody to guess exactly when the
      game goes on in the same round and the leaver was the only one still
      guessing: nothing rechecks the others' guesses. */
  lemma LeaveLive(r: RoomView, t: nat, k: nat, now: nat, word: string)
    requires Inv(r, t) && r.phase == Playing && k < |r.seats|
    ensures !Live(RemoveSeat(r, k, now, word)) <==>
              && 3 <= |r.seats| && !r.seats[k].isDrawing
              && forall i :: 0 <= i < |r.seats| && i != k ==> r.seats[i].hasGuessed || r.seats[i].isDrawing
  {
    SettledRest(r.seats, k);
    if 3 <= |r.seats| {
      VacateReady(r, t, k);
      if r.seats[k].isDrawing {
        EndRoundLive(Vacate(r, k), now, word);
      }
    }
  }

  lemma SettledRest(seats: seq<Seat>, k: nat)
    requires k < |seats|
    ensures AllSettled(RemoveAt(seats, k)) <==>
              forall i :: 0 <= i < |seats| && i != k ==> seats[i].hasGuessed || seats[i].isDrawing
  {
    var rest := RemoveAt(seats, k);
    assert forall i :: 0 <= i < |seats| && i != k ==> seats[i] == rest[if i < k then i else i - 1];
    assert forall i :: 0 <= i < |rest| ==> rest[i] == seats[if i < k then i else i + 1];
  }

  // ----- Who has guessed, or is taken to have -----

  /** p is seated, his guess counts as made, and he has this score. */
  ghost predicate Done(r: RoomView, p: Player, score: int) {
    var k := SeatOf(r.seats, p);
    k >= 0 && r.seats[k].hasGuessed && r.seats[k].score == score
  }

  /** The step is not p's own departure or registration. */
  predicate NotBy(e: Event, p: Player) {
    (e.Leave? ==> e.leaver != p) && (e.Register? ==> e.player != p)
  }

  lemma EndRoundCounts(r: RoomView, now: nat, word: string)
    requires RoundReady(r) && 0 <= r.drawer
    ensures EndRound(r, now, word).round == r.round + 1
  {
    NextRound(Send(r, Announce(RoundEnd)), now, word);
  }

  /** The round is over, or p is where he was. */
  ghost predicate NewRoundOrDone(r: RoomView, s: RoomView, p: Player, score: int) {
    r.round < s.round || (s.round == r.round && Done(s, p, score))
  }

  lemma ChatDone(r: RoomView, t: nat, k: nat, text: string, now: nat, word: string, p: Player, score: int)
    requires Inv(r, t) && r.phase == Playing && k < |r.seats| && Done(r, p, score)
    ensures NewRoundOrDone(r, Chat(r, k, text, now, word), p, score)
  {
    if !r.seats[k].isDrawing && !r.seats[k].hasGuessed {
      AcceptDone(r, t, k, now, word, p, score);
    }
  }

  /** The guess of somebody else. */
  lemma AcceptDone(r: RoomView, t: nat, k: nat, now: nat, word: string, p: Player, score: int)
    requires Inv(r, t) && r.phase == Playing && k < |r.seats| && Done(r, p, score)
    requires !r.seats[k].isDrawing && !r.seats[k].hasGuessed
    ensures NewRoundOrDone(r, AcceptGuess(r, k, now, word), p, score)
  {
    var m := ScoreGuess(r, k);
    SameWho(r.seats, m.seats, p);
    if AllSettled(m.seats) {
      AwardKeepsInv(r, t, k);
      EndRoundCounts(m, now, word);
    }
  }

  lemma SameWho(a: seq<Seat>, b: seq<Seat>, p: Player)
    requires |a| == |b| && forall i :: 0 <= i < |a| ==> a[i].who == b[i].who
    ensures SeatOf(a, p) == SeatOf(b, p)
  {
    var k := SeatOf(a, p);
    if k >= 0 {
      assert b[k].who == p;
    }
  }

  lemma TickDone(r: RoomView, t: nat, now: nat, word: string, p: Player, score: int)
    requires Inv(r, t) && t <= now && r.phase == Playing && Done(r, p, score)
    ensures NewRoundOrDone(r, Tick(r, now, word), p, score)
  {
    if ROUND_TIME - (now - r.roundStart) / 1000 <= 0 {
      EndRoundCounts(r.(timeLeft := 0), now, word);
    }
  }

  lemma LeaveDone(r: RoomView, t: nat, k: nat, now: nat, word: string, p: Player, score: int)
    requires Inv(r, t) && r.phase == Playing && k < |r.seats| && Done(r, p, score) && r.seats[k].who != p
    ensures NewRoundOrDone(r, RemoveSeat(r, k, now, word), p, score)
  {
    SeatKept(r.seats, k, p);
    if 3 <= |r.seats| && r.seats[k].isDrawing {
      VacateReady(r, t, k);
      EndRoundCounts(Vacate(r, k), now, word);
    }
  }

  lemma SeatKept(seats: seq<Seat>, k: nat, p: Player)
    requires k < |seats| && DistinctSeats(seats) && SeatOf(seats, p) >= 0 && seats[k].who != p
    ensures SeatOf(RemoveAt(seats, k), p) >= 0
    ensures RemoveAt(seats, k)[SeatOf(RemoveAt(seats, k), p)] == seats[SeatOf(seats, p)]
  {
    var j, rest := SeatOf(seats, p), RemoveAt(seats, k);
    RemovedSeatGone(seats, k);
    assert rest[if j < k then j else j - 1] == seats[j];
  }

  lemma StepDone(r: RoomView, t: nat, e: Event, p: Player, score: int)
    requires Inv(r, t) && r.phase == Playing && Done(r, p, score)
    requires t <= e.now && Enabled(r, e) && NotBy(e, p)
    ensures NewRoundOrDone(r, Step(r, t, e), p, score)
  {
    match e
    case Say(q, text, now, word) =>
      var k := SeatOf(r.seats, q);
      if k >= 0 {
        ChatDone(r, t, k, text, now, word, p, score);
      }
    case TimerTick(now, word) => TickDone(r, t, now, word, p, score);
    case Leave(q, now, word) =>
      var k := SeatOf(r.seats, q);
      if k >= 0 {
        LeaveDone(r, t, k, now, word, p, score);
      }
    case Rejoin(s, _) =>
      var k := SeatOf(r.seats, p);
      assert (r.seats + [s])[k] == r.seats[k];
    case Register(q, id, token, _) =>
      var k := SeatOf(r.seats, q);
      if k >= 0 {
        SameWho(r.seats, RegisterSeat(r, k, id, token).seats, p);
      }
    case Join(_, _, _) =>
  }

  lemma ChatGrows(r: RoomView, k: nat, text: string, now: nat, word: string)
    requires k < |r.seats| && (r.phase == Playing ==> 0 <= r.drawer && 0 <= r.timeLeft)
    ensures r.round <= Chat(r, k, text, now, word).round
  {
  }

  lemma LeaveGrows(r: RoomView, k: nat, now: nat, word: string)
    requires k < |r.seats| && (r.phase == Playing ==> 0 <= r.drawer)
    ensures r.round <= RemoveSeat(r, k, now, word).round
  {
  }

  lemma RoundGrows(r: RoomView, t: nat, e: Event)
    requires Inv(r, t) && r.phase != Waiting && t <= e.now && Enabled(r, e)
    ensures r.round <= Step(r, t, e).round
  {
    match e
    case Say(p, text, now, word) =>
      var k := SeatOf(r.seats, p);
      if k >= 0 {
        ChatGrows(r, k, text, now, word);
      }
    case Leave(p, now, word) =>
      var k := SeatOf(r.seats, p);
      if k >= 0 {
        LeaveGrows(r, k, now, word);
      }
    case _ =>
  }

  lemma {:induction false} RunRoundGrows(r: RoomView, t: nat, es: seq<Event>)
    requires Inv(r, t) && Playable(r, t, es) && r.phase != Waiting
    ensures r.round <= Run(r, t, es).round
    decreases |es|
  {
    if es != [] {
      StepKeepsInv(r, t, es[0]);
      StepStarted(r, t, es[0]);
      RoundGrows(r, t, es[0]);
      RunRoundGrows(Step(r, t, es[0]), es[0].now, es[1..]);
    }
  }

  /** Whose guess counts as made gains nothing more while the round lasts, whatever
      he or others say. It does not matter when the guess was made: a returner brings
      the flag along from an earlier round, and waits for the next turn too. */
  lemma {:induction false} FlagLastsRound(r: RoomView, t: nat, es: seq<Event>, p: Player, score: int)
    requires Inv(r, t) && Playable(r, t, es) && r.phase == Playing && Done(r, p, score)
    requires forall i :: 0 <= i < |es| ==> NotBy(es[i], p)
    requires Run(r, t, es).round == r.round && Run(r, t, es).phase == Playing
    ensures Done(Run(r, t, es), p, score)
    decreases |es|
  {
    if es != [] {
      var s := Step(r, t, es[0]);
      StepKeepsInv(r, t, es[0]);
      StepStarted(r, t, es[0]);
      StepDone(r, t, es[0], p, score);
      RunRoundGrows(s, es[0].now, es[1..]);
      if s.phase == Ended {
        EndedForGood(s, es[0].now, es[1..]);
      }
      FlagLastsRound(s, es[0].now, es[1..], p, score);
    }
  }

  /** And he counts as settled: only a returner without that flag and the drawing
      flag gives a round somebody to wait for. */
  lemma ReturnLive(r: RoomView, s: Seat)
    requires r.phase == Playing && |r.seats| < MAX_PLAYERS
    ensures Live(Reseat(r, s).0) <==> Live(r) || !(s.hasGuessed || s.isDrawing)
  {
    var seats := r.seats + [s];
    assert seats[|r.seats|] == s && seats[..|r.seats|] == r.seats;
    if !AllSettled(r.seats) {
      var i :| 0 <= i < |r.seats| && !(r.seats[i].hasGuessed || r.seats[i].isDrawing);
      assert seats[i] == r.seats[i];
    }
  }
}
