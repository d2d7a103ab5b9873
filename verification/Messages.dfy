/** What the engine sends over whole runs, reconnections included. */
module Messages {
  import opened Protocol
  import opened RoomSpec
  import opened TurnOrder
  import opened RoomInvariant
  import opened Runs
  import opened TurnHistory
  import opened Sequences

  function GameEnds(sent: seq<Message>): nat {
    if sent == [] then 0
    else GameEnds(sent[..|sent| - 1]) + if sent[|sent| - 1] == Announce(GameEnd) then 1 else 0
  }

  /** The words handed out, in order. */
  function Words(sent: seq<Message>): seq<Message> {
    if sent == [] then []
    else Words(sent[..|sent| - 1]) + if sent[|sent| - 1].WordToDraw? then [sent[|sent| - 1]] else []
  }

  lemma SendCounts(sent: seq<Message>, m: Message)
    ensures GameEnds(sent + [m]) == GameEnds(sent) + if m == Announce(GameEnd) then 1 else 0
    ensures Words(sent + [m]) == Words(sent) + if m.WordToDraw? then [m] else []
  {
    assert (sent + [m])[..|sent|] == sent;
  }

  function TurnWord(r: RoomView): Message
    requires 0 <= r.drawer < |r.seats|
  {
    WordToDraw(r.seats[r.drawer].who, r.word)
  }

  /** The word that goes out with a step: that of the turn it starts, or the last
      word once more when the rounds run out. */
  ghost function Handed(r: RoomView, s: RoomView): seq<Message> {
    if !(0 <= s.drawer < |s.seats|) then []
    else if s.phase == Playing && s.round != r.round then [TurnWord(s)]
    else if RoundsRanOut(r, s) then [TurnWord(s)]
    else []
  }

  /** The step ended the game although two or more players are left. */
  ghost predicate RoundsRanOut(r: RoomView, s: RoomView) {
    r.phase == Playing && s.phase == Ended && 2 <= |s.seats|
  }

  /** The game-end broadcast went out if and only if the game has ended, and
      never twice; while a game runs, the last word handed out is the current
      word and went to the current drawer. */
  ghost predicate Informed(r: RoomView) {
    && GameEnds(r.sent) == (if r.phase == Ended then 1 else 0)
    && (r.phase == Playing && 0 <= r.drawer < |r.seats| ==>
          Words(r.sent) != [] && Words(r.sent)[|Words(r.sent)| - 1] == TurnWord(r))
  }

  // ----- Steps -----

  lemma SendKind(r: RoomView, k: Kind)
    ensures GameEnds(Send(r, Announce(k)).sent) == GameEnds(r.sent) + if k == GameEnd then 1 else 0
    ensures Words(Send(r, Announce(k)).sent) == Words(r.sent)
  {
    SendCounts(r.sent, Announce(k));
  }

  lemma SendTurnWord(r: RoomView)
    requires 0 <= r.drawer < |r.seats|
    ensures GameEnds(SendWord(r).sent) == GameEnds(r.sent)
    ensures Words(SendWord(r).sent) == Words(r.sent) + [TurnWord(r)]
  {
    SendCounts(r.sent, TurnWord(r));
  }

  lemma NextRoundSends(r: RoomView, now: nat, word: string)
    requires RoundReady(r)
    ensures var s := StartNextRound(r, now, word);
            && GameEnds(s.sent) == GameEnds(r.sent) + (if s.phase == Ended then 1 else 0)
            && Words(s.sent) == Words(r.sent)
            && (s.phase == Playing <==> !OutOfRounds(r))
            && (0 <= r.drawer || !OutOfRounds(r) ==> 0 <= s.drawer < |s.seats|)
            && s.round == r.round + 1
  {
    NextRound(r, now, word);
    SendKind(r.(round := r.round + 1, phase := Ended), GameEnd);
  }

  /** A running game has a drawer; a game that is out of rounds keeps the index
      of the last one. */
  lemma RoundEnds(r: RoomView, now: nat, word: string)
    requires RoundReady(r) && 0 <= r.drawer
    ensures var s := StartNextRound(Send(r, Announce(RoundEnd)), now, word);
            && GameEnds(s.sent) == GameEnds(r.sent) + (if s.phase == Ended then 1 else 0)
            && Words(s.sent) == Words(r.sent)
            && 0 <= s.drawer < |s.seats|
            && s.round == r.round + 1
  {
    SendKind(r, RoundEnd);
    NextRoundSends(Send(r, Announce(RoundEnd)), now, word);
  }

  /** What the end of a round sends: an end or not, and one word. */
  lemma EndRoundSends(r: RoomView, now: nat, word: string)
    requires RoundReady(r) && 0 <= r.drawer
    ensures var s := EndRound(r, now, word);
            && GameEnds(s.sent) == GameEnds(r.sent) + (if s.phase == Ended then 1 else 0)
            && 0 <= s.drawer < |s.seats|
            && Words(s.sent) == Words(r.sent) + [TurnWord(s)]
            && s.round == r.round + 1
            && s.sent != [] && s.sent[|s.sent| - 1] == TurnWord(s)
  {
    var b := StartNextRound(Send(r, Announce(RoundEnd)), now, word);
    RoundEnds(r, now, word);
    SendKind(b, RoundStart);
    SendTurnWord(Send(b, Announce(RoundStart)));
  }

  /** The effect of a step on the messages: the invariant, and the words handed
      out in order. */
  ghost predicate Tells(r: RoomView, s: RoomView) {
    Informed(s) && Words(s.sent) == Words(r.sent) + Handed(r, s)
  }

  lemma EndRoundTells(r: RoomView, now: nat, word: string)
    requires RoundReady(r) && 0 <= r.drawer && GameEnds(r.sent) == 0
    ensures Tells(r, EndRound(r, now, word))
  {
    EndRoundSends(r, now, word);
  }

  lemma QuietTells(r: RoomView, s: RoomView)
    requires Informed(r) && s.phase == r.phase && s.round == r.round && s.sent == r.sent
    requires s.phase == Playing ==>
               && 0 <= r.drawer < |r.seats| && 0 <= s.drawer < |s.seats|
               && s.seats[s.drawer].who == r.seats[r.drawer].who && s.word == r.word
    ensures Tells(r, s)
  {
    ConcatNothing(Words(r.sent));
  }

  lemma ThenKind(r: RoomView, s: RoomView, k: Kind)
    requires Tells(r, s) && k != GameEnd
    ensures Tells(r, Send(s, Announce(k)))
  {
    SendKind(s, k);
  }

  lemma LaunchTells(r: RoomView, now: nat, word: string)
    requires 2 <= |r.seats| <= MAX_PLAYERS && DistinctSeats(r.seats) && r.drawer == -1 && r.round == 0
    requires GameEnds(r.sent) == 0
    ensures Tells(r, Launch(r, now, word))
  {
    ResetReady(r);
    UndrawnAll(Reset(r).seats);
    NextRoundSends(Reset(r), now, word);
    var b := StartNextRound(Reset(r), now, word);
    SendKind(b, GameStart);
    SendTurnWord(Send(b, Announce(GameStart)));
  }

  lemma JoinTells(r: RoomView, t: nat, s: Seat, now: nat, word: string)
    requires Inv(r, t) && Informed(r) && r.phase == Waiting && SeatOf(r.seats, s.who) == -1
    ensures Tells(r, Admit(r, s, now, word))
  {
    var b := StartCountdown(AddPlayer(r, s).0, now);
    if |b.seats| == MAX_PLAYERS {
      LaunchTells(b, now, word);
    } else {
      QuietTells(r, b);
    }
  }

  lemma AcceptTells(r: RoomView, t: nat, k: nat, now: nat, word: string)
    requires Inv(r, t) && Informed(r) && r.phase == Playing && k < |r.seats| && !r.seats[k].isDrawing
    ensures Tells(r, AcceptGuess(r, k, now, word))
  {
    AwardKeepsInv(r, t, k);
    var m := r.(seats := r.seats[k := Award(r.seats[k], Points(r.timeLeft))]);
    QuietTells(r, m);
    ThenKind(r, m, ScoreUpdate);
    SendKind(m, ScoreUpdate);
    if AllSettled(m.seats) {
      EndRoundTells(Send(m, Announce(ScoreUpdate)), now, word);
    }
  }

  lemma ChatTells(r: RoomView, t: nat, k: nat, text: string, now: nat, word: string)
    requires Inv(r, t) && Informed(r) && k < |r.seats|
    ensures Tells(r, Chat(r, k, text, now, word))
  {
    QuietTells(r, r);
    ThenKind(r, r, ChatBroadcast);
    if r.phase == Playing && !r.seats[k].isDrawing {
      var s := AcceptGuess(r, k, now, word);
      AcceptTells(r, t, k, now, word);
      ThenKind(r, s, GuessCorrect);
      ThenKind(r, Send(s, Announce(GuessCorrect)), ScoreUpdate);
    }
  }

  lemma TimerTells(r: RoomView, t: nat, now: nat, word: string)
    requires Inv(r, t) && t <= now && Informed(r)
    ensures Tells(r, UpdateTimer(r, now, word))
  {
    QuietTells(r, r);
    if r.phase == Playing {
      var left := ROUND_TIME - (now - r.roundStart) / 1000;
      if left <= 0 {
        EndRoundTells(r.(timeLeft := 0), now, word);
      } else {
        QuietTells(r, r.(timeLeft := left));
      }
    }
  }

  lemma CountdownTells(r: RoomView, t: nat, now: nat, word: string)
    requires Inv(r, t) && t <= now && Informed(r)
    ensures Tells(r, CheckCountdown(r, now, word))
  {
    QuietTells(r, r);
    if r.countdownActive && r.phase == Waiting {
      var elapsed := (now - r.countdownStart) / 1000;
      if elapsed < 15 {
        ThenKind(r, r, CountdownUpdate(15 - elapsed));
      } else if |r.seats| >= 2 {
        LaunchTells(r, now, word);
      }
    }
  }

  /** Of the two halves of a tick at most one does anything to the round. */
  lemma TickTells(r: RoomView, t: nat, now: nat, word: string)
    requires Inv(r, t) && t <= now && Informed(r)
    ensures Tells(r, Tick(r, now, word))
  {
    var s := CheckCountdown(r, now, word);
    CountdownKeepsInv(r, t, now, word);
    CountdownTells(r, t, now, word);
    if r.phase == Waiting {
      if s.phase == Playing {
        LaunchTimer(r, now, word);
        ThenKind(r, s, TimerUpdate(ROUND_TIME));
      } else {
        ThenKind(r, s, TimerUpdate(s.timeLeft));
      }
    } else {
      var u := UpdateTimer(r, now, word);
      TimerTells(r, t, now, word);
      ThenKind(r, u, TimerUpdate(u.timeLeft));
    }
  }

  lemma LaunchTimer(r: RoomView, now: nat, word: string)
    requires r.phase == Waiting && TickReady(r, now) && CheckCountdown(r, now, word).phase == Playing
    ensures UpdateTimer(CheckCountdown(r, now, word), now, word) == CheckCountdown(r, now, word)
  {
  }

  lemma VacateKeepsDrawer(r: RoomView, t: nat, k: nat)
    requires Inv(r, t) && r.phase == Playing && k < |r.seats| && 3 <= |r.seats| && !r.seats[k].isDrawing
    ensures 0 <= Vacate(r, k).drawer < |r.seats| - 1
    ensures Vacate(r, k).seats[Vacate(r, k).drawer] == r.seats[r.drawer]
  {
  }

  lemma DrawerLeaveTells(r: RoomView, t: nat, k: nat, now: nat, word: string)
    requires Inv(r, t) && Informed(r) && k < |r.seats|
    requires r.phase == Playing && 3 <= |r.seats| && r.seats[k].isDrawing
    ensures Tells(r, EndRound(Vacate(r, k), now, word))
  {
    VacateReady(r, t, k);
    EndRoundTells(Vacate(r, k), now, word);
  }

  lemma LastLeaveTells(r: RoomView, t: nat, k: nat)
    requires Inv(r, t) && Informed(r) && k < |r.seats| && r.phase == Playing && |r.seats| == 2
    ensures Tells(r, EndGame(Vacate(r, k)))
  {
    SendKind(Vacate(r, k).(phase := Ended), GameEnd);
  }

  lemma LeaveTells(r: RoomView, t: nat, k: nat, now: nat, word: string)
    requires Inv(r, t) && Informed(r) && k < |r.seats|
    ensures Tells(r, RemoveSeat(r, k, now, word))
  {
    if r.phase != Playing {
      QuietTells(r, Vacate(r, k));
    } else if |r.seats| == 2 {
      LastLeaveTells(r, t, k);
    } else if r.seats[k].isDrawing {
      DrawerLeaveTells(r, t, k, now, word);
    } else {
      VacateKeepsDrawer(r, t, k);
      QuietTells(r, Vacate(r, k));
    }
  }

  lemma StepTells(r: RoomView, t: nat, e: Event)
    requires Inv(r, t) && Informed(r) && t <= e.now && Enabled(r, e)
    ensures Tells(r, Step(r, t, e))
  {
    QuietTells(r, r);
    match e
    case Join(s, now, word) => JoinTells(r, t, s, now, word);
    case Say(p, text, now, word) =>
      var k := SeatOf(r.seats, p);
      if k >= 0 {
        ChatTells(r, t, k, text, now, word);
      }
    case TimerTick(now, word) => TickTells(r, t, now, word);
    case Leave(p, now, word) =>
      var k := SeatOf(r.seats, p);
      if k >= 0 {
        LeaveTells(r, t, k, now, word);
      }
    case Rejoin(s, _) => QuietTells(r, Reseat(r, s).0);
    case Register(_, _, _, _) => QuietTells(r, Step(r, t, e));
  }

  // ----- Whole runs -----

  ghost function AllHanded(r: RoomView, t: nat, es: seq<Event>): seq<Message>
    requires Inv(r, t) && Playable(r, t, es)
    decreases |es|
  {
    if es == [] then []
    else
      StepKeepsInv(r, t, es[0]);
      var s := Step(r, t, es[0]);
      Handed(r, s) + AllHanded(s, es[0].now, es[1..])
  }

  /** Over any run from a new room the end of the game is announced exactly
      once, when it ends, and the player drawing is always the last one to have
      been told the word. */
  lemma {:induction false} RunInforms(r: RoomView, t: nat, es: seq<Event>)
    requires Inv(r, t) && Informed(r) && Playable(r, t, es)
    ensures Informed(Run(r, t, es))
    decreases |es|
  {
    if es != [] {
      StepKeepsInv(r, t, es[0]);
      StepTells(r, t, es[0]);
      RunInforms(Step(r, t, es[0]), es[0].now, es[1..]);
    }
  }

  /** The words sent over a run are those of its steps, in order. */
  lemma {:induction false} RunHandsWords(r: RoomView, t: nat, es: seq<Event>)
    requires Inv(r, t) && Informed(r) && Playable(r, t, es)
    ensures Words(Run(r, t, es).sent) == Words(r.sent) + AllHanded(r, t, es)
    decreases |es|
  {
    if es == [] {
      ConcatNothing(Words(r.sent));
    } else {
      var s := Step(r, t, es[0]);
      StepKeepsInv(r, t, es[0]);
      StepTells(r, t, es[0]);
      RunHandsWords(s, es[0].now, es[1..]);
      ConcatAssociative(Words(r.sent), Handed(r, s), AllHanded(s, es[0].now, es[1..]));
    }
  }

  /** Some step of the run ended the game because the rounds ran out. */
  ghost predicate RanOut(r: RoomView, t: nat, es: seq<Event>)
    requires Inv(r, t) && Playable(r, t, es)
    decreases |es|
  {
    es != [] &&
    (StepKeepsInv(r, t, es[0]);
     RoundsRanOut(r, Step(r, t, es[0])) || RanOut(Step(r, t, es[0]), es[0].now, es[1..]))
  }

  /** The words went to exactly these players, in this order. */
  ghost predicate SentTo(words: seq<Message>, ps: seq<Player>) {
    |words| == |ps| && forall i :: 0 <= i < |words| ==> words[i].WordToDraw? && words[i].to == ps[i]
  }

  /** An ended room starts no turn and hands out no word. */
  lemma {:induction false} EndedIsSilent(r: RoomView, t: nat, es: seq<Event>)
    requires Inv(r, t) && Playable(r, t, es) && r.phase == Ended
    ensures AllHanded(r, t, es) == [] && History(r, t, es) == [] && !RanOut(r, t, es)
    decreases |es|
  {
    if es != [] {
      StepKeepsInv(r, t, es[0]);
      EndedForGood(r, t, [es[0]]);
      EndedIsSilent(Step(r, t, es[0]), es[0].now, es[1..]);
    }
  }

  /** One word for every turn, to the player whose turn it is; and one more after
      the last turn exactly if the rounds ran out. */
  ghost predicate TurnWords(words: seq<Message>, turns: seq<Player>, ranOut: bool) {
    && |words| == |turns| + (if ranOut then 1 else 0)
    && SentTo(words[..|turns|], turns)
  }

  lemma {:induction false} HandedToDrawers(r: RoomView, t: nat, es: seq<Event>)
    requires Inv(r, t) && Informed(r) && Playable(r, t, es)
    ensures TurnWords(AllHanded(r, t, es), History(r, t, es), RanOut(r, t, es))
    decreases |es|
  {
    if es != [] {
      var s := Step(r, t, es[0]);
      StepKeepsInv(r, t, es[0]);
      StepTells(r, t, es[0]);
      if s.phase == Ended {
        EndedIsSilent(s, es[0].now, es[1..]);
        EndingHands(r, t, es[0]);
      } else {
        HandedToDrawers(s, es[0].now, es[1..]);
        FirstTurnWord(Handed(r, s), Drew(r, s), AllHanded(s, es[0].now, es[1..]), History(s, es[0].now, es[1..]),
                      RanOut(s, es[0].now, es[1..]));
      }
    }
  }

  lemma FirstTurnWord(a: seq<Message>, ps: seq<Player>, b: seq<Message>, qs: seq<Player>, ranOut: bool)
    requires SentTo(a, ps) && TurnWords(b, qs, ranOut)
    ensures TurnWords(a + b, ps + qs, ranOut)
  {
    assert (a + b)[..|ps| + |qs|] == a + b[..|qs|];
  }

  /** The step that ends a game hands out one word exactly if the rounds ran out. */
  lemma EndingHands(r: RoomView, t: nat, e: Event)
    requires Inv(r, t) && t <= e.now && Enabled(r, e) && Step(r, t, e).phase == Ended
    ensures |Handed(r, Step(r, t, e))| == if RoundsRanOut(r, Step(r, t, e)) then 1 else 0
  {
    if r.phase == Playing {
      EndingSends(r, t, e);
    }
  }

  /** The words actually sent over a run from a new room: one for each turn, to its
      drawer, in order, and the last one again, to whoever then sits at the drawer
      index, exactly if the rounds ran out. */
  lemma WordsGoToDrawers(r: RoomView, t: nat, es: seq<Event>)
    requires Inv(r, t) && Informed(r) && Playable(r, t, es) && Words(r.sent) == []
    ensures TurnWords(Words(Run(r, t, es).sent), History(r, t, es), RanOut(r, t, es))
  {
    RunHandsWords(r, t, es);
    HandedToDrawers(r, t, es);
    NothingConcat(AllHanded(r, t, es));
  }

  // ----- The last message -----

  /** What the step e sends when the rounds of r run out in it: the messages in front
      of the end of the game, and those behind it. */
  function BeforeEnd(e: Event): seq<Message> {
    (if e.Say? then [Announce(ScoreUpdate)] else []) + [Announce(RoundEnd)]
  }

  function AfterEnd(e: Event, last: Message): seq<Message> {
    [Announce(RoundStart), last] +
    (match e
     case Say(_, _, _, _) => [Announce(GuessCorrect), Announce(ScoreUpdate)]
     case TimerTick(_, _) => [Announce(TimerUpdate(0))]
     case _ => [])
  }

  lemma RoundsOutSends(r: RoomView, now: nat, word: string)
    requires RoundReady(r) && 0 <= r.drawer && EndRound(r, now, word).phase == Ended
    ensures var s := EndRound(r, now, word);
            && s.drawer == r.drawer && s.seats == r.seats && s.word == r.word
            && s.sent == r.sent + [Announce(RoundEnd)] + [Announce(GameEnd)] + [Announce(RoundStart), TurnWord(s)]
  {
    NextRound(Send(r, Announce(RoundEnd)), now, word);
  }

  /** Exactly what a step sends that ends a running game. The end is announced once;
      it is the last message if a departure leaves fewer than two players, and
      otherwise a round start and the old word follow it. */
  ghost predicate Farewell(r: RoomView, e: Event, s: RoomView) {
    if e.Leave? && |r.seats| == 2 then s.sent == r.sent + [Announce(GameEnd)]
    else
      && 0 <= s.drawer < |s.seats| && 2 <= |s.seats| && s.word == r.word
      && s.sent == r.sent + BeforeEnd(e) + [Announce(GameEnd)] + AfterEnd(e, TurnWord(s))
  }

  lemma SayFarewell(r: RoomView, t: nat, e: Event, k: nat)
    requires Inv(r, t) && r.phase == Playing && e.Say? && k < |r.seats|
    requires Chat(r, k, e.text, e.now, e.word).phase == Ended
    ensures Farewell(r, e, Chat(r, k, e.text, e.now, e.word))
  {
    ChatCases(r, k, e.text, e.now, e.word);
    var m := ScoreGuess(r, k);
    AwardKeepsInv(r, t, k);
    RoundsOutSends(m, e.now, e.word);
  }

  lemma TickFarewell(r: RoomView, t: nat, e: Event)
    requires Inv(r, t) && r.phase == Playing && e.TimerTick? && t <= e.now && Tick(r, e.now, e.word).phase == Ended
    ensures Farewell(r, e, Tick(r, e.now, e.word))
  {
    RoundsOutSends(r.(timeLeft := 0), e.now, e.word);
  }

  lemma LeaveFarewell(r: RoomView, t: nat, e: Event, k: nat)
    requires Inv(r, t) && r.phase == Playing && e.Leave? && k < |r.seats|
    requires RemoveSeat(r, k, e.now, e.word).phase == Ended
    ensures Farewell(r, e, RemoveSeat(r, k, e.now, e.word))
  {
    if 3 <= |r.seats| {
      VacateReady(r, t, k);
      RoundsOutSends(Vacate(r, k), e.now, e.word);
    }
  }

  lemma EndingSends(r: RoomView, t: nat, e: Event)
    requires Inv(r, t) && t <= e.now && Enabled(r, e) && r.phase == Playing && Step(r, t, e).phase == Ended
    ensures Farewell(r, e, Step(r, t, e))
  {
    match e
    case Say(p, text, now, word) => SayFarewell(r, t, e, SeatOf(r.seats, p));
    case TimerTick(now, word) => TickFarewell(r, t, e);
    case Leave(p, now, word) => LeaveFarewell(r, t, e, SeatOf(r.seats, p));
    case _ =>
  }

  /** So the end of the game is the last message only after such a departure. */
  lemma EndIsLastMessage(r: RoomView, t: nat, e: Event)
    requires Inv(r, t) && t <= e.now && Enabled(r, e) && r.phase == Playing && Step(r, t, e).phase == Ended
    ensures var sent := Step(r, t, e).sent;
            sent != [] && (sent[|sent| - 1] == Announce(GameEnd) <==> e.Leave? && |r.seats| == 2)
  {
    EndingSends(r, t, e);
  }
}
