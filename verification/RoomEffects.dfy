/** What each step does to a room, in terms of its seats, its turn and the messages
    it sends, and not of the functions that compute it. */
module RoomEffects {
  import opened Protocol
  import opened RoomSpec
  import opened TurnOrder
  import opened RoomInvariant
  import opened Runs
  import opened Sequences
  import G = Guessing
  import History = TurnHistory

  // ----- A turn begins -----

  /** A turn of the player at the drawer index began now: he alone is drawing, nobody
      has guessed, the word is shown cut to 31 characters, the full time is on the
      clock and nothing is drawn yet. */
  ghost predicate TurnFresh(s: RoomView, now: nat, word: string) {
    && 0 <= s.drawer < |s.seats| && s.seats[s.drawer].hasDrawn
    && (forall i :: 0 <= i < |s.seats| ==>
          && (s.seats[i].isDrawing <==> i == s.drawer) && !s.seats[i].hasGuessed
          && s.seats[i].state == if i == s.drawer then Drawing else Guessing)
    && s.word <= word && |s.word| == (if |word| < 32 then |word| else 31)
    && s.timeLeft == 90 && s.roundStart == now && s.strokes == 0
  }

  /** The messages around the end of a round: the next round is announced and the word
      goes to whoever sits at the drawer index, even if the game is over. */
  function RoundMessages(s: RoomView): seq<Message>
    requires 0 <= s.drawer < |s.seats|
  {
    [Announce(RoundEnd)] + (if s.phase == Ended then [Announce(GameEnd)] else [])
    + [Announce(RoundStart), WordToDraw(s.seats[s.drawer].who, s.word)]
  }

  /** The round of r ended in s: the game is over, or the next turn begins. Nobody
      moved, and nobody's points or identity changed. */
  ghost predicate RoundOver(r: RoomView, s: RoomView, now: nat, word: string,
                            before: seq<Message>, after: seq<Message>)
  {
    && s.round == r.round + 1 && s.total == r.total && s.id == r.id && s.isPrivate == r.isPrivate
    && 0 <= s.drawer < |s.seats|
    && (s.phase == Playing || s.phase == Ended)
    && (s.phase == Ended ==> s.seats == r.seats && s.drawer == r.drawer && s.word == r.word)
    && (s.phase == Playing ==> TurnFresh(s, now, word))
    && |s.seats| == |r.seats|
    && (forall i :: 0 <= i < |s.seats| ==> SamePlayer(r.seats[i], s.seats[i]))
    && (s.phase == Playing ==>
          forall i :: 0 <= i < |s.seats| && i != s.drawer ==> s.seats[i].hasDrawn == r.seats[i].hasDrawn)
    && s.sent == r.sent + (before + RoundMessages(s) + after)
  }

  ghost predicate SamePlayer(a: Seat, b: Seat) {
    a.who == b.who && a.playerId == b.playerId && a.token == b.token && a.score == b.score && a.rtt == b.rtt
  }

  lemma NextRoundOver(r: RoomView, now: nat, word: string)
    requires RoundReady(r) && 0 <= r.drawer
    ensures var s := StartNextRound(r, now, word);
            && s.round == r.round + 1 && s.total == r.total && s.id == r.id && s.isPrivate == r.isPrivate
            && 0 <= s.drawer < |s.seats| && |s.seats| == |r.seats|
            && (forall i :: 0 <= i < |s.seats| ==> SamePlayer(r.seats[i], s.seats[i]))
            && (if s.phase == Ended
                then s.seats == r.seats && s.drawer == r.drawer && s.word == r.word
                     && s.sent == r.sent + [Announce(GameEnd)]
                else s.phase == Playing && TurnFresh(s, now, word) && s.sent == r.sent
                     && forall i :: 0 <= i < |s.seats| && i != s.drawer ==> s.seats[i].hasDrawn == r.seats[i].hasDrawn)
  {
    NextRound(r, now, word);
  }

  lemma EndRoundOver(r: RoomView, now: nat, word: string)
    requires RoundReady(r) && 0 <= r.drawer
    ensures RoundOver(r, EndRound(r, now, word), now, word, [], [])
  {
    var m := Send(r, Announce(RoundEnd));
    NextRoundOver(m, now, word);
    var n, s := StartNextRound(m, now, word), EndRound(r, now, word);
    NothingConcat(RoundMessages(s));
    ConcatNothing(RoundMessages(s));
    RoundLog(r.sent, n.sent, RoundMessages(s), n.phase == Ended, s.sent, RoundMessages(s)[|RoundMessages(s)| - 1]);
  }

  lemma RoundLog(sent: seq<Message>, mid: seq<Message>, ms: seq<Message>, ended: bool, all: seq<Message>, last: Message)
    requires mid == (sent + [Announce(RoundEnd)]) + if ended then [Announce(GameEnd)] else []
    requires all == (mid + [Announce(RoundStart)]) + [last]
    requires ms == [Announce(RoundEnd)] + (if ended then [Announce(GameEnd)] else []) + [Announce(RoundStart), last]
    ensures all == sent + ms
  {
  }

  lemma MoreMessages(r: RoomView, m: RoomView, s: RoomView, u: RoomView, now: nat, word: string,
                     before: seq<Message>, after: seq<Message>)
    requires RoundOver(m, s, now, word, [], [])
    requires m.sent == r.sent + before && m == r.(sent := m.sent)
    requires u == s.(sent := u.sent) && u.sent == s.sent + after
    ensures RoundOver(r, u, now, word, before, after)
  {
    var ms := RoundMessages(s);
    assert RoundMessages(u) == ms;
    assert (r.sent + before) + ([] + ms + []) + after == r.sent + (before + ms + after);
  }

  // ----- A message -----

  /** The text is the word, up to the case of letters. */
  predicate IsWord(text: string, word: string) {
    |text| == |word| && forall i :: 0 <= i < |text| ==> G.SameLetter(text[i], word[i])
  }

  /** The player on seat k gets ten points and one for every second left. */
  function Rewarded(r: RoomView, k: nat): RoomView
    requires k < |r.seats|
  {
    r.(seats := r.seats[k := r.seats[k].(hasGuessed := true, score := r.seats[k].score + 10 + r.timeLeft)])
  }

  /** A message is a guess while the game runs, from a player who is not drawing and
      has not guessed, and it counts if it is the word. Then he is rewarded, the round
      ends if nobody else is left to guess, and nothing is shown as chat. Any other
      message is shown as chat and changes nothing. */
  ghost predicate Said(r: RoomView, k: nat, text: string, now: nat, word: string, s: RoomView)
    requires k < |r.seats|
  {
    if r.phase == Playing && !r.seats[k].isDrawing && !r.seats[k].hasGuessed && IsWord(text, r.word) then
      if forall i :: 0 <= i < |r.seats| && i != k ==> r.seats[i].hasGuessed || r.seats[i].isDrawing
      then
        RoundOver(Rewarded(r, k), s, now, word, [Announce(ScoreUpdate)],
                  [Announce(GuessCorrect), Announce(ScoreUpdate)])
      else
        s == Rewarded(r, k).(sent := r.sent + [Announce(ScoreUpdate), Announce(GuessCorrect), Announce(ScoreUpdate)])
    else s == r.(sent := r.sent + [Announce(ChatBroadcast)])
  }

  lemma RightGuess(r: RoomView, t: nat, k: nat, text: string, now: nat, word: string)
    requires Inv(r, t) && r.phase == Playing && k < |r.seats|
    requires !r.seats[k].isDrawing && !r.seats[k].hasGuessed && IsWord(text, r.word)
    ensures Said(r, k, text, now, word, Chat(r, k, text, now, word))
  {
    G.LowerEqual(text, r.word);
    G.SettledButOne(r.seats, k, Points(r.timeLeft));
    var m := ScoreGuess(r, k);
    assert m == Rewarded(r, k).(sent := m.sent);
    var a, c := AcceptGuess(r, k, now, word), Chat(r, k, text, now, word);
    assert c == Send(Send(a, Announce(GuessCorrect)), Announce(ScoreUpdate));
    assert c.sent == a.sent + [Announce(GuessCorrect), Announce(ScoreUpdate)];
    if AllSettled(m.seats) {
      AwardKeepsInv(r, t, k);
      EndRoundOver(m, now, word);
      MoreMessages(Rewarded(r, k), m, a, c, now, word, [Announce(ScoreUpdate)],
                   [Announce(GuessCorrect), Announce(ScoreUpdate)]);
    }
  }

  lemma OtherMessage(r: RoomView, t: nat, k: nat, text: string, now: nat, word: string)
    requires Inv(r, t) && k < |r.seats|
    requires !(r.phase == Playing && !r.seats[k].isDrawing && !r.seats[k].hasGuessed && IsWord(text, r.word))
    ensures Said(r, k, text, now, word, Chat(r, k, text, now, word))
  {
    G.LowerEqual(text, r.word);
  }

  /** What a message does to the room of its author. */
  lemma SayEffect(r: RoomView, t: nat, p: Player, text: string, now: nat, word: string)
    requires Inv(r, t) && t <= now
    ensures var k := SeatOf(r.seats, p);
            var s := Step(r, t, Say(p, text, now, word));
            if k >= 0 then Said(r, k, text, now, word, s) else s == r
  {
    var k := SeatOf(r.seats, p);
    if k >= 0 {
      if r.phase == Playing && !r.seats[k].isDrawing && !r.seats[k].hasGuessed && IsWord(text, r.word) {
        RightGuess(r, t, k, text, now, word);
      } else {
        OtherMessage(r, t, k, text, now, word);
      }
    }
  }

  // ----- The start of a game -----

  /** The game of these seats begins with the first seat's turn, with all points at
      zero and a round planned for each. */
  ghost predicate Begun(r: RoomView, seats: seq<Seat>, s: RoomView, now: nat, word: string, after: seq<Message>) {
    && s.phase == Playing && s.round == 1 && s.total == |seats| == |s.seats| && s.drawer == 0 && !s.countdownActive
    && s.id == r.id && s.isPrivate == r.isPrivate && TurnFresh(s, now, word)
    && (forall i :: 0 <= i < |seats| ==>
          && s.seats[i].who == seats[i].who && s.seats[i].playerId == seats[i].playerId
          && s.seats[i].token == seats[i].token && s.seats[i].rtt == seats[i].rtt
          && s.seats[i].score == 0 && (s.seats[i].hasDrawn <==> i == 0))
    && s.sent == r.sent + ([Announce(GameStart), WordToDraw(s.seats[0].who, s.word)] + after)
  }

  lemma LaunchBegins(m: RoomView, now: nat, word: string)
    requires Startable(m)
    ensures Begun(m, m.seats, Launch(m, now, word), now, word, [])
  {
    ResetReady(m);
    FirstSeatDraws(Reset(m).seats);
    NextRound(Reset(m), now, word);
  }

  lemma FirstSeatDraws(seats: seq<Seat>)
    requires seats != [] && !seats[0].hasDrawn
    ensures Search(seats, -1, 0) == (true, 0)
  {
    StepMod(-1, |seats|);
  }

  // ----- Joining -----

  /** The player takes the next seat. The second one starts the countdown, and only
      the second; the fifth one starts the game. */
  ghost predicate Joined(r: RoomView, x: Seat, now: nat, word: string, s: RoomView) {
    var seats := r.seats + [x.(state := InRoom)];
    if |seats| == 5 then Begun(r, seats, s, now, word, [])
    else if |seats| == 2 && !r.countdownActive
    then s == r.(seats := seats, countdownActive := true, countdownStart := now)
    else s == r.(seats := seats)
  }

  lemma JoinEffect(r: RoomView, t: nat, x: Seat, now: nat, word: string)
    requires Inv(r, t) && t <= now && Enabled(r, Join(x, now, word))
    ensures Joined(r, x, now, word, Step(r, t, Join(x, now, word)))
  {
    var m := StartCountdown(AddPlayer(r, x).0, now);
    if |m.seats| == 5 {
      LaunchBegins(m, now, word);
    }
  }

  // ----- Ticks -----

  /** The timer passes over unoccupied and ended rooms. It counts a waiting room down,
      or starts its game after 15 s with two players; it shows the whole seconds left
      of a running round, or ends the round after 90 s. */
  ghost predicate Ticks(r: RoomView, now: nat, word: string, s: RoomView)
    requires r.phase == Playing ==> r.roundStart <= now
    requires r.phase == Waiting && r.countdownActive ==> r.countdownStart <= now
  {
    if r.seats == [] || r.phase == Ended then s == r
    else if r.phase == Waiting then
      if r.countdownActive && now - r.countdownStart >= 15000 && 2 <= |r.seats|
      then Begun(r, r.seats, s, now, word, [Announce(TimerUpdate(90))])
      else
        s == r.(sent := r.sent + CountdownMessages(r, now) + [Announce(TimerUpdate(r.timeLeft))])
    else if now - r.roundStart >= 90000
    then RoundOver(r, s, now, word, [], [Announce(TimerUpdate(if s.phase == Playing then 90 else 0))])
    else
      var left := 90 - (now - r.roundStart) / 1000;
      s == r.(timeLeft := left, sent := r.sent + [Announce(TimerUpdate(left))])
  }

  function CountdownMessages(r: RoomView, now: nat): seq<Message>
    requires r.countdownActive ==> r.countdownStart <= now
  {
    if r.countdownActive && now - r.countdownStart < 15000
    then [Announce(CountdownUpdate(15 - (now - r.countdownStart) / 1000))]
    else []
  }

  lemma WaitingTicks(r: RoomView, t: nat, now: nat, word: string)
    requires Inv(r, t) && t <= now && r.phase == Waiting && r.seats != []
    ensures Ticks(r, now, word, Tick(r, now, word))
  {
    if r.countdownActive && now - r.countdownStart >= 15000 && 2 <= |r.seats| {
      LaunchBegins(r, now, word);
      CountdownLaunches(r, t, now, word);
    } else {
      ConcatNothing(r.sent);
    }
  }

  lemma PlayingTicks(r: RoomView, t: nat, now: nat, word: string)
    requires Inv(r, t) && t <= now && r.phase == Playing
    ensures Ticks(r, now, word, Tick(r, now, word))
  {
    if now - r.roundStart >= 90000 {
      LateTick(r, t, now, word);
    }
  }

  lemma LateTick(r: RoomView, t: nat, now: nat, word: string)
    requires Inv(r, t) && t <= now && r.phase == Playing && now - r.roundStart >= 90000
    ensures var s := Tick(r, now, word);
            RoundOver(r, s, now, word, [], [Announce(TimerUpdate(if s.phase == Playing then 90 else 0))])
  {
    var m := r.(timeLeft := 0);
    var e, s := EndRound(m, now, word), Tick(r, now, word);
    EndRoundOver(m, now, word);
    NextRound(Send(m, Announce(RoundEnd)), now, word);
    ConcatNothing(m.sent);
    MoreMessages(m, m, e, s, now, word, [], [Announce(TimerUpdate(e.timeLeft))]);
  }

  lemma TickEffect(r: RoomView, t: nat, now: nat, word: string)
    requires Inv(r, t) && t <= now
    ensures Ticks(r, now, word, Step(r, t, TimerTick(now, word)))
  {
    if r.seats != [] {
      if r.phase == Waiting {
        WaitingTicks(r, t, now, word);
      } else if r.phase == Playing {
        PlayingTicks(r, t, now, word);
      }
    }
  }

  // ----- Departures -----

  /** The seat closes. A running game of two is over; in a larger one the rounds are
      planned anew, and the round is over if the leaver carries the drawing flag.
      Nothing else changes. */
  ghost predicate Left(r: RoomView, k: nat, now: nat, word: string, s: RoomView)
    requires k < |r.seats| && (r.phase == Playing ==> 0 <= r.drawer < |r.seats|)
  {
    var m := r.(seats := r.seats[..k] + r.seats[k + 1..]);
    if r.phase != Playing then s == m
    else if |r.seats| == 2 then s == m.(phase := Ended, sent := r.sent + [Announce(GameEnd)])
    else
      && s.total == r.round + Undrawn(m.seats) && 0 <= s.drawer < |s.seats|
      && (if r.seats[k].isDrawing
          then RoundOver(m.(total := s.total, drawer := s.drawer), s, now, word, [], [])
          else s == m.(total := s.total, drawer := s.drawer) && s.seats[s.drawer] == r.seats[r.drawer])
  }

  lemma LeaveEffect(r: RoomView, t: nat, p: Player, now: nat, word: string)
    requires Inv(r, t) && t <= now
    ensures var k, s := SeatOf(r.seats, p), Step(r, t, Leave(p, now, word));
            if k >= 0 then Left(r, k, now, word, s) else s == r
  {
    var k := SeatOf(r.seats, p);
    if k >= 0 && r.phase == Playing && 3 <= |r.seats| {
      if r.seats[k].isDrawing {
        DrawingLeaves(r, t, k, now, word);
      } else {
        QuietLeaves(r, t, k, now, word);
      }
    }
  }

  lemma DrawingLeaves(r: RoomView, t: nat, k: nat, now: nat, word: string)
    requires Inv(r, t) && r.phase == Playing && 3 <= |r.seats| && k < |r.seats| && r.seats[k].isDrawing
    ensures Left(r, k, now, word, RemoveSeat(r, k, now, word))
  {
    VacateReady(r, t, k);
    EndRoundOver(Vacate(r, k), now, word);
  }

  lemma QuietLeaves(r: RoomView, t: nat, k: nat, now: nat, word: string)
    requires Inv(r, t) && r.phase == Playing && 3 <= |r.seats| && k < |r.seats| && !r.seats[k].isDrawing
    ensures Left(r, k, now, word, RemoveSeat(r, k, now, word))
  {
    History.QuietLeave(r, t, k);
  }

  // ----- Returns and registrations -----

  /** A returner takes the next seat as he is, if there is one. */
  lemma ReturnEffect(r: RoomView, t: nat, x: Seat, now: nat)
    requires Inv(r, t) && t <= now && Enabled(r, Rejoin(x, now))
    ensures Step(r, t, Rejoin(x, now)) == if |r.seats| < 5 then r.(seats := r.seats + [x]) else r
  {
  }

  /** A registration gives the player on seat k a new identity and token and takes his
      points; the room, his turn and what he has guessed stay. */
  lemma RegisterEffect(r: RoomView, t: nat, p: Player, id: nat, token: string, now: nat, k: nat)
    requires Inv(r, t) && t <= now && k < |r.seats| && r.seats[k].who == p
    ensures var x := r.seats[k].(playerId := id, state := Lobby, score := 0, token := token);
            Step(r, t, Register(p, id, token, now)) == r.(seats := r.seats[k := x])
  {
    assert SeatOf(r.seats, p) == k;
  }
}
