/** The words on display fit the buffers of the guess comparison, over whole runs
    of the server, as long as the words drawn from the list do. */
module ServerWords {
  import opened Protocol
  import opened RoomSpec
  import opened MatchSpec
  import opened LedgerSpec
  import opened ServerSpec
  import ServerRuns

  // ----- One room -----

  /** A step shows a new word, cut to its buffer, or leaves the old one. */
  ghost predicate Shows(r: RoomView, s: RoomView, word: string) {
    s.word == r.word || s.word == Clip(word)
  }

  lemma NextRoundShows(r: RoomView, now: nat, word: string)
    requires -1 <= r.drawer
    ensures Shows(r, StartNextRound(r, now, word), word)
  {
  }

  lemma EndRoundShows(r: RoomView, now: nat, word: string)
    requires -1 <= r.drawer
    ensures Shows(r, EndRound(r, now, word), word)
  {
    NextRoundShows(Send(r, Announce(RoundEnd)), now, word);
  }

  lemma LaunchShows(r: RoomView, now: nat, word: string)
    requires -1 <= r.drawer
    ensures Shows(r, Launch(r, now, word), word)
  {
    NextRoundShows(r.(countdownActive := false, phase := Playing, round := 0, total := |r.seats|,
                      seats := ResetSeats(r.seats)), now, word);
  }

  lemma AdmitShows(r: RoomView, s: Seat, now: nat, word: string)
    requires -1 <= r.drawer
    ensures Shows(r, Admit(r, s, now, word), word)
  {
    LaunchShows(StartCountdown(AddPlayer(r, s).0, now), now, word);
  }

  lemma ChatShows(r: RoomView, k: nat, text: string, now: nat, word: string)
    requires k < |r.seats| && (r.phase == Playing ==> 0 <= r.drawer && 0 <= r.timeLeft)
    ensures Shows(r, Chat(r, k, text, now, word), word)
  {
    if r.phase == Playing {
      EndRoundShows(ScoreGuess(r, k), now, word);
    }
  }

  lemma TimerShows(r: RoomView, now: nat, word: string)
    requires r.phase == Playing ==> 0 <= r.drawer && r.roundStart <= now
    ensures Shows(r, UpdateTimer(r, now, word), word)
  {
    if r.phase == Playing {
      EndRoundShows(r.(timeLeft := 0), now, word);
    }
  }

  lemma CountdownShows(r: RoomView, now: nat, word: string)
    requires r.phase == Waiting && r.countdownActive ==> -1 <= r.drawer && r.countdownStart <= now
    ensures Shows(r, CheckCountdown(r, now, word), word)
  {
    if r.phase == Waiting && r.countdownActive {
      LaunchShows(r, now, word);
    }
  }

  lemma TickShows(r: RoomView, now: nat, word: string)
    requires r.seats != [] ==> TickReady(r, now)
    ensures Shows(r, Ticked(r, now, word), word)
  {
    if r.seats != [] {
      CountdownShows(r, now, word);
      TimerShows(CheckCountdown(r, now, word), now, word);
    }
  }

  lemma LeaveShows(r: RoomView, p: Player, now: nat, word: string)
    requires r.phase == Playing ==> 0 <= r.drawer
    ensures Shows(r, RemovePlayer(r, p, now, word), word)
  {
    var k := SeatOf(r.seats, p);
    if k >= 0 && Vacate(r, k).drawer >= -1 {
      EndRoundShows(Vacate(r, k), now, word);
    }
  }

  // ----- The server -----

  /** A word that fits its buffer with room for the terminator. */
  predicate Short(word: string) {
    |word| < MAX_WORD_LEN - 1 && '\0' !in word
  }

  /** The words the step may draw are short. */
  predicate Supplied(e: Event) {
    match e
    case JoinRequest(_, _, word) => Short(word)
    case ChatMessage(_, _, _, word) => Short(word)
    case Disconnect(_, _, word) => Short(word)
    case TimerRound(_, words) => forall i :: 0 <= i < |words| ==> Short(words[i])
    case _ => true
  }

  lemma JoinFits(l: LobbyView, s: Seat, now: nat, word: string, i: nat)
    requires Open(l) && i < |l.rooms| && Short(l.rooms[i].word) && Short(word)
    ensures Short(JoinMatchmaking(l, s, now, word).0.rooms[i].word)
  {
    if Eligible(l.rooms[i]) {
      AdmitShows(l.rooms[i], s, now, word);
    }
    AdmitShows(FreshRoom(l.nextId, false, now), s, now, word);
  }

  lemma ChatFits(l: LobbyView, p: Player, text: string, now: nat, word: string, i: nat)
    requires AllLeavable(l.rooms) && AllScorable(l.rooms) && i < |l.rooms| && Short(l.rooms[i].word) && Short(word)
    ensures Short(ChatStep(l, p, text, now, word).rooms[i].word)
  {
    if RoomOf(l.rooms, p, |l.rooms|) == i {
      assert Leavable(l.rooms[i]);
      ChatShows(l.rooms[i], SeatOf(l.rooms[i].seats, p), text, now, word);
    }
  }

  lemma LeaveFits(l: LobbyView, p: Player, now: nat, word: string, i: nat)
    requires AllLeavable(l.rooms) && i < |l.rooms| && Short(l.rooms[i].word) && Short(word)
    ensures Short(LeaveRoom(l, p, now, word).rooms[i].word)
  {
    if RoomOf(l.rooms, p, |l.rooms|) == i {
      assert Leavable(l.rooms[i]);
      LeaveShows(l.rooms[i], p, now, word);
    }
  }

  lemma StepFits(v: ServerView, t: nat, e: Event, i: nat)
    requires Inv(v, t) && t <= e.now && Enabled(v, e) && i < MAX_ROOMS
    requires Short(v.lobby.rooms[i].word) && Supplied(e)
    ensures |Step(v, t, e).lobby.rooms| == MAX_ROOMS && Short(Step(v, t, e).lobby.rooms[i].word)
  {
    InvFacts(v, t, e.now);
    match e
    case JoinRequest(s, now, word) => JoinFits(v.lobby, s, now, word, i);
    case ChatMessage(p, text, now, word) => ChatFits(v.lobby, p, text, now, word, i);
    case Disconnect(s, now, word) => LeaveFits(v.lobby, s.who, now, word, i);
    case TimerRound(now, words) => TickShows(v.lobby.rooms[i], now, words[i]);
    case _ =>
  }

  lemma StepKeepsWordsFit(v: ServerView, t: nat, e: Event)
    requires Inv(v, t) && t <= e.now && Enabled(v, e) && WordsFit(v.lobby.rooms) && Supplied(e)
    ensures WordsFit(Step(v, t, e).lobby.rooms)
  {
    StepFits(v, t, e, 0);
    forall i | 0 <= i < MAX_ROOMS ensures Short(Step(v, t, e).lobby.rooms[i].word) {
      StepFits(v, t, e, i);
    }
  }

  /** In every run of the server from its start, with short words in the list, every
      word on display fits: what the comparison of a guess asks for. */
  lemma RunKeepsWordsFit(t: nat, es: seq<Event>) returns (v: ServerView)
    requires Inv(Start(), t) && ServerRuns.Playable(Start(), t, es)
    requires forall j :: 0 <= j < |es| ==> Supplied(es[j])
    ensures v == ServerRuns.Run(Start(), t, es) && WordsFit(v.lobby.rooms)
  {
    RunFits(Start(), t, es);
    v := ServerRuns.Run(Start(), t, es);
  }

  lemma {:induction false} RunFits(v: ServerView, t: nat, es: seq<Event>)
    requires Inv(v, t) && ServerRuns.Playable(v, t, es) && WordsFit(v.lobby.rooms)
    requires forall j :: 0 <= j < |es| ==> Supplied(es[j])
    ensures WordsFit(ServerRuns.Run(v, t, es).lobby.rooms)
    decreases |es|
  {
    if es != [] {
      ServerRuns.StepKeepsInv(v, t, es[0]);
      StepKeepsWordsFit(v, t, es[0]);
      RunFits(Step(v, t, es[0]), es[0].now, es[1..]);
    }
  }
}
