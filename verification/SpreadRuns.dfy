/** The latency bound over whole runs of the server. */
module SpreadRuns {
  import opened Protocol
  import opened RoomSpec
  import opened MatchSpec
  import opened LedgerSpec
  import opened ServerSpec
  import opened LatencySpread
  import ServerRuns

  // ----- One slot, from its opening on -----

  /** Nobody leaves room i in this step or returns to it, and a newcomer's
      round-trip time fits an int. Other rooms may see anything. */
  predicate StaysTogether(v: ServerView, e: Event, i: nat)
    requires |v.lobby.rooms| == MAX_ROOMS && Settled(v.table, e.now)
  {
    match e
    case JoinRequest(s, _, _) => ServerRuns.Arrival(v, e) == i ==> s.rtt < 0x8000_0000
    case CreateRequest(s, _) => ServerRuns.Arrival(v, e) == i ==> s.rtt < 0x8000_0000
    case Disconnect(s, _, _) => RoomOf(v.lobby.rooms, s.who, MAX_ROOMS) != i
    case Reconnect(_, _, _) => ServerRuns.Arrival(v, e) != i
    case _ => true
  }

  ghost predicate Undeparted(v: ServerView, t: nat, es: seq<Event>, i: nat)
    requires Inv(v, t) && ServerRuns.Playable(v, t, es)
    decreases |es|
  {
    es != [] ==>
      && (InvFacts(v, t, es[0].now); StaysTogether(v, es[0], i))
      && (ServerRuns.StepKeepsInv(v, t, es[0]); Undeparted(Step(v, t, es[0]), es[0].now, es[1..], i))
  }

  ghost predicate Fine(seats: seq<Seat>) {
    Matched(seats) && IntSized(seats)
  }

  lemma SameFine(a: seq<Seat>, b: seq<Seat>)
    requires SameRtts(a, b) && Fine(a)
    ensures Fine(b)
  {
    SameMatched(a, b);
  }

  lemma JoinFine(l: LobbyView, s: Seat, now: nat, word: string, i: nat)
    requires Open(l) && i < |l.rooms| && Fine(l.rooms[i].seats) && (Target(l, s.rtt) == i ==> s.rtt < 0x8000_0000)
    ensures Fine(JoinMatchmaking(l, s, now, word).0.rooms[i].seats)
  {
    JoinKeepsMatched(l, s, now, word, i);
    BestRoomIsNearest(l.rooms, s.rtt, BestRoom(l.rooms, s.rtt, |l.rooms|).0);
    if Target(l, s.rtt) == i {
      AdmitRtts(if Eligible(l.rooms[i]) then l.rooms[i] else FreshRoom(l.nextId, false, now), s, now, word);
    }
  }

  lemma CreateFine(l: LobbyView, s: Seat, now: nat, i: nat)
    requires i < |l.rooms| && Fine(l.rooms[i].seats)
    requires FirstFree(l.rooms, |l.rooms|) == i ==> s.rtt < 0x8000_0000
    ensures Fine(CreateRoom(l, s, now).0.rooms[i].seats)
  {
  }

  lemma EndRoundRtts(r: RoomView, now: nat, word: string)
    requires -1 <= r.drawer
    ensures SameRtts(r.seats, EndRound(r, now, word).seats)
  {
    NextRoundRtts(Send(r, Announce(RoundEnd)), now, word);
  }

  lemma ChatRtts(r: RoomView, k: nat, text: string, now: nat, word: string)
    requires k < |r.seats| && (r.phase == Playing ==> 0 <= r.drawer && 0 <= r.timeLeft)
    ensures SameRtts(r.seats, Chat(r, k, text, now, word).seats)
  {
    if r.phase == Playing {
      EndRoundRtts(ScoreGuess(r, k), now, word);
    }
  }

  lemma ChatFine(l: LobbyView, p: Player, text: string, now: nat, word: string, i: nat)
    requires AllLeavable(l.rooms) && AllScorable(l.rooms) && i < |l.rooms| && Fine(l.rooms[i].seats)
    ensures Fine(ChatStep(l, p, text, now, word).rooms[i].seats)
  {
    if RoomOf(l.rooms, p, |l.rooms|) == i {
      assert Leavable(l.rooms[i]);
      var k := SeatOf(l.rooms[i].seats, p);
      ChatRtts(l.rooms[i], k, text, now, word);
      SameFine(l.rooms[i].seats, Chat(l.rooms[i], k, text, now, word).seats);
    }
  }

  lemma RegisterFine(l: LobbyView, p: Player, id: nat, token: string, i: nat)
    requires i < |l.rooms| && Fine(l.rooms[i].seats)
    ensures Fine(RegisterPlayer(l, p, id, token).rooms[i].seats)
  {
    SameFine(l.rooms[i].seats, RegisterPlayer(l, p, id, token).rooms[i].seats);
  }

  lemma TickFine(r: RoomView, now: nat, word: string)
    requires (r.seats != [] ==> TickReady(r, now)) && Fine(r.seats)
    ensures Fine(Ticked(r, now, word).seats)
  {
    if r.seats != [] {
      CountdownRtts(r, now, word);
      TimerRtts(CheckCountdown(r, now, word), now, word);
      SameFine(r.seats, Ticked(r, now, word).seats);
    }
  }

  lemma StepFine(v: ServerView, t: nat, e: Event, i: nat)
    requires Inv(v, t) && t <= e.now && Enabled(v, e) && Settled(v.table, e.now) && i < MAX_ROOMS
    requires StaysTogether(v, e, i) && Fine(v.lobby.rooms[i].seats)
    ensures |Step(v, t, e).lobby.rooms| == MAX_ROOMS
    ensures Fine(Step(v, t, e).lobby.rooms[i].seats)
  {
    InvFacts(v, t, e.now);
    match e
    case JoinRequest(s, now, word) => JoinFine(v.lobby, s, now, word, i);
    case CreateRequest(s, now) => CreateFine(v.lobby, s, now, i);
    case ChatMessage(p, text, now, word) => ChatFine(v.lobby, p, text, now, word, i);
    case RegisterRequest(p, id, token, _) => RegisterFine(v.lobby, p, id, token, i);
    case TimerRound(now, words) => TickFine(v.lobby.rooms[i], now, words[i]);
    case Disconnect(_, _, _) =>
    case Reconnect(_, _, _) =>
  }

  lemma {:induction false} RunFine(v: ServerView, t: nat, es: seq<Event>, i: nat)
    requires Inv(v, t) && ServerRuns.Playable(v, t, es) && i < MAX_ROOMS
    requires Fine(v.lobby.rooms[i].seats) && Undeparted(v, t, es, i)
    ensures |ServerRuns.Run(v, t, es).lobby.rooms| == MAX_ROOMS
    ensures Fine(ServerRuns.Run(v, t, es).lobby.rooms[i].seats)
    decreases |es|
  {
    if es != [] {
      InvFacts(v, t, es[0].now);
      StepFine(v, t, es[0], i);
      ServerRuns.StepKeepsInv(v, t, es[0]);
      RunFine(Step(v, t, es[0]), es[0].now, es[1..], i);
    }
  }

  /** In every run of the server, from a moment at which slot i is unused, any two
      players who share the room opened there are within 103 ms of each other, as
      long as nobody has left that room or returned to it; whatever is played in
      it, and whatever happens in other rooms. */
  lemma SpreadOverRuns(v: ServerView, t: nat, es: seq<Event>, i: nat, a: nat, b: nat)
    requires Inv(v, t) && ServerRuns.Playable(v, t, es) && i < MAX_ROOMS
    requires v.lobby.rooms[i].seats == [] && Undeparted(v, t, es, i)
    requires |ServerRuns.Run(v, t, es).lobby.rooms| == MAX_ROOMS
    requires a < b < |ServerRuns.Run(v, t, es).lobby.rooms[i].seats|
    ensures var seats := ServerRuns.Run(v, t, es).lobby.rooms[i].seats;
            Near(seats[a].rtt, seats[b].rtt, SpreadOf(b)) && SpreadOf(b) <= 103
  {
    RunFine(v, t, es, i);
    ServerRuns.RunKeepsInv(v, t, es);
    var w := ServerRuns.Run(v, t, es);
    assert RoomOk(w.lobby.rooms[i], ServerRuns.EndTime(t, es), w.lobby.nextId);
    SpreadBound(w.lobby.rooms[i].seats, a, b);
  }

  // ----- The bounds are met -----

  /** Round-trip times of five arrivals. */
  function Rtt(k: nat): nat {
    if k == 0 then 100 else if k == 1 then 149 else if k == 2 then 75 else if k == 3 then 59 else 46
  }

  function JoinOf(p: Player, k: nat): Event {
    JoinRequest(Seat(p, k, "", 0, Lobby, Rtt(k), false, false, false), 0, "")
  }

  predicate AllDifferent(ps: seq<Player>) {
    forall i, j :: 0 <= i < j < |ps| ==> ps[i] != ps[j]
  }

  /** The first k players sit in the first room, which is the only one. */
  ghost predicate Together(v: ServerView, ps: seq<Player>, k: nat)
    requires k <= |ps|
  {
    && |v.lobby.rooms| == MAX_ROOMS
    && (forall j :: 1 <= j < MAX_ROOMS ==> v.lobby.rooms[j].seats == [])
    && |v.lobby.rooms[0].seats| == k
    && forall j :: 0 <= j < k ==> v.lobby.rooms[0].seats[j].who == ps[j] && v.lobby.rooms[0].seats[j].rtt == Rtt(j)
  }

  ghost predicate Joinable(v: ServerView)
    requires v.lobby.rooms != []
  {
    var r := v.lobby.rooms[0];
    r.phase == Waiting && !r.isPrivate && r.round == 0 && r.drawer == -1
  }

  lemma TotalOf(seats: seq<Seat>)
    requires 1 <= |seats| <= 4 && forall j :: 0 <= j < |seats| ==> seats[j].rtt == Rtt(j)
    ensures TotalRtt(seats) ==
            if |seats| == 1 then 100 else if |seats| == 2 then 249 else if |seats| == 3 then 324 else 383
  {
    if |seats| > 1 {
      TotalOf(seats[..|seats| - 1]);
    } else {
      assert seats[..0] == [];
    }
  }

  /** The next player is within the tolerance. */
  lemma NextFits(seats: seq<Seat>)
    requires 1 <= |seats| <= 4 && forall j :: 0 <= j < |seats| ==> seats[j].rtt == Rtt(j)
    ensures LatencyDiff(Rtt(|seats|), seats) < LATENCY_TOLERANCE
  {
    TotalOf(seats);
    LatencyDiffExact(Rtt(|seats|), seats);
  }

  lemma Newcomer(v: ServerView, ps: seq<Player>, k: nat)
    requires k < |ps| && AllDifferent(ps) && Together(v, ps, k)
    ensures RoomOf(v.lobby.rooms, ps[k], MAX_ROOMS) == -1
  {
    assert SeatOf(v.lobby.rooms[0].seats, ps[k]) == -1;
  }

  lemma FindsRoom(v: ServerView, ps: seq<Player>, k: nat)
    requires 1 <= k <= 4 && k < |ps| && Together(v, ps, k) && Joinable(v)
    ensures Target(v.lobby, Rtt(k)) == 0
  {
    NextFits(v.lobby.rooms[0].seats);
    assert Nearest(v.lobby.rooms, Rtt(k), 0);
    BestRoomIsNearest(v.lobby.rooms, Rtt(k), 0);
  }

  lemma JoinsThere(v: ServerView, ps: seq<Player>, k: nat)
    requires Inv(v, 0) && 1 <= k <= 4 && |ps| == 5 && Together(v, ps, k) && Joinable(v)
    requires Enabled(v, JoinOf(ps[k], k))
    ensures Step(v, 0, JoinOf(ps[k], k)).lobby.rooms
            == v.lobby.rooms[0 := Admit(v.lobby.rooms[0], JoinOf(ps[k], k).seat, 0, "")]
  {
    FindsRoom(v, ps, k);
    InvFacts(v, 0, 0);
    BestRoomIsNearest(v.lobby.rooms, Rtt(k), BestRoom(v.lobby.rooms, Rtt(k), MAX_ROOMS).0);
  }

  lemma NextJoins(v: ServerView, ps: seq<Player>, k: nat)
    requires Inv(v, 0) && 1 <= k <= 4 && |ps| == 5 && AllDifferent(ps) && Together(v, ps, k) && Joinable(v)
    ensures Enabled(v, JoinOf(ps[k], k))
    ensures var w := Step(v, 0, JoinOf(ps[k], k));
            Together(w, ps, k + 1) && (k < 4 ==> Joinable(w))
  {
    Newcomer(v, ps, k);
    JoinsThere(v, ps, k);
    SeatedNext(v.lobby.rooms[0], JoinOf(ps[k], k).seat);
  }

  lemma SeatedNext(r: RoomView, s: Seat)
    requires r.phase == Waiting && r.drawer == -1 && r.round == 0 && 1 <= |r.seats| < MAX_PLAYERS
    ensures var a := Admit(r, s, 0, "");
            && |a.seats| == |r.seats| + 1
            && (forall j :: 0 <= j < |r.seats| ==> a.seats[j].who == r.seats[j].who && a.seats[j].rtt == r.seats[j].rtt)
            && a.seats[|r.seats|].who == s.who && a.seats[|r.seats|].rtt == s.rtt
            && (|r.seats| < 4 ==> a == StartCountdown(AddPlayer(r, s).0, 0))
  {
  }

  /** A server without rooms. */
  ghost predicate Empty(v: ServerView) {
    |v.lobby.rooms| == MAX_ROOMS && forall j :: 0 <= j < MAX_ROOMS ==> v.lobby.rooms[j].seats == []
  }

  lemma StartIsEmpty()
    ensures Inv(Start(), 0) && Empty(Start())
  {
    ServerRuns.StartInv(0);
  }

  lemma OpensFirst(v: ServerView)
    requires Empty(v)
    ensures Target(v.lobby, Rtt(0)) == 0
    ensures BestRoom(v.lobby.rooms, Rtt(0), MAX_ROOMS).0 == -1 && FirstFree(v.lobby.rooms, MAX_ROOMS) == 0
  {
    BestRoomIsNearest(v.lobby.rooms, Rtt(0), -1);
    assert v.lobby.rooms[0].seats == [];
  }

  lemma FirstJoins(v: ServerView, ps: seq<Player>)
    requires |ps| == 5 && AllDifferent(ps) && Inv(v, 0) && Empty(v)
    ensures Enabled(v, JoinOf(ps[0], 0))
    ensures var w := Step(v, 0, JoinOf(ps[0], 0));
            Together(w, ps, 1) && Joinable(w)
  {
    Newcomer(v, ps, 0);
    InvFacts(v, 0, 0);
    OpensFirst(v);
  }

  /** The joins of the first k players, one after the other. */
  function Joins(ps: seq<Player>, k: nat): (es: seq<Event>)
    requires k <= |ps|
    ensures |es| == k && forall j :: 0 <= j < k ==> es[j] == JoinOf(ps[j], j)
  {
    seq(k, j requires 0 <= j < k => JoinOf(ps[j], j))
  }

  /** The first k joins can happen, and seat their players. */
  ghost predicate Seated(v: ServerView, ps: seq<Player>, k: nat)
    requires Inv(v, 0) && k <= |ps|
  {
    && ServerRuns.Playable(v, 0, Joins(ps, k))
    && (var w := ServerRuns.Run(v, 0, Joins(ps, k));
        Inv(w, 0) && Together(w, ps, k) && (k < 5 ==> Joinable(w)))
  }

  lemma EndOfJoins(ps: seq<Player>, k: nat)
    requires k <= |ps|
    ensures ServerRuns.EndTime(0, Joins(ps, k)) == 0
  {
  }

  lemma SeatsFirst(v: ServerView, ps: seq<Player>)
    requires Inv(v, 0) && Empty(v) && |ps| == 5 && AllDifferent(ps)
    ensures Seated(v, ps, 1)
  {
    FirstJoins(v, ps);
    ServerRuns.OneMore(v, 0, [], JoinOf(ps[0], 0));
    ServerRuns.StepKeepsInv(v, 0, JoinOf(ps[0], 0));
    assert Joins(ps, 1) == [] + [JoinOf(ps[0], 0)];
  }

  lemma JoinsGrow(ps: seq<Player>, k: nat)
    requires k < |ps|
    ensures Joins(ps, k + 1) == Joins(ps, k) + [JoinOf(ps[k], k)]
  {
  }

  lemma SeatsNext(v: ServerView, ps: seq<Player>, k: nat)
    requires Inv(v, 0) && |ps| == 5 && AllDifferent(ps) && 1 <= k < 5 && Seated(v, ps, k)
    ensures Seated(v, ps, k + 1)
  {
    var es, e := Joins(ps, k), JoinOf(ps[k], k);
    var w := ServerRuns.Run(v, 0, es);
    EndOfJoins(ps, k);
    NextJoins(w, ps, k);
    ServerRuns.OneMore(v, 0, es, e);
    ServerRuns.StepKeepsInv(w, 0, e);
    JoinsGrow(ps, k);
  }

  function Distance(a: int, b: int): int {
    if a < b then b - a else a - b
  }

  lemma SeatsAll(v: ServerView, ps: seq<Player>)
    requires Inv(v, 0) && Empty(v) && |ps| == 5 && AllDifferent(ps)
    ensures Seated(v, ps, 5)
  {
    SeatsFirst(v, ps);
    SeatsNext(v, ps, 1);
    SeatsNext(v, ps, 2);
    SeatsNext(v, ps, 3);
    SeatsNext(v, ps, 4);
  }

  /** Every seat after the first meets its bound against some earlier one. */
  ghost predicate BoundsMet(seats: seq<Seat>) {
    forall k :: 1 <= k < |seats| ==>
      exists i :: 0 <= i < k && Distance(seats[i].rtt, seats[k].rtt) == SpreadOf(k)
  }

  lemma RttsMeetBounds(seats: seq<Seat>)
    requires |seats| == 5 && forall j :: 0 <= j < 5 ==> seats[j].rtt == Rtt(j)
    ensures BoundsMet(seats)
  {
    assert Distance(seats[0].rtt, seats[1].rtt) == 49 && Distance(seats[1].rtt, seats[2].rtt) == 74;
    assert Distance(seats[1].rtt, seats[3].rtt) == 90 && Distance(seats[1].rtt, seats[4].rtt) == 103;
  }

  /** Five players with these round-trip times who join a server without rooms, one
      after the other, share a room, and the bounds 49, 74, 90 and 103 are all met. */
  lemma BoundsReached(v: ServerView, ps: seq<Player>)
    requires Inv(v, 0) && Empty(v) && |ps| == 5 && AllDifferent(ps)
    ensures ServerRuns.Playable(v, 0, Joins(ps, 5))
    ensures var w := ServerRuns.Run(v, 0, Joins(ps, 5));
            Together(w, ps, 5) && BoundsMet(w.lobby.rooms[0].seats)
  {
    SeatsAll(v, ps);
    RttsMeetBounds(ServerRuns.Run(v, 0, Joins(ps, 5)).lobby.rooms[0].seats);
  }

  /** So they are met in a run of the server from its start. */
  lemma SpreadReached(ps: seq<Player>) returns (v: ServerView)
    requires |ps| == 5 && AllDifferent(ps)
    ensures v == Start() && Inv(v, 0) && ServerRuns.Playable(v, 0, Joins(ps, 5))
    ensures var w := ServerRuns.Run(v, 0, Joins(ps, 5));
            Together(w, ps, 5) && BoundsMet(w.lobby.rooms[0].seats)
  {
    v := Start();
    StartIsEmpty();
    BoundsReached(v, ps);
  }
}
