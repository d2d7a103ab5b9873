/** A run of the server in which one player is saved twice under one token: a
    disconnect request saves his state and keeps the connection, so he can join
    another room and be cut off there too. */
module TwoSaves {
  import opened Protocol
  import opened RoomSpec
  import opened MatchSpec
  import opened LedgerSpec
  import opened ServerSpec
  import opened ServerCapacity
  import opened ServerComeback
  import R = RoomInvariant
  import Runs
  import ServerRuns

  /** The events es lead from the start of the server to v at time t. */
  ghost predicate Reaches(es: seq<Event>, v: ServerView, t: nat) {
    && Inv(Start(), 0) && ServerRuns.Playable(Start(), 0, es)
    && ServerRuns.Run(Start(), 0, es) == v && ServerRuns.EndTime(0, es) == t
    && Inv(v, t) && Roomy(v)
  }

  lemma Extend(es: seq<Event>, v: ServerView, t: nat, e: Event)
    requires Reaches(es, v, t) && t <= e.now && Enabled(v, e)
    ensures Reaches(es + [e], Step(v, t, e), e.now)
  {
    ServerRuns.OneMore(Start(), 0, es, e);
    ServerRuns.StepKeepsInv(v, t, e);
    StepKeepsRoomy(v, t, e);
  }

  function New(p: Player, id: nat, token: string): Seat {
    Seat(p, id, token, 0, Lobby, 0, false, false, false)
  }

  /** Slot i is unused or in use; the slots below it hold ended games with one player
      left in each, who is not p, and those above it are unused. */
  ghost predicate Around(v: ServerView, i: nat, p: Player) {
    && |v.lobby.rooms| == MAX_ROOMS && i < MAX_ROOMS
    && forall j :: 0 <= j < MAX_ROOMS && j != i ==>
         if j < i
         then v.lobby.rooms[j].phase == Ended && v.lobby.rooms[j].id == j + 1 &&
              |v.lobby.rooms[j].seats| == 1 && v.lobby.rooms[j].seats[0].who != p
         else v.lobby.rooms[j].seats == []
  }

  /** The first i entries are in use, one for each of these games, which followed each
      other every 15 s; the last of them ended at time t. */
  ghost predicate SavedBefore(table: seq<Entry>, t: nat, i: nat, token: string) {
    && |table| == MAX_DISCONNECTED && i < MAX_DISCONNECTED
    && (forall j :: i <= j < MAX_DISCONNECTED ==> !table[j].valid)
    && forall j :: 0 <= j < i ==>
         && table[j].valid && table[j].token == token && table[j].roomId == j + 1
         && table[j].time + 15000 * (i - 1 - j) == t
  }

  /** After i games of p. */
  ghost predicate After(v: ServerView, t: nat, i: nat, p: Player, token: string) {
    && Around(v, i, p) && v.lobby.rooms[i].seats == [] && v.lobby.nextId == i + 1
    && SavedBefore(v.table, t, i, token)
  }

  /** Only room i of w differs from v. */
  ghost predicate OnlyRoom(v: ServerView, w: ServerView, i: nat) {
    && i < |v.lobby.rooms| == |w.lobby.rooms|
    && forall j :: 0 <= j < |v.lobby.rooms| && j != i ==> w.lobby.rooms[j] == v.lobby.rooms[j]
  }

  ghost predicate Absent(v: ServerView, x: Player) {
    forall j :: 0 <= j < |v.lobby.rooms| ==> SeatOf(v.lobby.rooms[j].seats, x) == -1
  }

  // ----- A game of two -----

  /** A player waits in slot i, in a room that others may join. */
  ghost predicate Waits(r: RoomView, s: Seat, id: nat) {
    && r.phase == Waiting && !r.isPrivate && r.round == 0 && r.drawer == -1 && !r.countdownActive && r.id == id
    && r.seats == [s.(state := InRoom)]
  }

  /** A player without company opens the next slot. */
  lemma Opens(v: ServerView, t: nat, i: nat, s: Seat)
    requires Inv(v, t) && After(v, t, i, s.who, s.token)
    ensures Enabled(v, JoinRequest(s, t, ""))
    ensures var w := Step(v, t, JoinRequest(s, t, ""));
            && w.table == v.table && w.lobby.nextId == v.lobby.nextId + 1
            && OnlyRoom(v, w, i) && Waits(w.lobby.rooms[i], s, i + 1)
  {
    InvFacts(v, t, t);
    AloneInRoom(i + 1, t, s);
    BestRoomIsNearest(v.lobby.rooms, s.rtt, -1);
    assert v.lobby.rooms[i].seats == [];
  }

  lemma SameLatency(s: Seat)
    requires s.rtt == 0
    ensures LatencyDiff(0, [s]) == 0
  {
    assert [s][..|[s]| - 1] == [];
    assert TotalRtt([]) == 0 && TotalRtt([s]) == s.rtt;
    assert MeanRtt([s]) == 0;
  }

  lemma SecondJoins(v: ServerView, t: nat, i: nat, s: Seat, x: Seat)
    requires Inv(v, t) && Around(v, i, s.who) && Waits(v.lobby.rooms[i], s, i + 1)
    requires s.rtt == x.rtt == 0 && Absent(v, x.who)
    ensures Enabled(v, JoinRequest(x, t, ""))
    ensures var w := Step(v, t, JoinRequest(x, t, ""));
            && w.table == v.table && w.lobby.nextId == v.lobby.nextId
            && w.lobby.rooms == v.lobby.rooms[i := Admit(v.lobby.rooms[i], x, t, "")]
  {
    InvFacts(v, t, t);
    SameLatency(s.(state := InRoom));
    assert Nearest(v.lobby.rooms, x.rtt, i);
    BestRoomIsNearest(v.lobby.rooms, x.rtt, i);
  }

  /** The two of them, before and during their game. */
  ghost predicate Pair(r: RoomView, s: Seat, x: Seat, id: nat) {
    && |r.seats| == 2 && r.id == id
    && r.seats[0].who == s.who && r.seats[0].token == s.token && r.seats[1].who == x.who
  }

  ghost predicate CountsDown(r: RoomView, t: nat) {
    r.phase == Waiting && r.countdownActive && r.countdownStart == t && r.drawer == -1 && r.round == 0
  }

  function Words(): seq<string> {
    seq(MAX_ROOMS, _ => "cat")
  }

  lemma PairStarts(r: RoomView, t: nat, s: Seat, x: Seat, id: nat)
    requires R.Inv(r, t) && CountsDown(r, t) && Pair(r, s, x, id)
    ensures var g := Ticked(r, t + 15000, "cat");
            Pair(g, s, x, id) && g.phase == Playing
  {
    R.ResetReady(r);
    R.NextRound(R.Reset(r), t + 15000, "cat");
  }

  /** 15 s later their game starts; nothing else happens. */
  lemma GameStarts(v: ServerView, t: nat, i: nat, s: Seat, x: Seat)
    requires Inv(v, t) && Around(v, i, s.who) && SavedBefore(v.table, t, i, s.token) && i <= 2
    requires CountsDown(v.lobby.rooms[i], t) && Pair(v.lobby.rooms[i], s, x, i + 1)
    ensures var w := Step(v, t, TimerRound(t + 15000, Words()));
            && Around(w, i, s.who) && w.table == v.table && w.lobby.nextId == v.lobby.nextId
            && w.lobby.rooms[i].phase == Playing && Pair(w.lobby.rooms[i], s, x, i + 1)
            && forall j :: 0 <= j < i ==> w.lobby.rooms[j] == v.lobby.rooms[j]
  {
    InvFacts(v, t, t + 15000);
    assert RoomOk(v.lobby.rooms[i], t, v.lobby.nextId);
    PairStarts(v.lobby.rooms[i], t, s, x, i + 1);
    NothingStale(v.table, t, i, s.token);
  }

  lemma NothingStale(table: seq<Entry>, t: nat, i: nat, token: string)
    requires SavedBefore(table, t, i, token) && i <= 2
    ensures Settled(table, t + 15000) && Cleanup(table, t + 15000) == table
  {
  }

  /** The player disconnects: he is saved behind the earlier entries, and his room ends. */
  lemma CutOff(v: ServerView, t: nat, now: nat, i: nat, s: Seat, x: Seat)
    requires Inv(v, now) && Around(v, i, s.who) && SavedBefore(v.table, t, i, s.token) && v.lobby.nextId == i + 2
    requires v.lobby.rooms[i].phase == Playing && Pair(v.lobby.rooms[i], s, x, i + 1) && i <= 2
    requires now == t + 15000 && s.who != x.who
    ensures var cut := v.lobby.rooms[i].seats[0];
            var w := Step(v, now, Disconnect(cut, now, "dog"));
            && Enabled(v, Disconnect(cut, now, "dog"))
            && After(w, now, i + 1, s.who, s.token) && w.lobby.rooms[i].seats[0].who == x.who
            && w.table == v.table[i := Saved(cut, i + 1, now)]
            && forall j :: 0 <= j < i ==> w.lobby.rooms[j] == v.lobby.rooms[j]
  {
    InvFacts(v, now, now);
    var free := FreeSlot(v.table, |v.table|);
    assert !v.table[i].valid && free == i;
    assert RoomOf(v.lobby.rooms, s.who, MAX_ROOMS) == i;
  }

  /** One game of s and x, from the lobby to the cut. */
  lemma OneGame(es: seq<Event>, v: ServerView, t: nat, i: nat, s: Seat, x: Seat)
    returns (more: seq<Event>, w: ServerView, cut: Seat)
    requires Reaches(es, v, t) && After(v, t, i, s.who, s.token) && i < 2
    requires s.rtt == x.rtt == 0 && s.who != x.who && Absent(v, x.who)
    ensures Reaches(more, w, t + 15000) && After(w, t + 15000, i + 1, s.who, s.token)
    ensures w.lobby.rooms[i].seats[0].who == x.who && forall j :: 0 <= j < i ==> w.lobby.rooms[j] == v.lobby.rooms[j]
    ensures cut.who == s.who && cut.token == s.token && w.table == v.table[i := Saved(cut, i + 1, t + 15000)]
  {
    var zero, alone := FirstWaits(es, v, t, i, s);
    StillAbsent(v, alone, i, s, x.who);
    var one, ready := SecondWaits(zero, alone, t, i, s, x);
    more, w, cut := PlayedAndCut(one, ready, t, i, s, x);
  }

  lemma PlayedAndCut(es: seq<Event>, v: ServerView, t: nat, i: nat, s: Seat, x: Seat)
    returns (more: seq<Event>, w: ServerView, cut: Seat)
    requires Reaches(es, v, t) && Around(v, i, s.who) && SavedBefore(v.table, t, i, s.token) && i <= 2
    requires v.lobby.nextId == i + 2 && s.who != x.who
    requires CountsDown(v.lobby.rooms[i], t) && Pair(v.lobby.rooms[i], s, x, i + 1)
    ensures Reaches(more, w, t + 15000) && After(w, t + 15000, i + 1, s.who, s.token)
    ensures w.lobby.rooms[i].seats[0].who == x.who && forall j :: 0 <= j < i ==> w.lobby.rooms[j] == v.lobby.rooms[j]
    ensures cut.who == s.who && cut.token == s.token && w.table == v.table[i := Saved(cut, i + 1, t + 15000)]
  {
    var start := TimerRound(t + 15000, Words());
    GameStarts(v, t, i, s, x);
    Extend(es, v, t, start);
    var playing := Step(v, t, start);
    cut := playing.lobby.rooms[i].seats[0];
    CutOff(playing, t, t + 15000, i, s, x);
    Extend(es + [start], playing, t + 15000, Disconnect(cut, t + 15000, "dog"));
    more := es + [start] + [Disconnect(cut, t + 15000, "dog")];
    w := Step(playing, t + 15000, Disconnect(cut, t + 15000, "dog"));
  }

  lemma AloneInRoom(id: nat, t: nat, s: Seat)
    ensures Waits(Admit(FreshRoom(id, false, t), s, t, ""), s, id)
  {
  }

  lemma PairInRoom(r: RoomView, t: nat, s: Seat, x: Seat, id: nat)
    requires Waits(r, s, id)
    ensures CountsDown(Admit(r, x, t, ""), t) && Pair(Admit(r, x, t, ""), s, x, id)
  {
  }

  lemma FirstWaits(es: seq<Event>, v: ServerView, t: nat, i: nat, s: Seat) returns (more: seq<Event>, w: ServerView)
    requires Reaches(es, v, t) && After(v, t, i, s.who, s.token)
    ensures Reaches(more, w, t) && OnlyRoom(v, w, i) && w.table == v.table && w.lobby.nextId == i + 2
    ensures Waits(w.lobby.rooms[i], s, i + 1)
  {
    Opens(v, t, i, s);
    Extend(es, v, t, JoinRequest(s, t, ""));
    more, w := es + [JoinRequest(s, t, "")], Step(v, t, JoinRequest(s, t, ""));
  }

  lemma SecondWaits(es: seq<Event>, v: ServerView, t: nat, i: nat, s: Seat, x: Seat)
    returns (more: seq<Event>, w: ServerView)
    requires Reaches(es, v, t) && Around(v, i, s.who) && Waits(v.lobby.rooms[i], s, i + 1)
    requires s.rtt == x.rtt == 0 && Absent(v, x.who)
    ensures Reaches(more, w, t) && OnlyRoom(v, w, i) && w.table == v.table && w.lobby.nextId == v.lobby.nextId
    ensures CountsDown(w.lobby.rooms[i], t) && Pair(w.lobby.rooms[i], s, x, i + 1)
  {
    SecondJoins(v, t, i, s, x);
    Extend(es, v, t, JoinRequest(x, t, ""));
    more, w := es + [JoinRequest(x, t, "")], Step(v, t, JoinRequest(x, t, ""));
    PairInRoom(v.lobby.rooms[i], t, s, x, i + 1);
  }

  lemma StillAbsent(v: ServerView, w: ServerView, i: nat, s: Seat, x: Player)
    requires OnlyRoom(v, w, i) && Absent(v, x) && s.who != x && Waits(w.lobby.rooms[i], s, i + 1)
    ensures Absent(w, x)
  {
  }

  // ----- Two saves, two returns -----

  /** Entry x in slot i is the first with its token, in time, and for the room in
      slot i. */
  ghost predicate Retrievable(v: ServerView, t: nat, i: nat, x: Entry) {
    && |v.lobby.rooms| == MAX_ROOMS && i < MAX_ROOMS && RoomWithId(v.lobby.rooms, x.roomId, MAX_ROOMS) == i
    && x.time <= t <= x.time + 15000 && First(v.table, i, x)
  }

  lemma Returning(v: ServerView, t: nat, n: Seat, i: nat, x: Entry) returns (w: ServerView)
    requires Inv(v, t) && Roomy(v) && Absent(v, n.who) && Retrievable(v, t, i, x)
    ensures Enabled(v, Reconnect(n, x.token, t)) && w == Step(v, t, Reconnect(n, x.token, t))
    ensures SeatedAgain(v, w, i, Revived(n, x)) && w.table == Drop(v.table, i) && Inv(w, t) && Roomy(w)
  {
    ReturnUsesFirst(v, t, i, x, n, t);
    w := Step(v, t, Reconnect(n, x.token, t));
    ServerRuns.StepKeepsInv(v, t, Reconnect(n, x.token, t));
    StepKeepsRoomy(v, t, Reconnect(n, x.token, t));
  }

  /** A run from the start of the server in which player a is saved twice with one
      token, in slot 0 for room 1 and 15 s later in slot 1 for room 2. */
  lemma SavedTwice(a: Player, b: Player, c: Player) returns (es: seq<Event>, v: ServerView, early: Seat, late: Seat)
    requires a != b && a != c && b != c
    ensures Reaches(es, v, 30000) && early.who == late.who == a && early.token == late.token == "t"
    ensures v.table[0] == Saved(early, 1, 15000) && v.table[1] == Saved(late, 2, 30000)
    ensures After(v, 30000, 2, a, "t") && v.lobby.rooms[0].seats[0].who == b && v.lobby.rooms[1].seats[0].who == c
  {
    ServerRuns.StartInv(0);
    StartRoomy();
    var s := New(a, 1, "t");
    var es1, v1;
    es1, v1, early := OneGame([], Start(), 0, 0, s, New(b, 2, "u"));
    es, v, late := OneGame(es1, v1, 15000, 1, s, New(c, 3, "w"));
  }

  /** He comes back to room 1 with what was saved first, although room 2 was the later
      one; and then the same token brings another connection back to room 2. */
  lemma TokenWorksTwice(a: Player, b: Player, c: Player, n: Player, m: Player)
    returns (es: seq<Event>, v: ServerView, w: ServerView, early: Seat, late: Seat)
    requires a != b && a != c && b != c && n != b && n != c && m != b && m != c && n != m
    ensures Reaches(es, v, 30000) && early.who == late.who == a && early.token == late.token == "t"
    ensures v.table[0] == Saved(early, 1, 15000) && v.table[1] == Saved(late, 2, 30000)
    ensures Enabled(v, Reconnect(New(n, 4, ""), "t", 30000))
    ensures w == Step(v, 30000, Reconnect(New(n, 4, ""), "t", 30000))
    ensures SeatedAgain(v, w, 0, Back(New(n, 4, ""), early)) && v.lobby.rooms[0].id == 1
    ensures Inv(w, 30000) && Enabled(w, Reconnect(New(m, 5, ""), "t", 30000))
    ensures SeatedAgain(w, Step(w, 30000, Reconnect(New(m, 5, ""), "t", 30000)), 1, Back(New(m, 5, ""), late))
  {
    es, v, early, late := SavedTwice(a, b, c);
    w := EarlyReturns(v, early, late, a, b, c, n, m);
    var y := Returning(w, 30000, New(m, 5, ""), 1, Saved(late, 2, 30000));
  }

  /** After the first return the later save is still there. */
  lemma EarlyReturns(v: ServerView, early: Seat, late: Seat, a: Player, b: Player, c: Player, n: Player, m: Player)
    returns (w: ServerView)
    requires Inv(v, 30000) && Roomy(v) && After(v, 30000, 2, a, "t") && early.token == late.token == "t"
    requires v.table[0] == Saved(early, 1, 15000) && v.table[1] == Saved(late, 2, 30000)
    requires v.lobby.rooms[0].seats[0].who == b && v.lobby.rooms[1].seats[0].who == c
    requires n != b && n != c && m != b && m != c && n != m
    ensures Enabled(v, Reconnect(New(n, 4, ""), "t", 30000))
    ensures w == Step(v, 30000, Reconnect(New(n, 4, ""), "t", 30000))
    ensures SeatedAgain(v, w, 0, Back(New(n, 4, ""), early)) && v.lobby.rooms[0].id == 1
    ensures Inv(w, 30000) && Roomy(w) && Absent(w, m) && Retrievable(w, 30000, 1, Saved(late, 2, 30000))
  {
    FoundById(v, 30000, 0);
    w := Returning(v, 30000, New(n, 4, ""), 0, Saved(early, 1, 15000));
    AbsentStill(v, w, 0, Back(New(n, 4, ""), early), m);
    FoundById(w, 30000, 1);
  }

  lemma AbsentStill(v: ServerView, w: ServerView, i: nat, s: Seat, m: Player)
    requires SeatedAgain(v, w, i, s) && Absent(v, m) && s.who != m
    ensures Absent(w, m)
  {
  }
}
