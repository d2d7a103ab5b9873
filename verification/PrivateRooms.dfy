/** A created room is private: nobody but its creator ever sits in it. */
module PrivateRooms {
  import opened Protocol
  import opened RoomSpec
  import opened MatchSpec
  import opened LedgerSpec
  import opened ServerSpec
  import R = RoomInvariant
  import ServerRuns

  // ----- Opening -----

  /** The room that a newcomer opened: he is alone in it, and it waits. */
  ghost predicate Opened(r: RoomView, s: Seat, id: nat, isPrivate: bool, now: nat) {
    && r.isPrivate == isPrivate && r.id == id && r.createdAt == now
    && r.seats == [s.(state := InRoom)] && r.phase == Waiting && r.drawer == -1 && r.round == 0
    && !r.countdownActive && r.sent == []
  }

  /** Only slot i and the room counter of v change. */
  ghost predicate OpensSlot(v: ServerView, w: ServerView, i: nat) {
    && i < |v.lobby.rooms| && v.lobby.rooms[i].seats == []
    && (forall j :: 0 <= j < i ==> v.lobby.rooms[j].seats != [])
    && w == ServerView(LobbyView(w.lobby.rooms, v.lobby.nextId + 1), v.table)
    && |w.lobby.rooms| == |v.lobby.rooms|
    && forall j :: 0 <= j < |v.lobby.rooms| && j != i ==> w.lobby.rooms[j] == v.lobby.rooms[j]
  }

  /** A create request opens a private room in the first free slot, with the next room
      number, or changes nothing because there is no free slot. */
  lemma CreateOpensPrivate(v: ServerView, t: nat, s: Seat, now: nat) returns (i: nat)
    requires Inv(v, t) && t <= now && Enabled(v, CreateRequest(s, now))
    ensures var w := Step(v, t, CreateRequest(s, now));
            if forall j :: 0 <= j < MAX_ROOMS ==> v.lobby.rooms[j].seats != [] then w == v
            else OpensSlot(v, w, i) && Opened(w.lobby.rooms[i], s, v.lobby.nextId, true, now)
  {
    var free := FirstFree(v.lobby.rooms, MAX_ROOMS);
    i := if free >= 0 then free else 0;
  }

  /** A join request that opens a slot opens a public room. */
  lemma JoinOpensPublic(v: ServerView, t: nat, s: Seat, now: nat, word: string, i: nat)
    requires Inv(v, t) && t <= now && Enabled(v, JoinRequest(s, now, word)) && i < MAX_ROOMS
    requires v.lobby.rooms[i].seats == []
    ensures var w := Step(v, t, JoinRequest(s, now, word));
            && |w.lobby.rooms| == MAX_ROOMS
            && (w.lobby.rooms[i].seats != [] ==>
                  OpensSlot(v, w, i) && Opened(w.lobby.rooms[i], s, v.lobby.nextId, false, now))
  {
    InvFacts(v, t, now);
  }

  // ----- While its creator stays -----

  /** p alone in a private room that waits, and does not count down. */
  ghost predicate Alone(r: RoomView, p: Player) {
    r.isPrivate && r.phase == Waiting && !r.countdownActive && |r.seats| == 1 && r.seats[0].who == p
  }

  lemma StepAlone(r: RoomView, t: nat, e: R.Event, p: Player)
    requires R.Inv(r, t) && Alone(r, p) && t <= e.now && R.Enabled(r, e) && R.Step(r, t, e).seats != []
    ensures Alone(R.Step(r, t, e), p) && !e.Join? && !e.Rejoin?
  {
    if e.Register? {
      assert SeatOf(r.seats, e.player) <= 0;
    }
  }

  /** Nobody comes to the room in these steps. */
  ghost predicate NobodyComes(es: seq<R.Event>) {
    forall j :: 0 <= j < |es| ==> !es[j].Join? && !es[j].Rejoin?
  }

  lemma NobodyCameFirst(first: seq<R.Event>, rest: seq<R.Event>)
    requires NobodyComes(first) && NobodyComes(rest)
    ensures NobodyComes(first + rest)
  {
  }

  /** In every run of the server, as long as the created room keeps having players, no
      join and no return seats anybody there: its creator stays alone, and no game
      starts. */
  lemma {:induction false} CreatorStaysAlone(v: ServerView, t: nat, es: seq<Event>, i: nat, p: Player)
    requires Inv(v, t) && ServerRuns.Playable(v, t, es) && i < MAX_ROOMS && ServerRuns.Occupied(v, t, es, i)
    requires Alone(v.lobby.rooms[i], p)
    ensures |ServerRuns.Run(v, t, es).lobby.rooms| == MAX_ROOMS
    ensures Alone(ServerRuns.Run(v, t, es).lobby.rooms[i], p)
    ensures NobodyComes(ServerRuns.RoomEvents(v, t, es, i))
    decreases |es|
  {
    var r := v.lobby.rooms[i];
    assert RoomOk(r, t, v.lobby.nextId);
    if es != [] {
      var e, w := es[0], Step(v, t, es[0]);
      ServerRuns.StepKeepsInv(v, t, e);
      ServerRuns.StepProjects(v, t, e, i);
      var re := ServerRuns.RoomEvent(v, e, i);
      ProjectsAlone(r, t, e.now, re, w.lobby.rooms[i], p);
      CreatorStaysAlone(w, e.now, es[1..], i, p);
      NobodyCameFirst(if re.Some? then [re.value] else [], ServerRuns.RoomEvents(w, e.now, es[1..], i));
    }
  }

  lemma ProjectsAlone(r: RoomView, t: nat, now: nat, re: Option<R.Event>, r': RoomView, p: Player)
    requires ServerRuns.Projects(r, t, now, re, r') && Alone(r, p) && r'.seats != []
    ensures Alone(r', p) && (re.Some? ==> !re.value.Join? && !re.value.Rejoin?)
  {
    if re.Some? {
      StepAlone(r, t, re.value, p);
    }
  }

  /** So it is from the creation on. */
  lemma CreatedRoomsArePrivate(v: ServerView, t: nat, s: Seat, now: nat, es: seq<Event>, i: nat)
    requires Inv(v, t) && t <= now && Enabled(v, CreateRequest(s, now)) && i < MAX_ROOMS
    requires v.lobby.rooms[i].seats == [] && forall j :: 0 <= j < i ==> v.lobby.rooms[j].seats != []
    requires var w := Step(v, t, CreateRequest(s, now));
             Inv(w, now) && ServerRuns.Playable(w, now, es) && ServerRuns.Occupied(w, now, es, i)
    ensures var w := Step(v, t, CreateRequest(s, now));
            var x := ServerRuns.Run(w, now, es);
            && |x.lobby.rooms| == MAX_ROOMS && Alone(x.lobby.rooms[i], s.who)
            && NobodyComes(ServerRuns.RoomEvents(w, now, es, i))
  {
    var k := CreateOpensPrivate(v, t, s, now);
    assert v.lobby.rooms[k].seats == [] && k == i;
    CreatorStaysAlone(Step(v, t, CreateRequest(s, now)), now, es, i, s.who);
  }
}
