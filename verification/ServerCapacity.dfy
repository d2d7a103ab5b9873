/** A seat for everyone who may return: why no reconnection finds its room full. */
module ServerCapacity {
  import opened Protocol
  import opened RoomSpec
  import opened MatchSpec
  import opened LedgerSpec
  import opened ServerSpec
  import R = RoomInvariant
  import ServerRuns

  /** The saved states that name this room. */
  function Claims(table: seq<Entry>, id: nat): nat {
    if table == [] then 0
    else
      var last := table[|table| - 1];
      Claims(table[..|table| - 1], id) + if last.valid && last.roomId == id then 1 else 0
  }

  function Claim(e: Entry, id: nat): nat {
    if e.valid && e.roomId == id then 1 else 0
  }

  lemma {:induction false} ClaimsUpdate(table: seq<Entry>, k: nat, e: Entry, id: nat)
    requires k < |table|
    ensures Claims(table[k := e], id) == Claims(table, id) - Claim(table[k], id) + Claim(e, id)
  {
    var last := |table| - 1;
    if k == last {
      assert table[k := e][..last] == table[..last];
    } else {
      assert table[k := e][..last] == table[..last][k := e];
      ClaimsUpdate(table[..last], k, e, id);
    }
  }

  lemma {:induction false} NoClaims(table: seq<Entry>, id: nat)
    requires forall k :: 0 <= k < |table| && table[k].valid ==> table[k].roomId != id
    ensures Claims(table, id) == 0
  {
    if table != [] {
      NoClaims(table[..|table| - 1], id);
    }
  }

  lemma {:induction false} CleanupClaims(table: seq<Entry>, id: nat, now: nat)
    requires Settled(table, now)
    ensures Claims(Cleanup(table, now), id) <= Claims(table, id)
  {
    if table != [] {
      var last := |table| - 1;
      assert Cleanup(table, now)[..last] == Cleanup(table[..last], now);
      CleanupClaims(table[..last], id, now);
    }
  }

  /** Players and claims of an occupied room fit its seats. */
  ghost predicate Fits(r: RoomView, table: seq<Entry>) {
    r.seats != [] ==> |r.seats| + Claims(table, r.id) <= MAX_PLAYERS
  }

  ghost predicate Roomy(v: ServerView) {
    forall i :: 0 <= i < |v.lobby.rooms| ==> Fits(v.lobby.rooms[i], v.table)
  }

  /** Nobody claims a seat of a room that waits or of one that is yet to be opened. */
  lemma WaitingUnclaimed(v: ServerView, t: nat, i: nat)
    requires Inv(v, t) && i < MAX_ROOMS && v.lobby.rooms[i].seats != [] && v.lobby.rooms[i].phase == Waiting
    ensures Claims(v.table, v.lobby.rooms[i].id) == 0
  {
    forall k | 0 <= k < |v.table| && v.table[k].valid ensures v.table[k].roomId != v.lobby.rooms[i].id {
      assert EntryOk(v.table[k], v.lobby.rooms, t, v.lobby.nextId);
    }
    NoClaims(v.table, v.lobby.rooms[i].id);
  }

  lemma NewUnclaimed(v: ServerView, t: nat)
    requires Inv(v, t)
    ensures Claims(v.table, v.lobby.nextId) == 0
  {
    forall k | 0 <= k < |v.table| && v.table[k].valid ensures v.table[k].roomId != v.lobby.nextId {
      assert EntryOk(v.table[k], v.lobby.rooms, t, v.lobby.nextId);
    }
    NoClaims(v.table, v.lobby.nextId);
  }

  // ----- Steps -----

  lemma JoinFits(v: ServerView, t: nat, s: Seat, now: nat, word: string, i: nat)
    requires Inv(v, t) && t <= now && Roomy(v) && i < MAX_ROOMS && Open(v.lobby)
    ensures Fits(JoinMatchmaking(v.lobby, s, now, word).0.rooms[i], v.table)
  {
    NewUnclaimed(v, t);
    if Target(v.lobby, s.rtt) == i {
      var r := if Eligible(v.lobby.rooms[i]) then v.lobby.rooms[i] else FreshRoom(v.lobby.nextId, false, now);
      R.AdmitSeated(r, s, now, word);
      if Eligible(v.lobby.rooms[i]) {
        WaitingUnclaimed(v, t, i);
      }
    }
  }

  lemma CreateFits(v: ServerView, t: nat, s: Seat, now: nat, i: nat)
    requires Inv(v, t) && Roomy(v) && i < MAX_ROOMS
    ensures Fits(CreateRoom(v.lobby, s, now).0.rooms[i], v.table)
  {
    NewUnclaimed(v, t);
  }

  lemma ChatFits(v: ServerView, t: nat, p: Player, text: string, now: nat, word: string, i: nat)
    requires Inv(v, t) && t <= now && Roomy(v) && i < MAX_ROOMS
    requires AllLeavable(v.lobby.rooms) && AllScorable(v.lobby.rooms)
    ensures Fits(ChatStep(v.lobby, p, text, now, word).rooms[i], v.table)
  {
    var r := v.lobby.rooms[i];
    if RoomOf(v.lobby.rooms, p, MAX_ROOMS) == i {
      assert RoomOk(r, t, v.lobby.nextId);
      R.ChatContinues(r, t, SeatOf(r.seats, p), text, now, word);
    }
  }

  lemma TimerFits(v: ServerView, t: nat, now: nat, words: seq<string>, i: nat)
    requires Inv(v, t) && t <= now && Roomy(v) && i < MAX_ROOMS
    requires |words| == MAX_ROOMS && AllReady(v.lobby.rooms, now) && Settled(v.table, now)
    ensures Fits(TickAll(v.lobby.rooms, now, words)[i], Cleanup(v.table, now))
  {
    var r := v.lobby.rooms[i];
    CleanupClaims(v.table, r.id, now);
    if r.seats != [] {
      assert RoomOk(r, t, v.lobby.nextId);
      R.TickContinues(r, t, now, words[i]);
    }
  }

  /** A save takes at most one claim for the room left, and none for the others. */
  lemma SaveFits(v: ServerView, t: nat, s: Seat, now: nat, word: string, i: nat)
    requires Inv(v, t) && t <= now && Roomy(v) && i < MAX_ROOMS && AllLeavable(v.lobby.rooms)
    ensures Fits(LeaveRoom(v.lobby, s.who, now, word).rooms[i], SaveIfPlaying(v, s, now))
  {
    var r, k := v.lobby.rooms[i], RoomOf(v.lobby.rooms, s.who, MAX_ROOMS);
    if k >= 0 {
      ClaimsUpdate(v.table, SaveSlot(v.table), Saved(s, v.lobby.rooms[k].id, now), r.id);
      if k == i {
        assert RoomOk(r, t, v.lobby.nextId);
        R.LeaveContinues(r, t, SeatOf(r.seats, s.who), now, word);
      }
    }
  }

  /** A return takes a seat and gives up its claim to it. */
  lemma ReturnFits(v: ServerView, t: nat, s: Seat, token: string, now: nat, i: nat)
    requires Inv(v, t) && t <= now && Roomy(v) && i < MAX_ROOMS && Settled(v.table, now)
    ensures Fits(ReconnectStep(v, s, token, now).lobby.rooms[i], ReconnectStep(v, s, token, now).table)
  {
    var k := TokenSlot(v.table, token, |v.table|);
    assert Fits(v.lobby.rooms[i], v.table);
    if k >= 0 {
      ClaimsUpdate(v.table, k, v.table[k].(valid := false), v.lobby.rooms[i].id);
    }
  }

  lemma StepFits(v: ServerView, t: nat, e: Event, i: nat)
    requires Inv(v, t) && t <= e.now && Enabled(v, e) && Roomy(v) && i < MAX_ROOMS
    ensures |Step(v, t, e).lobby.rooms| == MAX_ROOMS
    ensures Fits(Step(v, t, e).lobby.rooms[i], Step(v, t, e).table)
  {
    InvFacts(v, t, e.now);
    assert Fits(v.lobby.rooms[i], v.table);
    match e
    case JoinRequest(s, now, word) => JoinFits(v, t, s, now, word, i);
    case CreateRequest(s, now) => CreateFits(v, t, s, now, i);
    case ChatMessage(p, text, now, word) => ChatFits(v, t, p, text, now, word, i);
    case Disconnect(s, now, word) => SaveFits(v, t, s, now, word, i);
    case Reconnect(s, token, now) => ReturnFits(v, t, s, token, now, i);
    case RegisterRequest(_, _, _, _) =>
    case TimerRound(now, words) => TimerFits(v, t, now, words, i);
  }

  lemma StepKeepsRoomy(v: ServerView, t: nat, e: Event)
    requires Inv(v, t) && t <= e.now && Enabled(v, e) && Roomy(v)
    ensures Roomy(Step(v, t, e))
  {
    StepFits(v, t, e, 0);
    forall i | 0 <= i < MAX_ROOMS ensures Fits(Step(v, t, e).lobby.rooms[i], Step(v, t, e).table) {
      StepFits(v, t, e, i);
    }
  }

  lemma StartRoomy()
    ensures Roomy(Start())
  {
  }

  /** In every run of the server the players of a room and those who may return to it
      never exceed its seats. */
  lemma {:induction false} RunKeepsRoomy(v: ServerView, t: nat, es: seq<Event>)
    requires Inv(v, t) && Roomy(v) && ServerRuns.Playable(v, t, es)
    ensures Roomy(ServerRuns.Run(v, t, es))
    decreases |es|
  {
    if es != [] {
      ServerRuns.StepKeepsInv(v, t, es[0]);
      StepKeepsRoomy(v, t, es[0]);
      RunKeepsRoomy(Step(v, t, es[0]), es[0].now, es[1..]);
    }
  }

  lemma {:induction false} ClaimCounts(table: seq<Entry>, k: nat)
    requires k < |table| && table[k].valid
    ensures Claims(table, table[k].roomId) >= 1
  {
    var last := |table| - 1;
    if k < last {
      ClaimCounts(table[..last], k);
    }
  }

  /** So the branch for a full room is never taken in a reachable state. */
  lemma NeverFull(v: ServerView, t: nat, token: string, now: nat)
    requires Inv(v, t) && Roomy(v) && t <= now && Settled(v.table, now)
    ensures Judge(v.table, token, v.lobby.rooms, now) != RoomFull
  {
    var k := TokenSlot(v.table, token, |v.table|);
    if k >= 0 {
      var i := RoomWithId(v.lobby.rooms, v.table[k].roomId, |v.lobby.rooms|);
      ClaimCounts(v.table, k);
      if i >= 0 {
        assert Fits(v.lobby.rooms[i], v.table);
      }
    }
  }

  /** In every run of the server from its start there is a seat for everyone who may
      return, and no reconnection at any later time finds its room full. */
  lemma RoomForEveryone(t: nat, es: seq<Event>, token: string, now: nat) returns (v: ServerView)
    requires Inv(Start(), t) && ServerRuns.Playable(Start(), t, es) && ServerRuns.EndTime(t, es) <= now
    ensures v == ServerRuns.Run(Start(), t, es)
    ensures Roomy(v) && Settled(v.table, now) && Judge(v.table, token, v.lobby.rooms, now) != RoomFull
  {
    v := ServerRuns.Run(Start(), t, es);
    StartRoomy();
    RunKeepsRoomy(Start(), t, es);
    ServerRuns.RunKeepsInv(Start(), t, es);
    InvFacts(v, ServerRuns.EndTime(t, es), now);
    NeverFull(v, ServerRuns.EndTime(t, es), token, now);
  }
}
