/** A player who loses the connection during a game and comes back. */
module ServerComeback {
  import opened Protocol
  import opened RoomSpec
  import opened MatchSpec
  import opened LedgerSpec
  import opened ServerSpec
  import opened ServerCapacity
  import R = RoomInvariant
  import ServerRuns

  // ----- The saved state over a run -----

  /** The entry is in slot k, and no lower slot has a valid one with its token. */
  ghost predicate First(table: seq<Entry>, k: nat, x: Entry) {
    && k < |table| && table[k] == x && x.valid
    && forall j :: 0 <= j < k ==> !(table[j].valid && table[j].token == x.token)
  }

  /** Slot k has no valid entry with this token. */
  ghost predicate Lost(table: seq<Entry>, k: nat, token: string) {
    k < |table| && !(table[k].valid && table[k].token == token)
  }

  /** No slot but k has a valid entry with this token. */
  ghost predicate Alone(table: seq<Entry>, k: nat, token: string) {
    forall j :: 0 <= j < |table| && j != k && table[j].valid ==> table[j].token != token
  }

  /** The token is neither used nor saved again. */
  predicate Unused(e: Event, token: string) {
    && (e.Reconnect? ==> e.token != token)
    && (e.Disconnect? ==> e.leaver.token != token)
  }

  /** The step saves the state of a player into slot k, which is in use. */
  ghost predicate Evicts(v: ServerView, e: Event, k: nat) {
    && e.Disconnect? && k < |v.table| && v.table[k].valid
    && (var i := RoomOf(v.lobby.rooms, e.leaver.who, |v.lobby.rooms|); i >= 0 && v.lobby.rooms[i].phase == Playing)
    && SaveSlot(v.table) == k
  }

  /** That happens exactly when a player leaves a running game, every entry is in
      use, and none is older than the one in slot k, or as old and in front of it. */
  lemma EvictsOldest(v: ServerView, e: Event, k: nat)
    requires e.Disconnect? && k < |v.table|
    ensures Evicts(v, e, k) <==>
              && (var i := RoomOf(v.lobby.rooms, e.leaver.who, |v.lobby.rooms|);
                  i >= 0 && v.lobby.rooms[i].phase == Playing)
              && (forall j :: 0 <= j < |v.table| ==> v.table[j].valid && v.table[k].time <= v.table[j].time)
              && forall j :: 0 <= j < k ==> v.table[k].time < v.table[j].time
  {
    SaveEvictsOldest(v.table, k);
  }

  ghost predicate Evicted(v: ServerView, t: nat, es: seq<Event>, k: nat)
    requires Inv(v, t) && ServerRuns.Playable(v, t, es)
    decreases |es|
  {
    es != [] &&
    (ServerRuns.StepKeepsInv(v, t, es[0]);
     Evicts(v, es[0], k) || Evicted(Step(v, t, es[0]), es[0].now, es[1..], k))
  }

  lemma StepKeepsFirst(v: ServerView, t: nat, e: Event, k: nat, x: Entry)
    requires Inv(v, t) && t <= e.now && Enabled(v, e) && First(v.table, k, x) && Unused(e, x.token) && x.time <= e.now
    ensures if Evicts(v, e, k) then Lost(Step(v, t, e).table, k, x.token)
            else First(Step(v, t, e).table, k, x) || (Stale(x, e.now) && Lost(Step(v, t, e).table, k, x.token))
  {
    InvFacts(v, t, e.now);
  }

  lemma StepKeepsLost(v: ServerView, t: nat, e: Event, k: nat, token: string)
    requires Inv(v, t) && t <= e.now && Enabled(v, e) && Lost(v.table, k, token) && Unused(e, token)
    ensures Lost(Step(v, t, e).table, k, token)
  {
    InvFacts(v, t, e.now);
  }

  lemma StepKeepsAlone(v: ServerView, t: nat, e: Event, k: nat, token: string)
    requires Inv(v, t) && t <= e.now && Enabled(v, e) && Alone(v.table, k, token) && Unused(e, token)
    ensures Alone(Step(v, t, e).table, k, token)
  {
    InvFacts(v, t, e.now);
  }

  predicate AllUnused(es: seq<Event>, token: string) {
    forall j :: 0 <= j < |es| ==> Unused(es[j], token)
  }

  lemma {:induction false} TimeGoesOn(v: ServerView, t: nat, es: seq<Event>)
    requires Inv(v, t) && ServerRuns.Playable(v, t, es)
    ensures t <= ServerRuns.EndTime(t, es)
    decreases |es|
  {
    if es != [] {
      ServerRuns.StepKeepsInv(v, t, es[0]);
      TimeGoesOn(Step(v, t, es[0]), es[0].now, es[1..]);
      assert ServerRuns.EndTime(t, es) == ServerRuns.EndTime(es[0].now, es[1..]);
    }
  }

  lemma {:induction false} RunKeepsLost(v: ServerView, t: nat, es: seq<Event>, k: nat, token: string)
    requires Inv(v, t) && ServerRuns.Playable(v, t, es) && Lost(v.table, k, token) && AllUnused(es, token)
    ensures Lost(ServerRuns.Run(v, t, es).table, k, token)
    decreases |es|
  {
    if es != [] {
      ServerRuns.StepKeepsInv(v, t, es[0]);
      StepKeepsLost(v, t, es[0], k, token);
      RunKeepsLost(Step(v, t, es[0]), es[0].now, es[1..], k, token);
    }
  }

  lemma {:induction false} RunKeepsAlone(v: ServerView, t: nat, es: seq<Event>, k: nat, token: string)
    requires Inv(v, t) && ServerRuns.Playable(v, t, es) && Alone(v.table, k, token) && AllUnused(es, token)
    ensures Alone(ServerRuns.Run(v, t, es).table, k, token)
    decreases |es|
  {
    if es != [] {
      ServerRuns.StepKeepsInv(v, t, es[0]);
      StepKeepsAlone(v, t, es[0], k, token);
      RunKeepsAlone(Step(v, t, es[0]), es[0].now, es[1..], k, token);
    }
  }

  /** Until `later` the first entry with a token is lost only by eviction, if it has
      not timed out by then; in any case it is still there, and the first, or its slot
      has nothing with the token. */
  lemma {:induction false} RunKeepsEntry(v: ServerView, t: nat, es: seq<Event>, k: nat, x: Entry, later: nat)
    requires Inv(v, t) && ServerRuns.Playable(v, t, es) && First(v.table, k, x) && AllUnused(es, x.token)
    requires x.time <= t && ServerRuns.EndTime(t, es) <= later
    ensures var table := ServerRuns.Run(v, t, es).table;
            && (First(table, k, x) || Lost(table, k, x.token))
            && ((later - x.time) / 1000 <= RECONNECT_TIMEOUT ==> (First(table, k, x) <==> !Evicted(v, t, es, k)))
    decreases |es|
  {
    if es != [] {
      var w, rest := Step(v, t, es[0]), es[1..];
      ServerRuns.StepKeepsInv(v, t, es[0]);
      StepKeepsFirst(v, t, es[0], k, x);
      TimeGoesOn(w, es[0].now, rest);
      assert ServerRuns.EndTime(t, es) == ServerRuns.EndTime(es[0].now, rest);
      if First(w.table, k, x) {
        RunKeepsEntry(w, es[0].now, rest, k, x, later);
      } else {
        RunKeepsLost(w, es[0].now, rest, k, x.token);
      }
    }
  }

  // ----- The room meanwhile -----

  /** The room outlives the departure, one seat smaller. */
  lemma RoomStays(v: ServerView, t: nat, s: Seat, now: nat, word: string, i: nat)
    requires Inv(v, t) && t <= now && i < MAX_ROOMS
    requires RoomOf(v.lobby.rooms, s.who, MAX_ROOMS) == i && v.lobby.rooms[i].phase == Playing
    ensures AllLeavable(v.lobby.rooms)
    ensures var r := LeaveRoom(v.lobby, s.who, now, word).rooms[i];
            r.id == v.lobby.rooms[i].id && |r.seats| == |v.lobby.rooms[i].seats| - 1 >= 1
  {
    InvFacts(v, t, now);
    var r := v.lobby.rooms[i];
    assert RoomOk(r, t, v.lobby.nextId);
    R.LeaveContinues(r, t, SeatOf(r.seats, s.who), now, word);
  }

  /** A room is found under its own id. */
  lemma FoundById(v: ServerView, t: nat, i: nat)
    requires Inv(v, t) && i < MAX_ROOMS && v.lobby.rooms[i].seats != []
    ensures RoomWithId(v.lobby.rooms, v.lobby.rooms[i].id, MAX_ROOMS) == i
  {
    var k := RoomWithId(v.lobby.rooms, v.lobby.rooms[i].id, MAX_ROOMS);
  }

  /** A room keeps its id while it has players. */
  lemma {:induction false} OccupiedKeepsId(v: ServerView, t: nat, es: seq<Event>, i: nat)
    requires Inv(v, t) && ServerRuns.Playable(v, t, es) && i < MAX_ROOMS && ServerRuns.Occupied(v, t, es, i)
    ensures var w := ServerRuns.Run(v, t, es);
            |w.lobby.rooms| == MAX_ROOMS && w.lobby.rooms[i].seats != [] && w.lobby.rooms[i].id == v.lobby.rooms[i].id
    decreases |es|
  {
    if es != [] {
      ServerRuns.StepKeepsInv(v, t, es[0]);
      ServerRuns.StepSlotOk(v, t, es[0], i);
      OccupiedKeepsId(Step(v, t, es[0]), es[0].now, es[1..], i);
    }
  }

  /** No valid entry with this token comes before slot k. */
  ghost predicate Unpreceded(table: seq<Entry>, k: nat, token: string) {
    forall j :: 0 <= j < |table| && j < k ==> !(table[j].valid && table[j].token == token)
  }

  lemma AfterDisconnect(v: ServerView, t: nat, s: Seat, now: nat, word: string, i: nat)
    requires Inv(v, t) && t <= now && i < MAX_ROOMS
    requires RoomOf(v.lobby.rooms, s.who, MAX_ROOMS) == i && v.lobby.rooms[i].phase == Playing
    requires Unpreceded(v.table, SaveSlot(v.table), s.token)
    ensures var w := Step(v, t, Disconnect(s, now, word));
            && Inv(w, now)
            && First(w.table, SaveSlot(v.table), Saved(s, v.lobby.rooms[i].id, now))
            && (TokenSlot(v.table, s.token, MAX_DISCONNECTED) == -1 ==> Alone(w.table, SaveSlot(v.table), s.token))
            && w.lobby.rooms[i].seats != [] && w.lobby.rooms[i].id == v.lobby.rooms[i].id
  {
    ServerRuns.StepKeepsInv(v, t, Disconnect(s, now, word));
    RoomStays(v, t, s, now, word, i);
  }

  // ----- The return -----

  /** The new connection n with what the old one, s, had. */
  function Back(n: Seat, s: Seat): Seat {
    n.(playerId := s.playerId, score := s.score, state := s.state, isDrawing := s.isDrawing,
       hasGuessed := s.hasGuessed, token := s.token)
  }

  /** The room i of x with one more player; nothing else changes. */
  ghost predicate SeatedAgain(x: ServerView, y: ServerView, i: nat, seat: Seat) {
    && i < |x.lobby.rooms|
    && y.lobby == x.lobby.(rooms := x.lobby.rooms[i := x.lobby.rooms[i].(seats := x.lobby.rooms[i].seats + [seat])])
  }

  /** A return with the token of the entry x, the first with it: the state saved there
      comes back to the room saved there, unless it is too late or the room is gone,
      in which case no room changes. The entry is used up, and no other. */
  ghost predicate GivenBack(v: ServerView, w: ServerView, k: nat, x: Entry, n: Seat, later: nat) {
    && k < |v.table| && w.table == Drop(v.table, k) && x.time <= later
    && (var i := RoomWithId(v.lobby.rooms, x.roomId, |v.lobby.rooms|);
        if i >= 0 && !Stale(x, later) then SeatedAgain(v, w, i, Revived(n, x)) else w.lobby == v.lobby)
  }

  /** A return uses the first entry with the token, even if the same player was saved
      again in a later slot. */
  lemma ReturnUsesFirst(v: ServerView, t: nat, k: nat, x: Entry, n: Seat, later: nat)
    requires Inv(v, t) && Roomy(v) && t <= later && First(v.table, k, x)
    requires RoomOf(v.lobby.rooms, n.who, MAX_ROOMS) == -1
    ensures GivenBack(v, Step(v, t, Reconnect(n, x.token, later)), k, x, n, later)
  {
    InvFacts(v, t, later);
    NeverFull(v, t, x.token, later);
    LowestSlotFound(v.table, x.token, |v.table|, k);
  }

  lemma ReturnUnknown(x: ServerView, t: nat, token: string, k: nat, n: Seat, later: nat)
    requires Inv(x, t) && t <= later && Lost(x.table, k, token) && Alone(x.table, k, token)
    requires RoomOf(x.lobby.rooms, n.who, MAX_ROOMS) == -1
    ensures Step(x, t, Reconnect(n, token, later)) == x
  {
    InvFacts(x, t, later);
    assert TokenSlot(x.table, token, |x.table|) == -1;
  }

  /** No valid entry has this token. */
  ghost predicate Gone(table: seq<Entry>, token: string) {
    forall j :: 0 <= j < |table| && table[j].valid ==> table[j].token != token
  }

  /** Over whole runs: what the first entry with a token saved is what comes back, if
      it is in time and was not evicted, whatever was saved in later slots. */
  lemma FirstEntryReturns(v: ServerView, t: nat, es: seq<Event>, k: nat, x: Entry, n: Seat, later: nat)
    requires Inv(v, t) && Roomy(v) && ServerRuns.Playable(v, t, es)
    requires First(v.table, k, x) && AllUnused(es, x.token)
    requires x.time <= t && ServerRuns.EndTime(t, es) <= later
    requires (later - x.time) / 1000 <= RECONNECT_TIMEOUT && !Evicted(v, t, es, k)
    requires var w := ServerRuns.Run(v, t, es);
             Inv(w, ServerRuns.EndTime(t, es)) && RoomOf(w.lobby.rooms, n.who, MAX_ROOMS) == -1
    ensures var w := ServerRuns.Run(v, t, es);
            GivenBack(w, Step(w, ServerRuns.EndTime(t, es), Reconnect(n, x.token, later)), k, x, n, later)
  {
    RunKeepsRoomy(v, t, es);
    RunKeepsEntry(v, t, es, k, x, later);
    ReturnUsesFirst(ServerRuns.Run(v, t, es), ServerRuns.EndTime(t, es), k, x, n, later);
  }

  /** After s was cut off: es is played while room i keeps having players, and the
      token of s is neither used nor saved again. */
  ghost predicate Meanwhile(w: ServerView, now: nat, es: seq<Event>, i: nat, token: string) {
    && Inv(w, now) && ServerRuns.Playable(w, now, es) && i < MAX_ROOMS
    && ServerRuns.Occupied(w, now, es, i) && AllUnused(es, token)
  }

  /** A player cut off during a game comes back on a new connection n after any run of
      the server in which his room kept having players. If no valid entry with his
      token comes before the slot his state was saved in, he gets identity, score and
      flags back on the last seat of his room when less than 301 s have passed and his
      saved state was not evicted. If there was no valid entry with his token at all,
      it is exactly then; otherwise no room changes, and the token works once. Whether
      he has drawn is what the new connection says. */
  lemma ComebackRestores(v: ServerView, t: nat, s: Seat, now: nat, word: string, i: nat,
                         es: seq<Event>, n: Seat, later: nat)
    requires Inv(v, t) && Roomy(v) && t <= now && i < MAX_ROOMS
    requires RoomOf(v.lobby.rooms, s.who, MAX_ROOMS) == i && v.lobby.rooms[i].phase == Playing
    requires Unpreceded(v.table, SaveSlot(v.table), s.token)
    requires Meanwhile(Step(v, t, Disconnect(s, now, word)), now, es, i, s.token)
    requires ServerRuns.EndTime(now, es) <= later
    requires var x := ServerRuns.Run(Step(v, t, Disconnect(s, now, word)), now, es);
             Inv(x, ServerRuns.EndTime(now, es)) && RoomOf(x.lobby.rooms, n.who, MAX_ROOMS) == -1
    ensures var w := Step(v, t, Disconnect(s, now, word));
            var x := ServerRuns.Run(w, now, es);
            var y := Step(x, ServerRuns.EndTime(now, es), Reconnect(n, s.token, later));
            Returned(x, y, i, SaveSlot(v.table), n, s,
                     later - now < 301000 && !Evicted(w, now, es, SaveSlot(v.table)),
                     TokenSlot(v.table, s.token, MAX_DISCONNECTED) == -1)
  {
    var x := MeanwhileKept(v, t, s, now, word, i, es, later);
    ReturnEither(x, ServerRuns.EndTime(now, es), s, now, SaveSlot(v.table), i, n, later);
  }

  /** The server when the player comes back. */
  lemma MeanwhileKept(v: ServerView, t: nat, s: Seat, now: nat, word: string, i: nat, es: seq<Event>, later: nat)
    returns (x: ServerView)
    requires Inv(v, t) && Roomy(v) && t <= now && i < MAX_ROOMS
    requires RoomOf(v.lobby.rooms, s.who, MAX_ROOMS) == i && v.lobby.rooms[i].phase == Playing
    requires Unpreceded(v.table, SaveSlot(v.table), s.token)
    requires Meanwhile(Step(v, t, Disconnect(s, now, word)), now, es, i, s.token)
    requires ServerRuns.EndTime(now, es) <= later
    ensures var w, k := Step(v, t, Disconnect(s, now, word)), SaveSlot(v.table);
            && x == ServerRuns.Run(w, now, es)
            && now <= ServerRuns.EndTime(now, es) && Roomy(x) && |x.lobby.rooms| == MAX_ROOMS
            && x.lobby.rooms[i].seats != []
            && var entry := Saved(s, x.lobby.rooms[i].id, now);
               && (First(x.table, k, entry) || Lost(x.table, k, s.token))
               && ((later - now) / 1000 <= RECONNECT_TIMEOUT ==>
                     (First(x.table, k, entry) <==> !Evicted(w, now, es, k)))
               && (TokenSlot(v.table, s.token, MAX_DISCONNECTED) == -1 ==> Alone(x.table, k, s.token))
  {
    var w := Step(v, t, Disconnect(s, now, word));
    var entry, k := Saved(s, v.lobby.rooms[i].id, now), SaveSlot(v.table);
    AfterDisconnect(v, t, s, now, word, i);
    StepKeepsRoomy(v, t, Disconnect(s, now, word));
    RunKeepsRoomy(w, now, es);
    RunKeepsEntry(w, now, es, k, entry, later);
    OccupiedKeepsId(w, now, es, i);
    TimeGoesOn(w, now, es);
    x := ServerRuns.Run(w, now, es);
    if TokenSlot(v.table, s.token, MAX_DISCONNECTED) == -1 {
      RunKeepsAlone(w, now, es, k, s.token);
    }
  }

  /** x to y: the return of s on n, when the entry in slot k is in time and still
      there (kept), or when it was the only one with its token (single). */
  ghost predicate Returned(x: ServerView, y: ServerView, i: nat, k: nat, n: Seat, s: Seat, kept: bool, single: bool) {
    && (kept ==> SeatedAgain(x, y, i, Back(n, s)) && k < |x.table| && y.table == Drop(x.table, k))
    && (single ==> Gone(y.table, s.token) && (!kept ==> y.lobby == x.lobby))
  }

  lemma ReturnEither(x: ServerView, t: nat, s: Seat, time: nat, k: nat, i: nat, n: Seat, later: nat)
    requires Inv(x, t) && Roomy(x) && time <= t <= later && i < MAX_ROOMS && x.lobby.rooms[i].seats != []
    requires RoomOf(x.lobby.rooms, n.who, MAX_ROOMS) == -1
    requires First(x.table, k, Saved(s, x.lobby.rooms[i].id, time)) || Lost(x.table, k, s.token)
    ensures var y := Step(x, t, Reconnect(n, s.token, later));
            var entry := Saved(s, x.lobby.rooms[i].id, time);
            Returned(x, y, i, k, n, s, (later - time) / 1000 <= RECONNECT_TIMEOUT && First(x.table, k, entry),
                     Alone(x.table, k, s.token))
  {
    if First(x.table, k, Saved(s, x.lobby.rooms[i].id, time)) {
      FoundById(x, t, i);
      ReturnUsesFirst(x, t, k, Saved(s, x.lobby.rooms[i].id, time), n, later);
    } else if Alone(x.table, k, s.token) {
      ReturnUnknown(x, t, s.token, k, n, later);
    }
  }
}
