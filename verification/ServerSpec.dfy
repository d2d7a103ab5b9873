/** The whole server as a value: the room table and the table of disconnected
    players, with the message handlers of server/tcp/tcp_handler.c and the timer
    thread of server/main.c as its steps. */
module ServerSpec {
  import opened Protocol
  import opened RoomSpec
  import opened MatchSpec
  import opened LedgerSpec
  import RoomInvariant

  datatype ServerView = ServerView(lobby: LobbyView, table: seq<Entry>)

  datatype Event =
    | JoinRequest(seat: Seat, now: nat, word: string)
    | CreateRequest(seat: Seat, now: nat)
    | ChatMessage(speaker: Player, text: string, now: nat, word: string)
    | Disconnect(leaver: Seat, now: nat, word: string)
    | Reconnect(seat: Seat, token: string, now: nat)
    | RegisterRequest(player: Player, id: nat, newToken: string, now: nat)
    | TimerRound(now: nat, words: seq<string>)

  function Start(): ServerView {
    ServerView(LobbyView(seq(MAX_ROOMS, _ => EmptySlot()), 1), seq(MAX_DISCONNECTED, _ => Blank()))
  }

  // ----- The invariant -----

  /** No player sits in both rooms. */
  ghost predicate Apart(a: RoomView, b: RoomView) {
    forall i, j :: 0 <= i < |a.seats| && 0 <= j < |b.seats| ==> a.seats[i].who != b.seats[j].who
  }

  ghost predicate RoomOk(r: RoomView, t: nat, nextId: nat) {
    if r.seats == [] then r == EmptySlot() else RoomInvariant.Inv(r, t) && 1 <= r.id < nextId
  }

  /** A saved state names a room that has started, if it names one at all. */
  ghost predicate EntryOk(e: Entry, rooms: seq<RoomView>, t: nat, nextId: nat) {
    e.valid ==>
      && e.time <= t && e.roomId < nextId
      && forall i :: 0 <= i < |rooms| && rooms[i].seats != [] && rooms[i].id == e.roomId ==> rooms[i].phase != Waiting
  }

  ghost predicate Inv(v: ServerView, t: nat) {
    && |v.lobby.rooms| == MAX_ROOMS && |v.table| == MAX_DISCONNECTED && 1 <= v.lobby.nextId
    && (forall i :: 0 <= i < MAX_ROOMS ==> RoomOk(v.lobby.rooms[i], t, v.lobby.nextId))
    && (forall i, j :: 0 <= i < j < MAX_ROOMS ==> Apart(v.lobby.rooms[i], v.lobby.rooms[j]))
    && (forall i, j :: 0 <= i < j < MAX_ROOMS && v.lobby.rooms[i].seats != [] && v.lobby.rooms[j].seats != [] ==>
          v.lobby.rooms[i].id != v.lobby.rooms[j].id)
    && (forall k :: 0 <= k < MAX_DISCONNECTED ==> EntryOk(v.table[k], v.lobby.rooms, t, v.lobby.nextId))
  }

  // ----- Steps -----

  /** A player joins, creates or reconnects only while not seated anywhere; the
      timer supplies a word per room. */
  ghost predicate Enabled(v: ServerView, e: Event)
    requires |v.lobby.rooms| == MAX_ROOMS
  {
    match e
    case JoinRequest(s, _, _) => RoomOf(v.lobby.rooms, s.who, MAX_ROOMS) == -1
    case CreateRequest(s, _) => RoomOf(v.lobby.rooms, s.who, MAX_ROOMS) == -1
    case Reconnect(s, _, _) => RoomOf(v.lobby.rooms, s.who, MAX_ROOMS) == -1
    case TimerRound(_, words) => |words| == MAX_ROOMS
    case _ => true
  }

  lemma InvFacts(v: ServerView, t: nat, now: nat)
    requires Inv(v, t) && t <= now
    ensures Open(v.lobby)
    ensures AllReady(v.lobby.rooms, now)
    ensures AllLeavable(v.lobby.rooms) && AllScorable(v.lobby.rooms)
    ensures Settled(v.table, now)
  {
    forall i | 0 <= i < MAX_ROOMS
      ensures Leavable(v.lobby.rooms[i])
      ensures v.lobby.rooms[i].seats != [] ==> TickReady(v.lobby.rooms[i], now)
      ensures Eligible(v.lobby.rooms[i]) ==> v.lobby.rooms[i].drawer == -1
      ensures v.lobby.rooms[i].phase == Playing ==> 0 <= v.lobby.rooms[i].timeLeft
    {
      assert RoomOk(v.lobby.rooms[i], t, v.lobby.nextId);
    }
    forall j | 0 <= j < |v.table| && v.table[j].valid ensures v.table[j].time <= now {
      assert EntryOk(v.table[j], v.lobby.rooms, t, v.lobby.nextId);
    }
  }

  ghost function ChatStep(l: LobbyView, p: Player, text: string, now: nat, word: string): LobbyView
    requires AllLeavable(l.rooms) && AllScorable(l.rooms)
  {
    var i := RoomOf(l.rooms, p, |l.rooms|);
    if i == -1 then l
    else
      assert Leavable(l.rooms[i]);
      l.(rooms := l.rooms[i := Chat(l.rooms[i], SeatOf(l.rooms[i].seats, p), text, now, word)])
  }

  /** handle_disconnect: the state is saved only while the game runs. */
  function SaveIfPlaying(v: ServerView, s: Seat, now: nat): seq<Entry>
    requires v.table != []
  {
    var i := RoomOf(v.lobby.rooms, s.who, |v.lobby.rooms|);
    if i >= 0 && v.lobby.rooms[i].phase == Playing then Save(v.table, s, v.lobby.rooms[i].id, now) else v.table
  }

  /** handle_reconnect from the room lookup on, for the saved state in `slot`. */
  function ReturnStep(v: ServerView, s: Seat, slot: nat): (ServerView, bool)
    requires slot < |v.table|
  {
    var e := v.table[slot];
    var i := RoomWithId(v.lobby.rooms, e.roomId, |v.lobby.rooms|);
    if i == -1 then (v.(table := Drop(v.table, slot)), false)
    else if |v.lobby.rooms[i].seats| >= MAX_PLAYERS then (v, false)
    else
      (ServerView(v.lobby.(rooms := v.lobby.rooms[i := Reseat(v.lobby.rooms[i], Revived(s, e)).0]),
                  Drop(v.table, slot)), true)
  }

  /** handle_reconnect. */
  function ReconnectStep(v: ServerView, s: Seat, token: string, now: nat): ServerView
    requires Settled(v.table, now)
  {
    var outcome := Judge(v.table, token, v.lobby.rooms, now);
    var table := AfterRestore(v.table, token, outcome);
    if outcome == Restored then
      var e := v.table[TokenSlot(v.table, token, |v.table|)];
      var i := RoomWithId(v.lobby.rooms, e.roomId, |v.lobby.rooms|);
      ServerView(v.lobby.(rooms := v.lobby.rooms[i := Reseat(v.lobby.rooms[i], Revived(s, e)).0]), table)
    else v.(table := table)
  }

  ghost function Step(v: ServerView, t: nat, e: Event): ServerView
    requires Inv(v, t) && t <= e.now && Enabled(v, e)
  {
    InvFacts(v, t, e.now);
    match e
    case JoinRequest(s, now, word) => v.(lobby := JoinMatchmaking(v.lobby, s, now, word).0)
    case CreateRequest(s, now) => v.(lobby := CreateRoom(v.lobby, s, now).0)
    case ChatMessage(p, text, now, word) => v.(lobby := ChatStep(v.lobby, p, text, now, word))
    case Disconnect(s, now, word) => ServerView(LeaveRoom(v.lobby, s.who, now, word), SaveIfPlaying(v, s, now))
    case Reconnect(s, token, now) => ReconnectStep(v, s, token, now)
    case RegisterRequest(p, id, token, _) => v.(lobby := RegisterPlayer(v.lobby, p, id, token))
    case TimerRound(now, words) =>
      ServerView(v.lobby.(rooms := TickAll(v.lobby.rooms, now, words)), Cleanup(v.table, now))
  }
}
