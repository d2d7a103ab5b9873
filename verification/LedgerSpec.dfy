/** The table of disconnected players of server/game/reconnection.c as a value,
    and what becomes of every saved state. */
module LedgerSpec {
  import opened Protocol
  import opened RoomSpec
  import opened MatchSpec

  const MAX_DISCONNECTED: nat := 100

  datatype Entry = Entry(
    token: string,
    playerId: nat,
    roomId: nat,
    state: PlayerState,
    score: int,
    isDrawing: bool,
    hasGuessed: bool,
    time: nat,
    valid: bool)

  function Blank(): Entry {
    Entry("", 0, 0, Lobby, 0, false, false, 0, false)
  }

  /** Tokens are shorter than their 64-byte buffers and copied whole. */
  function Saved(s: Seat, roomId: nat, now: nat): Entry {
    Entry(s.token, s.playerId, roomId, s.state, s.score, s.isDrawing, s.hasGuessed, now, true)
  }

  // ----- Saving -----

  function FreeSlot(table: seq<Entry>, n: nat): (k: int)
    requires n <= |table|
    ensures -1 <= k < n
    ensures k >= 0 ==> !table[k].valid && forall j :: 0 <= j < k ==> table[j].valid
    ensures k == -1 ==> forall j :: 0 <= j < n ==> table[j].valid
  {
    if n == 0 then -1
    else
      var k := FreeSlot(table, n - 1);
      if k >= 0 then k else if !table[n - 1].valid then n - 1 else -1
  }

  /** The first of the slots below n whose entry is oldest. */
  function OldestSlot(table: seq<Entry>, n: nat): (k: nat)
    requires 1 <= n <= |table|
    ensures k < n
    ensures forall j :: 0 <= j < n ==> table[k].time <= table[j].time
    ensures forall j :: 0 <= j < k ==> table[k].time < table[j].time
  {
    if n == 1 then 0
    else
      var k := OldestSlot(table, n - 1);
      if table[n - 1].time < table[k].time then n - 1 else k
  }

  function SaveSlot(table: seq<Entry>): (k: nat)
    requires table != []
    ensures k < |table|
  {
    var free := FreeSlot(table, |table|);
    if free >= 0 then free else OldestSlot(table, |table|)
  }

  function Save(table: seq<Entry>, s: Seat, roomId: nat, now: nat): seq<Entry>
    requires table != []
  {
    table[SaveSlot(table) := Saved(s, roomId, now)]
  }

  /** A save takes the first free slot; only a full table loses an entry, and
      then the first of those disconnected longest ago. */
  lemma SaveEvictsOldest(table: seq<Entry>, k: nat)
    requires k < |table|
    ensures k == SaveSlot(table) <==>
              if exists j :: 0 <= j < |table| && !table[j].valid
              then !table[k].valid && forall j :: 0 <= j < k ==> table[j].valid
              else && (forall j :: 0 <= j < |table| ==> table[k].time <= table[j].time)
                   && forall j :: 0 <= j < k ==> table[k].time < table[j].time
  {
    var s := SaveSlot(table);
    if k < s {
      assert table[k].valid;
    }
  }

  // ----- Restoring -----

  /** The lowest slot with a valid entry for this token, or -1. */
  function TokenSlot(table: seq<Entry>, token: string, n: nat): (k: int)
    requires n <= |table|
    ensures -1 <= k < n
    ensures k >= 0 ==> table[k].valid && table[k].token == token
    ensures k == -1 ==> forall j :: 0 <= j < n ==> !(table[j].valid && table[j].token == token)
  {
    if n == 0 then -1
    else
      var k := TokenSlot(table, token, n - 1);
      if k >= 0 then k else if table[n - 1].valid && table[n - 1].token == token then n - 1 else -1
  }

  /** Of several entries with one token the lowest slot is found. */
  lemma {:induction false} LowestSlotFound(table: seq<Entry>, token: string, n: nat, k: nat)
    requires k < n <= |table| && table[k].valid && table[k].token == token
    ensures TokenSlot(table, token, n) == k <==> forall j :: 0 <= j < k ==> !(table[j].valid && table[j].token == token)
  {
    if k < n - 1 {
      LowestSlotFound(table, token, n - 1, k);
    } else {
      assert TokenSlot(table, token, k) == -1 <==> TokenSlot(table, token, n) == k;
    }
  }

  predicate Stale(e: Entry, now: nat)
    requires e.time <= now
  {
    (now - e.time) / 1000 > RECONNECT_TIMEOUT
  }

  /** No saved state is from the future. */
  predicate Settled(table: seq<Entry>, now: nat) {
    forall j :: 0 <= j < |table| && table[j].valid ==> table[j].time <= now
  }

  datatype Outcome = Restored | UnknownToken | TimedOut | RoomGone | RoomFull

  /** What a restore attempt comes to, given the rooms. */
  function Judge(table: seq<Entry>, token: string, rooms: seq<RoomView>, now: nat): Outcome
    requires Settled(table, now)
  {
    var k := TokenSlot(table, token, |table|);
    if k == -1 then UnknownToken
    else if Stale(table[k], now) then TimedOut
    else
      var i := RoomWithId(rooms, table[k].roomId, |rooms|);
      if i == -1 then RoomGone
      else if |rooms[i].seats| >= MAX_PLAYERS then RoomFull
      else Restored
  }

  function Drop(table: seq<Entry>, k: nat): seq<Entry>
    requires k < |table|
  {
    table[k := table[k].(valid := false)]
  }

  /** The entry is used up unless the token is unknown or the room is full. */
  function AfterRestore(table: seq<Entry>, token: string, outcome: Outcome): seq<Entry> {
    var k := TokenSlot(table, token, |table|);
    if k == -1 || outcome == RoomFull then table else Drop(table, k)
  }

  /** The player gets back what was saved; whether he has drawn is not. */
  function Revived(s: Seat, e: Entry): Seat {
    s.(playerId := e.playerId, score := e.score, state := e.state, isDrawing := e.isDrawing,
       hasGuessed := e.hasGuessed, token := e.token)
  }

  // ----- Expiry -----

  function Cleaned(e: Entry, now: nat): Entry
    requires e.valid ==> e.time <= now
  {
    if e.valid && Stale(e, now) then e.(valid := false) else e
  }

  function Cleanup(table: seq<Entry>, now: nat): (r: seq<Entry>)
    requires Settled(table, now)
    ensures |r| == |table|
    ensures forall i :: 0 <= i < |table| ==> r[i] == Cleaned(table[i], now)
  {
    seq(|table|, i requires 0 <= i < |table| => Cleaned(table[i], now))
  }
}
