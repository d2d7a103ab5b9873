/** The room table of server/game/matchmaking.c as a value, and its operations
    as functions. */
module MatchSpec {
  import opened Protocol
  import opened RoomSpec

  const LATENCY_TOLERANCE: int := 50

  datatype LobbyView = LobbyView(rooms: seq<RoomView>, nextId: nat)

  // ----- Latency -----

  function TotalRtt(seats: seq<Seat>): nat {
    if seats == [] then 0 else TotalRtt(seats[..|seats| - 1]) + seats[|seats| - 1].rtt
  }

  function MeanRtt(seats: seq<Seat>): nat
    requires seats != []
  {
    TotalRtt(seats) / |seats|
  }

  /** The conversion of an unsigned 64-bit difference to int: its low 32 bits as
      a two's complement number. */
  function Int32(x: int): int {
    (x + 0x8000_0000) % 0x1_0000_0000 - 0x8000_0000
  }

  /** abs() on int; the smallest int has no counterpart and stays as it is. */
  function Abs32(x: int): int {
    if x < 0 then Int32(-x) else x
  }

  function LatencyDiff(rtt: nat, seats: seq<Seat>): int
    requires seats != []
  {
    Abs32(Int32(rtt - MeanRtt(seats)))
  }

  // ----- Choosing a room -----

  predicate Eligible(r: RoomView) {
    0 < |r.seats| < MAX_PLAYERS && !r.isPrivate && r.phase == Waiting && r.round <= 1
  }

  /** The best of the first n rooms and its difference; -1 and the tolerance if
      none is good enough. */
  function BestRoom(rooms: seq<RoomView>, rtt: nat, n: nat): (res: (int, int))
    requires n <= |rooms|
    ensures -1 <= res.0 < n
    ensures res.0 >= 0 ==> Eligible(rooms[res.0])
  {
    if n == 0 then (-1, LATENCY_TOLERANCE)
    else
      var (best, diff) := BestRoom(rooms, rtt, n - 1);
      if Eligible(rooms[n - 1]) && LatencyDiff(rtt, rooms[n - 1].seats) < diff
      then (n - 1, LatencyDiff(rtt, rooms[n - 1].seats))
      else (best, diff)
  }

  /** The first unoccupied slot among the first n, or -1. */
  function FirstFree(rooms: seq<RoomView>, n: nat): (i: int)
    requires n <= |rooms|
    ensures -1 <= i < n
    ensures i >= 0 ==> rooms[i].seats == [] && forall j :: 0 <= j < i ==> rooms[j].seats != []
    ensures i == -1 ==> forall j :: 0 <= j < n ==> rooms[j].seats != []
  {
    if n == 0 then -1
    else
      var i := FirstFree(rooms, n - 1);
      if i >= 0 then i else if rooms[n - 1].seats == [] then n - 1 else -1
  }

  // ----- Operations -----

  /** The rooms on offer have not started, so their drawer index is still -1. */
  ghost predicate Open(l: LobbyView) {
    forall i :: 0 <= i < |l.rooms| && Eligible(l.rooms[i]) ==> l.rooms[i].drawer == -1
  }

  ghost function JoinMatchmaking(l: LobbyView, s: Seat, now: nat, word: string): (LobbyView, bool)
    requires Open(l)
  {
    var best := BestRoom(l.rooms, s.rtt, |l.rooms|).0;
    if best >= 0 then (l.(rooms := l.rooms[best := Admit(l.rooms[best], s, now, word)]), true)
    else
      var free := FirstFree(l.rooms, |l.rooms|);
      if free >= 0 then
        (LobbyView(l.rooms[free := Admit(FreshRoom(l.nextId, false, now), s, now, word)], l.nextId + 1), true)
      else (l, false)
  }

  /** handle_create_room. */
  function CreateRoom(l: LobbyView, s: Seat, now: nat): (LobbyView, bool) {
    var free := FirstFree(l.rooms, |l.rooms|);
    if free >= 0 then
      (LobbyView(l.rooms[free := AddPlayer(FreshRoom(l.nextId, true, now), s).0], l.nextId + 1), true)
    else (l, false)
  }

  /** The first of the first n rooms that seats p, or -1. */
  function RoomOf(rooms: seq<RoomView>, p: Player, n: nat): (i: int)
    requires n <= |rooms|
    ensures -1 <= i < n
    ensures i >= 0 ==> SeatOf(rooms[i].seats, p) >= 0
    ensures forall j :: 0 <= j < (if i >= 0 then i else n) ==> SeatOf(rooms[j].seats, p) == -1
  {
    if n == 0 then -1
    else
      var i := RoomOf(rooms, p, n - 1);
      if i >= 0 then i else if SeatOf(rooms[n - 1].seats, p) >= 0 then n - 1 else -1
  }

  /** The first occupied room with this id among the first n, or -1. */
  function RoomWithId(rooms: seq<RoomView>, id: nat, n: nat): (i: int)
    requires n <= |rooms|
    ensures -1 <= i < n
    ensures i >= 0 ==> rooms[i].id == id && rooms[i].seats != []
    ensures i == -1 ==> forall j :: 0 <= j < n ==> rooms[j].id != id || rooms[j].seats == []
  {
    if n == 0 then -1
    else
      var i := RoomWithId(rooms, id, n - 1);
      if i >= 0 then i else if rooms[n - 1].id == id && rooms[n - 1].seats != [] then n - 1 else -1
  }

  /** An emptied room gives its slot back. */
  function Vacated(r: RoomView): RoomView {
    if r.seats == [] then EmptySlot() else r
  }

  ghost predicate Leavable(r: RoomView) {
    r.phase == Playing ==> 0 <= r.drawer < |r.seats|
  }

  ghost predicate AllLeavable(rooms: seq<RoomView>) {
    forall i :: 0 <= i < |rooms| ==> Leavable(rooms[i])
  }

  ghost function LeaveRoom(l: LobbyView, p: Player, now: nat, word: string): LobbyView
    requires AllLeavable(l.rooms)
  {
    var i := RoomOf(l.rooms, p, |l.rooms|);
    if i == -1 then l
    else
      assert Leavable(l.rooms[i]);
      l.(rooms := l.rooms[i := Vacated(RemovePlayer(l.rooms[i], p, now, word))])
  }

  /** handle_register: every room that points to the player sees the change. */
  function RegisterPlayer(l: LobbyView, p: Player, id: nat, token: string): LobbyView {
    var i := RoomOf(l.rooms, p, |l.rooms|);
    if i == -1 then l
    else l.(rooms := l.rooms[i := RegisterSeat(l.rooms[i], SeatOf(l.rooms[i].seats, p), id, token)])
  }

  /** A guess can be scored in every running room. */
  ghost predicate AllScorable(rooms: seq<RoomView>) {
    forall i :: 0 <= i < |rooms| && rooms[i].phase == Playing ==> 0 <= rooms[i].timeLeft
  }

  /** Every word fits its buffer with room for the terminator. */
  ghost predicate WordsFit(rooms: seq<RoomView>) {
    forall i :: 0 <= i < |rooms| ==> |rooms[i].word| < MAX_WORD_LEN - 1 && '\0' !in rooms[i].word
  }

  ghost predicate AllReady(rooms: seq<RoomView>, now: nat) {
    forall i :: 0 <= i < |rooms| && rooms[i].seats != [] ==> TickReady(rooms[i], now)
  }

  /** One round of the timer thread; words[i] is the word room i would draw. */
  ghost function TickAll(rooms: seq<RoomView>, now: nat, words: seq<string>): (ticked: seq<RoomView>)
    requires |words| == |rooms| && AllReady(rooms, now)
    ensures |ticked| == |rooms|
    ensures forall i :: 0 <= i < |rooms| ==> ticked[i] == Ticked(rooms[i], now, words[i])
  {
    seq(|rooms|, i requires 0 <= i < |rooms| => Ticked(rooms[i], now, words[i]))
  }

  // ----- What the choice means -----

  /** Room b is acceptable, and no acceptable room is nearer; among the nearest
      it comes first. Without b, no room is acceptable. */
  ghost predicate Nearest(rooms: seq<RoomView>, rtt: nat, b: int) {
    && -1 <= b < |rooms|
    && (b == -1 ==> forall i :: 0 <= i < |rooms| && Eligible(rooms[i]) ==>
                      LatencyDiff(rtt, rooms[i].seats) >= LATENCY_TOLERANCE)
    && (b >= 0 ==>
          && Eligible(rooms[b]) && LatencyDiff(rtt, rooms[b].seats) < LATENCY_TOLERANCE
          && forall i :: 0 <= i < |rooms| && Eligible(rooms[i]) ==>
               && LatencyDiff(rtt, rooms[b].seats) <= LatencyDiff(rtt, rooms[i].seats)
               && (i < b ==> LatencyDiff(rtt, rooms[b].seats) < LatencyDiff(rtt, rooms[i].seats)))
  }

  lemma {:induction false} BestRoomPrefix(rooms: seq<RoomView>, rtt: nat, n: nat)
    requires n <= |rooms|
    ensures Nearest(rooms[..n], rtt, BestRoom(rooms, rtt, n).0)
    ensures BestRoom(rooms, rtt, n).1 == (if BestRoom(rooms, rtt, n).0 < 0 then LATENCY_TOLERANCE
                                          else LatencyDiff(rtt, rooms[BestRoom(rooms, rtt, n).0].seats))
  {
    if n > 0 {
      BestRoomPrefix(rooms, rtt, n - 1);
      assert rooms[..n - 1] == rooms[..n][..n - 1];
    }
  }

  lemma NearestUnique(rooms: seq<RoomView>, rtt: nat, a: int, b: int)
    requires Nearest(rooms, rtt, a) && Nearest(rooms, rtt, b)
    ensures a == b
  {
  }

  /** The room chosen is the nearest acceptable one and no other. */
  lemma BestRoomIsNearest(rooms: seq<RoomView>, rtt: nat, b: int)
    ensures Nearest(rooms, rtt, b) <==> b == BestRoom(rooms, rtt, |rooms|).0
  {
    BestRoomPrefix(rooms, rtt, |rooms|);
    assert rooms[..|rooms|] == rooms;
    if Nearest(rooms, rtt, b) {
      NearestUnique(rooms, rtt, b, BestRoom(rooms, rtt, |rooms|).0);
    }
  }

  /** The nearest acceptable room, or the first free slot if none is acceptable. */
  ghost predicate Chosen(l: LobbyView, rtt: nat, i: nat)
    requires i < |l.rooms|
  {
    || Nearest(l.rooms, rtt, i)
    || (Nearest(l.rooms, rtt, -1) && l.rooms[i].seats == [] && forall j :: 0 <= j < i ==> l.rooms[j].seats != [])
  }

  ghost predicate OnlyChange(l: LobbyView, m: LobbyView, i: nat) {
    |m.rooms| == |l.rooms| && forall j :: 0 <= j < |l.rooms| && j != i ==> m.rooms[j] == l.rooms[j]
  }

  /** The slot a join settles on, or -1. */
  function Target(l: LobbyView, rtt: nat): (i: int)
    ensures -1 <= i < |l.rooms|
  {
    var best := BestRoom(l.rooms, rtt, |l.rooms|).0;
    if best >= 0 then best else FirstFree(l.rooms, |l.rooms|)
  }

  lemma TargetIsChosen(l: LobbyView, rtt: nat)
    ensures Target(l, rtt) >= 0 ==> Chosen(l, rtt, Target(l, rtt))
    ensures Target(l, rtt) == -1 <==>
              (Nearest(l.rooms, rtt, -1) && forall i :: 0 <= i < |l.rooms| ==> l.rooms[i].seats != [])
  {
    BestRoomIsNearest(l.rooms, rtt, BestRoom(l.rooms, rtt, |l.rooms|).0);
    BestRoomIsNearest(l.rooms, rtt, -1);
  }

  /** Joining seats the player in the nearest acceptable room; if there is none
      it opens the first free slot, and it fails exactly when there is no free
      slot either. No other room changes. */
  lemma JoinChoosesNearest(l: LobbyView, s: Seat, now: nat, word: string)
    requires Open(l)
    ensures var (m, ok) := JoinMatchmaking(l, s, now, word);
            && (!ok <==> (Nearest(l.rooms, s.rtt, -1) && forall i :: 0 <= i < |l.rooms| ==> l.rooms[i].seats != []))
            && (!ok ==> m == l)
            && (ok ==> exists i :: 0 <= i < |l.rooms| && Chosen(l, s.rtt, i) && OnlyChange(l, m, i) &&
                         SeatOf(m.rooms[i].seats, s.who) >= 0)
  {
    TargetIsChosen(l, s.rtt);
    if Target(l, s.rtt) >= 0 {
      JoinAtTarget(l, s, now, word, Target(l, s.rtt));
    }
  }

  lemma JoinAtTarget(l: LobbyView, s: Seat, now: nat, word: string, i: nat)
    requires Open(l) && i == Target(l, s.rtt)
    ensures var (m, ok) := JoinMatchmaking(l, s, now, word);
            ok && OnlyChange(l, m, i) && SeatOf(m.rooms[i].seats, s.who) >= 0
  {
    var r := if BestRoom(l.rooms, s.rtt, |l.rooms|).0 >= 0 then l.rooms[i] else FreshRoom(l.nextId, false, now);
    JoinUpdates(l, s, now, word, i, r);
    AdmitSeats(r, s, now, word);
  }

  lemma JoinUpdates(l: LobbyView, s: Seat, now: nat, word: string, i: nat, r: RoomView)
    requires Open(l) && i == Target(l, s.rtt) && r.drawer == -1
    requires r == if BestRoom(l.rooms, s.rtt, |l.rooms|).0 >= 0 then l.rooms[i] else FreshRoom(l.nextId, false, now)
    ensures JoinMatchmaking(l, s, now, word).1
    ensures JoinMatchmaking(l, s, now, word).0.rooms == l.rooms[i := Admit(r, s, now, word)]
  {
  }

  lemma AdmitSeats(r: RoomView, s: Seat, now: nat, word: string)
    requires |r.seats| < MAX_PLAYERS && r.drawer == -1
    ensures |Admit(r, s, now, word).seats| == |r.seats| + 1
    ensures SeatOf(Admit(r, s, now, word).seats, s.who) >= 0
  {
    assert Admit(r, s, now, word).seats[|r.seats|].who == s.who;
  }

  // ----- Exactness of the latency difference -----

  /** The difference is exact exactly while it fits an int. */
  lemma LatencyDiffExact(rtt: nat, seats: seq<Seat>)
    requires seats != []
    ensures var d := rtt - MeanRtt(seats);
            LatencyDiff(rtt, seats) == (if d < 0 then -d else d) <==> -0x8000_0000 < d < 0x8000_0000
  {
    var d := rtt - MeanRtt(seats);
    WrapExact(d);
  }

  lemma WrapExact(d: int)
    ensures Int32(d) == d <==> -0x8000_0000 <= d < 0x8000_0000
    ensures -0x8000_0000 <= Int32(d) < 0x8000_0000
  {
  }
}
