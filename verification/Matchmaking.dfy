/** The static room table of server/game/matchmaking.c, updated in place. */
module Matchmaking {
  import opened Protocol
  import opened RoomEngine
  import Rooms = RoomSpec
  import Spec = MatchSpec

  /** Unused slots, all different. */
  method MakeSlots() returns (slots: array<Room>, ghost made: set<object>)
    ensures slots.Length == MAX_ROOMS && fresh(slots) && fresh(made)
    ensures forall i :: 0 <= i < MAX_ROOMS ==>
      && slots[i] in made && slots[i].players in made && slots[i].seated == {}
      && slots[i].Valid() && slots[i].view == Rooms.EmptySlot()
    ensures forall i, j :: 0 <= i < j < MAX_ROOMS ==> slots[i] != slots[j] && slots[i].players != slots[j].players
  {
    var first := new Room();
    slots := new Room[MAX_ROOMS](_ => first);
    made := {first, first.players};
    for n := 1 to MAX_ROOMS
      invariant fresh(made) && slots !in made
      invariant forall i :: 0 <= i < n ==>
        && slots[i] in made && slots[i].players in made && slots[i].seated == {}
        && slots[i].Valid() && slots[i].view == Rooms.EmptySlot()
      invariant forall i, j :: 0 <= i < j < n ==> slots[i] != slots[j] && slots[i].players != slots[j].players
    {
      var r := new Room();
      slots[n] := r;
      made := made + {r, r.players};
    }
  }

  class Lobby {
    const rooms: array<Room>
    var nextRoomId: nat

    ghost var view: Spec.LobbyView
    ghost var Repr: set<object>

    ghost predicate Valid()
      reads this, Repr
    {
      && this in Repr && rooms in Repr
      && rooms.Length == MAX_ROOMS == |view.rooms| && nextRoomId == view.nextId
      && (forall i :: 0 <= i < MAX_ROOMS ==>
            && rooms[i] in Repr && rooms[i].players in Repr && rooms[i].seated <= Repr
            && rooms[i].Valid() && rooms[i].view == view.rooms[i])
      && (forall i, j :: 0 <= i < j < MAX_ROOMS ==> Disjoint(rooms[i], rooms[j]))
    }

    static ghost predicate Disjoint(a: Room, b: Room)
      reads a, b
    {
      a != b && a.players != b.players && a.seated !! b.seated
    }

    /** No room seats p. */
    ghost predicate Unseated(p: Player)
      requires Valid()
      reads this, Repr
    {
      forall i :: 0 <= i < MAX_ROOMS ==> p !in rooms[i].seated
    }

    constructor ()
      ensures Valid() && fresh(Repr)
      ensures view == Spec.LobbyView(seq(MAX_ROOMS, _ => Rooms.EmptySlot()), 1)
    {
      var slots;
      ghost var made;
      slots, made := MakeSlots();
      rooms := slots;
      nextRoomId := 1;
      view := Spec.LobbyView(seq(MAX_ROOMS, _ => Rooms.EmptySlot()), 1);
      new;
      Repr := {this, rooms} + made;
    }

    // ----- Searches -----

    method MeanRtt(k: nat) returns (mean: nat)
      requires Valid() && k < MAX_ROOMS && view.rooms[k].seats != []
      ensures mean == Spec.MeanRtt(view.rooms[k].seats)
    {
      var sum := 0;
      var r := rooms[k];
      ghost var seats := r.view.seats;
      for j := 0 to r.playerCount
        invariant sum == Spec.TotalRtt(seats[..j])
      {
        assert seats[..j + 1][..j] == seats[..j];
        sum := sum + r.players[j].rtt;
      }
      assert seats[..r.playerCount] == seats;
      mean := sum / r.playerCount;
    }

    method IsEligible(k: nat) returns (b: bool)
      requires Valid() && k < MAX_ROOMS
      ensures b == Spec.Eligible(view.rooms[k])
    {
      var r := rooms[k];
      b := 0 < r.playerCount < MAX_PLAYERS && !r.isPrivate && r.phase == Waiting && r.roundNumber <= 1;
    }

    method FindBest(rtt: nat) returns (best: int)
      requires Valid()
      ensures best == Spec.BestRoom(view.rooms, rtt, MAX_ROOMS).0
    {
      best := -1;
      var bestDiff := Spec.LATENCY_TOLERANCE;
      for i := 0 to MAX_ROOMS
        invariant (best, bestDiff) == Spec.BestRoom(view.rooms, rtt, i)
      {
        var eligible := IsEligible(i);
        if eligible {
          var mean := MeanRtt(i);
          var diff := Spec.Abs32(Spec.Int32(rtt - mean));
          if diff < bestDiff {
            best, bestDiff := i, diff;
          }
        }
      }
    }

    method FindFree() returns (free: int)
      requires Valid()
      ensures free == Spec.FirstFree(view.rooms, MAX_ROOMS)
    {
      for i := 0 to MAX_ROOMS
        invariant Spec.FirstFree(view.rooms, i) == -1
      {
        if rooms[i].playerCount == 0 {
          FirstFreeAt(i);
          return i;
        }
      }
      return -1;
    }

    lemma FirstFreeAt(i: nat)
      requires Valid() && i < MAX_ROOMS && view.rooms[i].seats == [] && Spec.FirstFree(view.rooms, i) == -1
      ensures Spec.FirstFree(view.rooms, MAX_ROOMS) == i
    {
      var f := Spec.FirstFree(view.rooms, MAX_ROOMS);
    }

    method GetPlayerRoom(p: Player) returns (k: int)
      requires Valid()
      ensures k == Spec.RoomOf(view.rooms, p, MAX_ROOMS)
    {
      for i := 0 to MAX_ROOMS
        invariant forall j :: 0 <= j < i ==> Rooms.SeatOf(view.rooms[j].seats, p) == -1
      {
        var seat := rooms[i].FindSeat(p);
        if seat >= 0 {
          return i;
        }
      }
      return -1;
    }

    method FindRoomById(id: nat) returns (k: int)
      requires Valid()
      ensures k == Spec.RoomWithId(view.rooms, id, MAX_ROOMS)
    {
      for i := 0 to MAX_ROOMS
        invariant Spec.RoomWithId(view.rooms, id, i) == -1
      {
        if rooms[i].roomId == id && rooms[i].playerCount > 0 {
          RoomWithIdAt(id, i);
          return i;
        }
      }
      return -1;
    }

    lemma RoomWithIdAt(id: nat, i: nat)
      requires Valid() && i < MAX_ROOMS && view.rooms[i].id == id && view.rooms[i].seats != []
      requires Spec.RoomWithId(view.rooms, id, i) == -1
      ensures Spec.RoomWithId(view.rooms, id, MAX_ROOMS) == i
    {
      RoomWithIdFrom(view.rooms, id, i, MAX_ROOMS);
    }

    static lemma RoomWithIdFrom(rooms: seq<RoomView>, id: nat, i: nat, n: nat)
      requires i < n <= |rooms| && rooms[i].id == id && rooms[i].seats != [] && Spec.RoomWithId(rooms, id, i) == -1
      ensures Spec.RoomWithId(rooms, id, n) == i
    {
      if i + 1 < n {
        RoomWithIdFrom(rooms, id, i, n - 1);
      }
    }

    // ----- One room at a time -----

    /** Everything but the value of room k is up to date. */
    ghost predicate ValidBut(k: nat)
      requires k < MAX_ROOMS
      reads this, Repr
    {
      && this in Repr && rooms in Repr
      && rooms.Length == MAX_ROOMS == |view.rooms|
      && (forall i :: 0 <= i < MAX_ROOMS ==> rooms[i] in Repr && rooms[i].players in Repr)
      && (forall i :: 0 <= i < MAX_ROOMS && i != k ==>
            rooms[i].seated <= Repr && rooms[i].Valid() && rooms[i].view == view.rooms[i])
      && (forall i, j :: 0 <= i < j < MAX_ROOMS ==> Disjoint(rooms[i], rooms[j]))
    }

    ghost method Sync(k: nat, added: set<object>)
      requires k < MAX_ROOMS && ValidBut(k)
      requires rooms[k].seated <= Repr + added && rooms[k].Valid()
      modifies this`view, this`Repr
      ensures Valid() && Repr == old(Repr) + added
      ensures view == Spec.LobbyView(old(view).rooms[k := rooms[k].view], nextRoomId)
    {
      Repr := Repr + added;
      view := Spec.LobbyView(view.rooms[k := rooms[k].view], nextRoomId);
    }

    method AdmitAt(k: nat, p: Player, now: nat, word: string)
      requires Valid() && k < MAX_ROOMS && Unseated(p)
      requires |view.rooms[k].seats| < MAX_PLAYERS && view.rooms[k].drawer == -1
      modifies Repr, p
      ensures Valid() && Repr == old(Repr) + {p}
      ensures view == Spec.LobbyView(
        old(view).rooms[k := Rooms.Admit(old(view).rooms[k], old(p.Snapshot()), now, word)], old(view).nextId)
    {
      rooms[k].Admit(p, now, word);
      Sync(k, {p});
    }

    method AddAt(k: nat, p: Player)
      requires Valid() && k < MAX_ROOMS && Unseated(p)
      modifies Repr, p
      ensures Valid() && Repr == old(Repr) + {p}
      ensures view == Spec.LobbyView(
        old(view).rooms[k := Rooms.AddPlayer(old(view).rooms[k], old(p.Snapshot())).0], old(view).nextId)
    {
      var ok := rooms[k].AddPlayer(p);
      Sync(k, {p});
    }

    method ReseatAt(k: nat, p: Player) returns (added: bool)
      requires Valid() && k < MAX_ROOMS && Unseated(p)
      modifies Repr
      ensures Valid() && Repr == old(Repr) + {p} && p.Snapshot() == old(p.Snapshot())
      ensures view == Spec.LobbyView(
        old(view).rooms[k := Rooms.Reseat(old(view).rooms[k], p.Snapshot()).0], old(view).nextId)
      ensures added == Rooms.Reseat(old(view).rooms[k], p.Snapshot()).1
    {
      added := rooms[k].Reseat(p);
      Sync(k, {p});
    }

    method InitAt(k: nat, priv: bool, now: nat)
      requires Valid() && k < MAX_ROOMS && view.rooms[k].seats == []
      modifies this, rooms[k]
      ensures Valid() && Repr == old(Repr)
      ensures view == Spec.LobbyView(
        old(view).rooms[k := Rooms.FreshRoom(old(view).nextId, priv, now)], old(view).nextId + 1)
      ensures forall i :: 0 <= i < MAX_ROOMS ==> rooms[i].seated == old(rooms[i].seated)
    {
      rooms[k].Init(nextRoomId, priv, now);
      nextRoomId := nextRoomId + 1;
      Sync(k, {});
    }

    method RemoveIn(k: nat, p: Player, now: nat, word: string)
      requires Valid() && k < MAX_ROOMS && Spec.Leavable(view.rooms[k])
      requires Rooms.SeatOf(view.rooms[k].seats, p) >= 0
      modifies rooms[k], rooms[k].players, rooms[k].seated
      ensures ValidBut(k) && rooms[k].Valid()
      ensures rooms[k].view == Rooms.RemovePlayer(view.rooms[k], p, now, word)
      ensures p !in rooms[k].seated && rooms[k].seated <= old(rooms[k].seated)
      ensures forall i :: 0 <= i < MAX_ROOMS && i != k ==> rooms[i].seated == old(rooms[i].seated)
    {
      var found := rooms[k].RemovePlayer(p, now, word);
    }

    method RemoveAt(k: nat, p: Player, now: nat, word: string)
      requires Valid() && k < MAX_ROOMS && Spec.Leavable(view.rooms[k])
      requires Rooms.SeatOf(view.rooms[k].seats, p) >= 0
      modifies Repr
      ensures Valid() && Repr == old(Repr) && Unseated(p)
      ensures view == Spec.LobbyView(
        old(view).rooms[k := Rooms.RemovePlayer(old(view).rooms[k], p, now, word)], old(view).nextId)
    {
      RemoveIn(k, p, now, word);
      Sync(k, {});
    }

    /** An emptied room gives its slot back. */
    method ClearIfEmpty(k: nat)
      requires Valid() && k < MAX_ROOMS
      modifies this, rooms[k]
      ensures Valid() && Repr == old(Repr)
      ensures view == Spec.LobbyView(old(view).rooms[k := Spec.Vacated(old(view).rooms[k])], old(view).nextId)
      ensures forall i :: 0 <= i < MAX_ROOMS ==> rooms[i].seated == old(rooms[i].seated)
    {
      if rooms[k].playerCount == 0 {
        rooms[k].Clear();
      }
      Sync(k, {});
    }

    method TickAt(k: nat, now: nat, word: string)
      requires Valid() && k < MAX_ROOMS && (view.rooms[k].seats != [] ==> Rooms.TickReady(view.rooms[k], now))
      modifies Repr
      ensures Valid() && Repr == old(Repr)
      ensures view == Spec.LobbyView(
        old(view).rooms[k := Rooms.Ticked(old(view).rooms[k], now, word)], old(view).nextId)
    {
      if rooms[k].playerCount > 0 && (rooms[k].phase == Playing || rooms[k].phase == Waiting) {
        rooms[k].Tick(now, word);
      }
      Sync(k, {});
    }

    method ChatIn(k: nat, seat: nat, text: string, now: nat, word: string)
      requires Valid() && k < MAX_ROOMS && seat < |view.rooms[k].seats|
      requires Spec.Leavable(view.rooms[k]) && (view.rooms[k].phase == Playing ==> 0 <= view.rooms[k].timeLeft)
      requires |text| < MAX_CHAT_LEN - 1 && '\0' !in text
      requires |view.rooms[k].word| < MAX_WORD_LEN - 1 && '\0' !in view.rooms[k].word
      modifies rooms[k], rooms[k].seated
      ensures ValidBut(k) && rooms[k].Valid() && rooms[k].seated == old(rooms[k].seated)
      ensures rooms[k].view == Rooms.Chat(view.rooms[k], seat, text, now, word)
    {
      rooms[k].Chat(seat, text, now, word);
    }

    method ChatAt(k: nat, p: Player, text: string, now: nat, word: string)
      requires Valid() && k < MAX_ROOMS && Rooms.SeatOf(view.rooms[k].seats, p) >= 0
      requires Spec.Leavable(view.rooms[k]) && (view.rooms[k].phase == Playing ==> 0 <= view.rooms[k].timeLeft)
      requires |text| < MAX_CHAT_LEN - 1 && '\0' !in text
      requires |view.rooms[k].word| < MAX_WORD_LEN - 1 && '\0' !in view.rooms[k].word
      modifies Repr
      ensures Valid() && Repr == old(Repr)
      ensures var seat := Rooms.SeatOf(old(view).rooms[k].seats, p);
              view == Spec.LobbyView(
                old(view).rooms[k := Rooms.Chat(old(view).rooms[k], seat, text, now, word)], old(view).nextId)
    {
      var seat := rooms[k].FindSeat(p);
      ChatIn(k, seat, text, now, word);
      Sync(k, {});
    }

    // ----- The operations of the lobby -----

    static lemma LastUpdateWins<T>(s: seq<T>, i: nat, x: T, y: T)
      requires i < |s|
      ensures s[i := x][i := y] == s[i := y]
    {
    }

    method OpenRoom(k: nat, p: Player, now: nat, word: string)
      requires Valid() && Unseated(p) && k < MAX_ROOMS && view.rooms[k].seats == []
      modifies Repr, p
      ensures Valid() && Repr == old(Repr) + {p}
      ensures view == Spec.LobbyView(
        old(view).rooms[k := Rooms.Admit(Rooms.FreshRoom(old(view).nextId, false, now), old(p.Snapshot()), now, word)],
        old(view).nextId + 1)
    {
      InitAt(k, false, now);
      AdmitAt(k, p, now, word);
      LastUpdateWins(old(view).rooms, k, Rooms.FreshRoom(old(view).nextId, false, now), view.rooms[k]);
    }

    method JoinMatchmaking(p: Player, now: nat, word: string) returns (ok: bool)
      requires Valid() && Unseated(p) && Spec.Open(view)
      modifies Repr, p
      ensures Valid() && old(Repr) <= Repr <= old(Repr) + {p}
      ensures (view, ok) == Spec.JoinMatchmaking(old(view), old(p.Snapshot()), now, word)
    {
      var best := FindBest(p.rtt);
      if best >= 0 {
        AdmitAt(best, p, now, word);
        return true;
      }
      var free := FindFree();
      if free >= 0 {
        OpenRoom(free, p, now, word);
        return true;
      }
      return false;
    }

    method CreateRoom(p: Player, now: nat) returns (ok: bool)
      requires Valid() && Unseated(p)
      modifies Repr, p
      ensures Valid() && old(Repr) <= Repr <= old(Repr) + {p}
      ensures (view, ok) == Spec.CreateRoom(old(view), old(p.Snapshot()), now)
    {
      var free := FindFree();
      ok := free >= 0;
      if ok {
        InitAt(free, true, now);
        AddAt(free, p);
        LastUpdateWins(old(view).rooms, free, Rooms.FreshRoom(old(view).nextId, true, now), view.rooms[free]);
      }
    }

    /** The player leaves room k, which gives its slot back if that empties it. */
    method Depart(k: nat, p: Player, now: nat, word: string)
      requires Valid() && k < MAX_ROOMS && Spec.Leavable(view.rooms[k])
      requires Rooms.SeatOf(view.rooms[k].seats, p) >= 0
      modifies Repr
      ensures Valid() && Repr == old(Repr) && Unseated(p)
      ensures view == Spec.LobbyView(
        old(view).rooms[k := Spec.Vacated(Rooms.RemovePlayer(old(view).rooms[k], p, now, word))], old(view).nextId)
    {
      RemoveAt(k, p, now, word);
      ClearIfEmpty(k);
      LastUpdateWins(old(view).rooms, k, Rooms.RemovePlayer(old(view).rooms[k], p, now, word), view.rooms[k]);
    }

    method LeaveRoom(p: Player, now: nat, word: string)
      requires Valid() && Spec.AllLeavable(view.rooms)
      modifies Repr
      ensures Valid() && Repr == old(Repr)
      ensures view == Spec.LeaveRoom(old(view), p, now, word)
      ensures Spec.RoomOf(old(view).rooms, p, MAX_ROOMS) >= 0 ==> Unseated(p)
    {
      var k := GetPlayerRoom(p);
      if k >= 0 {
        Depart(k, p, now, word);
      }
    }

    /** Writing the fields of a player seated in room k. */
    method RegisterIn(k: nat, seat: nat, p: Player, id: nat, token: string)
      requires Valid() && k < MAX_ROOMS && seat < |view.rooms[k].seats| && view.rooms[k].seats[seat].who == p
      modifies p
      ensures ValidBut(k) && rooms[k].ValidWith(Rooms.RegisterSeat(view.rooms[k], seat, id, token))
    {
      p.Register(id, token);
    }

    ghost method NoticeIn(k: nat, r: Room, v: RoomView)
      requires k < MAX_ROOMS && ValidBut(k) && r == rooms[k] && r.ValidWith(v)
      modifies r`view
      ensures ValidBut(k) && r.Valid() && r.view == v
    {
      r.Notice(v);
    }

    /** Writing the fields of a player seated nowhere. */
    method RegisterOutside(p: Player, id: nat, token: string)
      requires Valid() && Spec.RoomOf(view.rooms, p, MAX_ROOMS) == -1
      modifies p
      ensures Valid()
    {
      p.Register(id, token);
      assert forall i :: 0 <= i < MAX_ROOMS ==> rooms[i].Valid();
    }

    method RegisterAt(k: nat, seat: nat, p: Player, id: nat, token: string)
      requires Valid() && k < MAX_ROOMS && seat < |view.rooms[k].seats| && view.rooms[k].seats[seat].who == p
      modifies Repr, p
      ensures Valid() && Repr == old(Repr)
      ensures view == Spec.LobbyView(
        old(view).rooms[k := Rooms.RegisterSeat(old(view).rooms[k], seat, id, token)], old(view).nextId)
    {
      RegisterIn(k, seat, p, id, token);
      NoticeIn(k, rooms[k], Rooms.RegisterSeat(view.rooms[k], seat, id, token));
      Sync(k, {});
    }

    /** The player's fields are written; a room that seats the player sees it. The
        lookup changes nothing: it tells which room that is. */
    method Register(p: Player, id: nat, token: string)
      requires Valid()
      modifies Repr, p
      ensures Valid() && Repr == old(Repr)
      ensures view == Spec.RegisterPlayer(old(view), p, id, token)
    {
      var k := GetPlayerRoom(p);
      if k >= 0 {
        var seat := rooms[k].FindSeat(p);
        RegisterAt(k, seat, p, id, token);
      } else {
        RegisterOutside(p, id, token);
      }
    }

    /** Overwriting the fields of an unseated player touches no room. */
    method CopyBack(p: Player, saved: Seat)
      requires Valid() && Unseated(p)
      modifies p
      ensures Valid() && Unseated(p)
      ensures p.Snapshot() == old(p.Snapshot()).(
        playerId := saved.playerId, score := saved.score, state := saved.state, isDrawing := saved.isDrawing,
        hasGuessed := saved.hasGuessed, token := saved.token)
    {
      p.CopyBack(saved);
      assert forall i :: 0 <= i < MAX_ROOMS ==> rooms[i].Valid();
    }

    method Reenter(k: nat, p: Player, saved: Seat) returns (added: bool)
      requires Valid() && Unseated(p) && k < MAX_ROOMS
      modifies Repr, p
      ensures Valid() && Repr == old(Repr) + {p}
      ensures var s := old(p.Snapshot()).(
                playerId := saved.playerId, score := saved.score, state := saved.state, isDrawing := saved.isDrawing,
                hasGuessed := saved.hasGuessed, token := saved.token);
              && added == (|old(view).rooms[k].seats| < MAX_PLAYERS)
              && view == if added
                         then old(view).(rooms := old(view).rooms[k := Rooms.Reseat(old(view).rooms[k], s).0])
                         else old(view)
    {
      CopyBack(p, saved);
      added := ReseatAt(k, p);
      assert old(view).rooms[k := old(view).rooms[k]] == old(view).rooms;
    }

    method IterateActiveRooms(now: nat, words: seq<string>)
      requires Valid() && |words| == MAX_ROOMS && Spec.AllReady(view.rooms, now)
      modifies Repr
      ensures Valid() && Repr == old(Repr)
      ensures view == Spec.LobbyView(Spec.TickAll(old(view).rooms, now, words), old(view).nextId)
    {
      for i := 0 to MAX_ROOMS
        invariant Valid() && Repr == old(Repr) && view.nextId == old(view).nextId
        invariant forall j :: 0 <= j < i ==> view.rooms[j] == Rooms.Ticked(old(view).rooms[j], now, words[j])
        invariant forall j :: i <= j < MAX_ROOMS ==> view.rooms[j] == old(view).rooms[j]
      {
        TickAt(i, now, words[i]);
      }
    }
  }
}
