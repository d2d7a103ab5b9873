/** The handlers of server/tcp/tcp_handler.c and the timer thread of
    server/main.c over the two tables they update. Each is proved to take the
    tables to what ServerSpec says. */
module Server {
  import opened Protocol
  import opened Matchmaking
  import opened Reconnection
  import Rooms = RoomSpec
  import Match = MatchSpec
  import Led = LedgerSpec
  import Spec = ServerSpec

  class Server {
    const lobby: Lobby
    const ledger: Ledger

    ghost predicate Valid()
      reads this, lobby, lobby.Repr, ledger, ledger.table
    {
      && lobby.Valid() && ledger.Valid()
      && ledger !in lobby.Repr && ledger.table !in lobby.Repr
    }

    ghost function View(): Spec.ServerView
      reads this, lobby, ledger, ledger.table
    {
      Spec.ServerView(lobby.view, ledger.table[..])
    }

    constructor ()
      ensures Valid() && View() == Spec.Start()
    {
      lobby := new Lobby();
      ledger := new Ledger();
    }

    /** handle_join_room. */
    method HandleJoin(p: Player, now: nat, word: string) returns (ok: bool)
      requires Valid() && lobby.Unseated(p) && Match.Open(View().lobby)
      modifies lobby.Repr, p
      ensures Valid()
      ensures (View().lobby, ok) == Match.JoinMatchmaking(old(View().lobby), old(p.Snapshot()), now, word)
      ensures View().table == old(View().table)
    {
      ok := lobby.JoinMatchmaking(p, now, word);
    }

    /** handle_create_room. */
    method HandleCreate(p: Player, now: nat) returns (ok: bool)
      requires Valid() && lobby.Unseated(p)
      modifies lobby.Repr, p
      ensures Valid()
      ensures (View().lobby, ok) == Match.CreateRoom(old(View().lobby), old(p.Snapshot()), now)
      ensures View().table == old(View().table)
    {
      ok := lobby.CreateRoom(p, now);
    }

    /** handle_register. */
    method HandleRegister(p: Player, id: nat, token: string)
      requires Valid()
      modifies lobby.Repr, p
      ensures Valid()
      ensures View() == old(View()).(lobby := Match.RegisterPlayer(old(View()).lobby, p, id, token))
    {
      lobby.Register(p, id, token);
    }

    /** handle_chat, once the message is extracted. */
    method HandleChat(p: Player, text: string, now: nat, word: string)
      requires Valid() && Match.AllLeavable(lobby.view.rooms) && Match.AllScorable(lobby.view.rooms)
      requires |text| < MAX_CHAT_LEN - 1 && '\0' !in text && Match.WordsFit(lobby.view.rooms)
      modifies lobby.Repr
      ensures Valid()
      ensures View() == old(View()).(lobby := Spec.ChatStep(old(View()).lobby, p, text, now, word))
    {
      var k := lobby.GetPlayerRoom(p);
      if k >= 0 {
        assert Match.Leavable(lobby.view.rooms[k]);
        lobby.ChatAt(k, p, text, now, word);
      }
    }

    /** handle_disconnect. */
    method HandleDisconnect(p: Player, now: nat, word: string)
      requires Valid() && Match.AllLeavable(lobby.view.rooms)
      modifies lobby.Repr, ledger.table
      ensures Valid()
      ensures View().lobby == Match.LeaveRoom(old(View()).lobby, p, now, word)
      ensures View().table == Spec.SaveIfPlaying(old(View()), old(p.Snapshot()), now)
    {
      var k := lobby.GetPlayerRoom(p);
      if k >= 0 {
        if lobby.rooms[k].phase == Playing {
          ledger.Save(p, lobby.rooms[k].roomId, now);
        }
        lobby.LeaveRoom(p, now, word);
      }
    }

    /** One round of the timer thread. */
    method TimerRound(now: nat, words: seq<string>)
      requires Valid() && |words| == MAX_ROOMS && Match.AllReady(View().lobby.rooms, now)
      requires Led.Settled(View().table, now)
      modifies lobby.Repr, ledger.table
      ensures Valid()
      ensures View().lobby == old(View()).lobby.(rooms := Match.TickAll(old(View()).lobby.rooms, now, words))
      ensures View().table == Led.Cleanup(old(View()).table, now)
    {
      lobby.IterateActiveRooms(now, words);
      ledger.Cleanup(now);
    }

    /** The second half of handle_reconnect, for a saved state that is found and
        recent. The player's fields are overwritten even if the room then turns
        out to be full. */
    method Return(p: Player, slot: nat, now: nat) returns (ok: bool)
      requires Valid() && lobby.Unseated(p) && slot < ledger.table.Length
      modifies lobby.Repr, ledger.table, p
      ensures Valid()
      ensures (View(), ok) == Spec.ReturnStep(old(View()), old(p.Snapshot()), slot)
    {
      var e := ledger.table[slot];
      var k := lobby.FindRoomById(e.roomId);
      if k == -1 {
        ledger.Invalidate(slot);
        return false;
      }
      ok := lobby.Reenter(k, p, Led.Revived(p.Snapshot(), e));
      if ok {
        ledger.Invalidate(slot);
      }
    }

    /** handle_reconnect. */
    method HandleReconnect(p: Player, token: string, now: nat) returns (ok: bool)
      requires Valid() && lobby.Unseated(p) && Led.Settled(ledger.table[..], now)
      modifies lobby.Repr, ledger.table, p
      ensures Valid()
      ensures View() == Spec.ReconnectStep(old(View()), old(p.Snapshot()), token, now)
      ensures ok == (Led.Judge(old(View()).table, token, old(View()).lobby.rooms, now) == Led.Restored)
    {
      var slot := ledger.FindToken(token);
      if slot == -1 {
        return false;
      }
      if (now - ledger.table[slot].time) / 1000 > RECONNECT_TIMEOUT {
        ledger.Invalidate(slot);
        return false;
      }
      ok := Return(p, slot, now);
    }
  }
}
