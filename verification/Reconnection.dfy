/** The static table of server/game/reconnection.c, written in place. */
module Reconnection {
  import opened Protocol
  import Spec = LedgerSpec

  class Ledger {
    const table: array<Spec.Entry>

    ghost predicate Valid()
      reads this
    {
      table.Length == Spec.MAX_DISCONNECTED
    }

    constructor ()
      ensures Valid() && fresh(table)
      ensures table[..] == seq(Spec.MAX_DISCONNECTED, _ => Spec.Blank())
    {
      table := new Spec.Entry[Spec.MAX_DISCONNECTED](_ => Spec.Blank());
    }

    method FindFree() returns (slot: int)
      requires Valid()
      ensures slot == Spec.FreeSlot(table[..], table.Length)
    {
      slot := -1;
      var i := 0;
      while i < table.Length && slot == -1
        invariant i <= table.Length
        invariant slot == Spec.FreeSlot(table[..], i)
      {
        if !table[i].valid {
          slot := i;
        }
        i := i + 1;
      }
      if slot >= 0 {
        FreeSlotStays(table[..], i);
      }
    }

    static lemma FreeSlotStays(t: seq<Spec.Entry>, n: nat)
      requires n <= |t| && Spec.FreeSlot(t, n) >= 0
      ensures Spec.FreeSlot(t, |t|) == Spec.FreeSlot(t, n)
    {
    }

    method FindOldest() returns (slot: nat)
      requires Valid()
      ensures slot == Spec.OldestSlot(table[..], table.Length)
    {
      slot := 0;
      var oldest := table[0].time;
      for i := 1 to table.Length
        invariant slot == Spec.OldestSlot(table[..], i) && oldest == table[slot].time
      {
        if table[i].time < oldest {
          oldest := table[i].time;
          slot := i;
        }
      }
    }

    method Save(p: Player, roomId: nat, now: nat)
      requires Valid()
      modifies table
      ensures table[..] == Spec.Save(old(table[..]), p.Snapshot(), roomId, now)
    {
      var slot := FindFree();
      if slot == -1 {
        slot := FindOldest();
      }
      table[slot] := Spec.Entry(p.token, p.playerId, roomId, p.state, p.score, p.isDrawing, p.hasGuessed, now, true);
    }

    method FindToken(token: string) returns (slot: int)
      requires Valid()
      ensures slot == Spec.TokenSlot(table[..], token, table.Length)
    {
      slot := -1;
      var i := 0;
      while i < table.Length && slot == -1
        invariant i <= table.Length
        invariant slot == Spec.TokenSlot(table[..], token, i)
      {
        if table[i].valid && table[i].token == token {
          slot := i;
        }
        i := i + 1;
      }
      if slot >= 0 {
        TokenSlotStays(table[..], token, i, table.Length);
      }
    }

    static lemma TokenSlotStays(t: seq<Spec.Entry>, token: string, m: nat, n: nat)
      requires m <= n <= |t| && Spec.TokenSlot(t, token, m) >= 0
      ensures Spec.TokenSlot(t, token, n) == Spec.TokenSlot(t, token, m)
    {
      if m < n {
        TokenSlotStays(t, token, m, n - 1);
      }
    }

    method Invalidate(slot: nat)
      requires Valid() && slot < table.Length
      modifies table
      ensures table[..] == Spec.Drop(old(table[..]), slot)
    {
      table[slot] := table[slot].(valid := false);
    }

    method Cleanup(now: nat)
      requires Valid() && forall j :: 0 <= j < table.Length && table[j].valid ==> table[j].time <= now
      modifies table
      ensures table[..] == Spec.Cleanup(old(table[..]), now)
    {
      for i := 0 to table.Length
        invariant forall j :: 0 <= j < i ==> table[j] == Spec.Cleaned(old(table[j]), now)
        invariant forall j :: i <= j < table.Length ==> table[j] == old(table[j])
      {
        if table[i].valid {
          var elapsed := (now - table[i].time) / 1000;
          if elapsed > RECONNECT_TIMEOUT {
            table[i] := table[i].(valid := false);
          }
        }
      }
    }
  }
}
