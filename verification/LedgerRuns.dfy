/** Bookkeeping of saved states over whole runs. Each save gets a serial number,
    and the record says what became of it. */
module LedgerRuns {
  import opened Protocol
  import opened RoomSpec
  import opened MatchSpec
  import opened LedgerSpec

  /** A successful restore of the save with this serial number. */
  datatype Comeback = Comeback(serial: nat, saved: nat, restored: nat)

  /** The table with the serial numbers of its slots, and the totals so far. */
  datatype Record = Record(
    table: seq<Entry>,
    serials: seq<nat>,
    saves: nat,
    comebacks: seq<Comeback>,
    expired: nat,
    gone: nat,
    evicted: nat)

  datatype Event =
    | SaveState(seat: Seat, roomId: nat, now: nat)
    | RestoreState(token: string, rooms: seq<RoomView>, now: nat)
    | CleanUp(now: nat)

  function Start(): Record {
    Record(seq(MAX_DISCONNECTED, _ => Blank()), seq(MAX_DISCONNECTED, _ => 0), 0, [], 0, 0, 0)
  }

  function ValidCount(table: seq<Entry>): nat {
    if table == [] then 0
    else ValidCount(table[..|table| - 1]) + if table[|table| - 1].valid then 1 else 0
  }

  function StaleCount(table: seq<Entry>, now: nat): nat
    requires Settled(table, now)
  {
    if table == [] then 0
    else
      var last := table[|table| - 1];
      StaleCount(table[..|table| - 1], now) + if last.valid && Stale(last, now) then 1 else 0
  }

  ghost predicate WellFormed(r: Record) {
    |r.table| == |r.serials| == MAX_DISCONNECTED
  }

  /** The entry in slot k is used up. */
  function Closed(r: Record, k: nat, outcome: Outcome, now: nat): Record
    requires WellFormed(r) && k < |r.table|
  {
    r.(table := Drop(r.table, k),
       comebacks := r.comebacks + if outcome == Restored then [Comeback(r.serials[k], r.table[k].time, now)] else [],
       expired := r.expired + if outcome == TimedOut then 1 else 0,
       gone := r.gone + if outcome == RoomGone then 1 else 0)
  }

  function Step(r: Record, e: Event): Record
    requires WellFormed(r) && Settled(r.table, e.now)
  {
    match e
    case SaveState(s, roomId, now) =>
      var k := SaveSlot(r.table);
      r.(table := Save(r.table, s, roomId, now),
         serials := r.serials[k := r.saves],
         saves := r.saves + 1,
         evicted := r.evicted + if r.table[k].valid then 1 else 0)
    case RestoreState(token, rooms, now) =>
      var outcome, k := Judge(r.table, token, rooms, now), TokenSlot(r.table, token, |r.table|);
      if outcome == UnknownToken || outcome == RoomFull then r else Closed(r, k, outcome, now)
    case CleanUp(now) =>
      r.(table := Cleanup(r.table, now), expired := r.expired + StaleCount(r.table, now))
  }

  // ----- The invariant -----

  ghost predicate Balanced(r: Record) {
    r.saves == ValidCount(r.table) + |r.comebacks| + r.expired + r.gone + r.evicted
  }

  /** Entries still valid have different serial numbers, none of them restored
      before, and no serial number was restored twice. */
  ghost predicate SingleUse(r: Record)
    requires WellFormed(r)
  {
    && (forall i :: 0 <= i < |r.serials| && r.table[i].valid ==> r.serials[i] < r.saves)
    && (forall i, j :: 0 <= i < j < |r.serials| && r.table[i].valid && r.table[j].valid ==>
          r.serials[i] != r.serials[j])
    && (forall c :: 0 <= c < |r.comebacks| ==> r.comebacks[c].serial < r.saves)
    && (forall c, i :: 0 <= c < |r.comebacks| && 0 <= i < |r.serials| && r.table[i].valid ==>
          r.comebacks[c].serial != r.serials[i])
    && (forall c, d :: 0 <= c < d < |r.comebacks| ==> r.comebacks[c].serial != r.comebacks[d].serial)
  }

  ghost predicate InTime(r: Record) {
    forall c :: 0 <= c < |r.comebacks| ==>
      && r.comebacks[c].saved <= r.comebacks[c].restored
      && (r.comebacks[c].restored - r.comebacks[c].saved) / 1000 <= RECONNECT_TIMEOUT
  }

  ghost predicate Inv(r: Record, t: nat) {
    WellFormed(r) && Settled(r.table, t) && Balanced(r) && SingleUse(r) && InTime(r)
  }

  // ----- Counting -----

  lemma {:induction false} CountUpdate(table: seq<Entry>, k: nat, e: Entry)
    requires k < |table|
    ensures ValidCount(table[k := e]) ==
            ValidCount(table) - (if table[k].valid then 1 else 0) + (if e.valid then 1 else 0)
  {
    var last := |table| - 1;
    if k == last {
      assert table[k := e][..last] == table[..last];
    } else {
      assert table[k := e][..last] == table[..last][k := e];
      CountUpdate(table[..last], k, e);
    }
  }

  lemma {:induction false} CountCleanup(table: seq<Entry>, now: nat)
    requires Settled(table, now)
    ensures ValidCount(Cleanup(table, now)) == ValidCount(table) - StaleCount(table, now)
  {
    if table != [] {
      var last := |table| - 1;
      assert Cleanup(table, now)[..last] == Cleanup(table[..last], now);
      CountCleanup(table[..last], now);
    }
  }

  lemma {:induction false} CountBlank(n: nat)
    ensures ValidCount(seq(n, _ => Blank())) == 0
  {
    if n > 0 {
      assert seq(n, _ => Blank())[..n - 1] == seq(n - 1, _ => Blank());
      CountBlank(n - 1);
    }
  }

  lemma StartInv(t: nat)
    ensures Inv(Start(), t)
  {
    CountBlank(MAX_DISCONNECTED);
  }

  // ----- Steps -----

  lemma SaveKeepsInv(r: Record, t: nat, s: Seat, roomId: nat, now: nat)
    requires Inv(r, t) && t <= now
    ensures Inv(Step(r, SaveState(s, roomId, now)), now)
  {
    CountUpdate(r.table, SaveSlot(r.table), Saved(s, roomId, now));
  }

  lemma RestoreKeepsInv(r: Record, t: nat, token: string, rooms: seq<RoomView>, now: nat)
    requires Inv(r, t) && t <= now
    ensures Inv(Step(r, RestoreState(token, rooms, now)), now)
  {
    var outcome, k := Judge(r.table, token, rooms, now), TokenSlot(r.table, token, |r.table|);
    if outcome == UnknownToken || outcome == RoomFull {
      LaterKeepsInv(r, t, now);
    } else if outcome == Restored {
      ComebackKeepsInv(r, t, k, now);
    } else {
      DropKeepsInv(r, t, k, now, outcome);
    }
  }

  lemma LaterKeepsInv(r: Record, t: nat, now: nat)
    requires Inv(r, t) && t <= now
    ensures Inv(r, now)
  {
  }

  lemma DropKeepsInv(r: Record, t: nat, k: nat, now: nat, outcome: Outcome)
    requires Inv(r, t) && t <= now && k < |r.table| && r.table[k].valid
    requires outcome == TimedOut || outcome == RoomGone
    ensures Inv(Closed(r, k, outcome, now), now)
  {
    CountUpdate(r.table, k, r.table[k].(valid := false));
  }

  lemma ComebackKeepsInv(r: Record, t: nat, k: nat, now: nat)
    requires Inv(r, t) && t <= now && k < |r.table| && r.table[k].valid && !Stale(r.table[k], now)
    ensures Inv(Closed(r, k, Restored, now), now)
  {
    CountUpdate(r.table, k, r.table[k].(valid := false));
  }

  lemma CleanUpKeepsInv(r: Record, t: nat, now: nat)
    requires Inv(r, t) && t <= now
    ensures Inv(Step(r, CleanUp(now)), now)
  {
    CountCleanup(r.table, now);
  }

  lemma StepKeepsInv(r: Record, t: nat, e: Event)
    requires Inv(r, t) && t <= e.now
    ensures Inv(Step(r, e), e.now)
  {
    match e
    case SaveState(s, roomId, now) => SaveKeepsInv(r, t, s, roomId, now);
    case RestoreState(token, rooms, now) => RestoreKeepsInv(r, t, token, rooms, now);
    case CleanUp(now) => CleanUpKeepsInv(r, t, now);
  }

  // ----- Runs -----

  ghost predicate Forward(t: nat, es: seq<Event>)
    decreases |es|
  {
    es != [] ==> t <= es[0].now && Forward(es[0].now, es[1..])
  }

  ghost function Run(r: Record, t: nat, es: seq<Event>): Record
    requires Inv(r, t) && Forward(t, es)
    decreases |es|
  {
    if es == [] then r
    else
      StepKeepsInv(r, t, es[0]);
      Run(Step(r, es[0]), es[0].now, es[1..])
  }

  /** Over every run: each save is still in the table, or was restored, or timed
      out, or found its room gone, or was evicted, and no two of these; each is
      restored at most once, and after no more than RECONNECT_TIMEOUT whole
      seconds. */
  lemma {:induction false} EverySaveAccounted(r: Record, t: nat, es: seq<Event>)
    requires Inv(r, t) && Forward(t, es)
    ensures var s := Run(r, t, es);
            && WellFormed(s)
            && s.saves == ValidCount(s.table) + |s.comebacks| + s.expired + s.gone + s.evicted
            && SingleUse(s) && InTime(s)
    decreases |es|
  {
    if es != [] {
      StepKeepsInv(r, t, es[0]);
      EverySaveAccounted(Step(r, es[0]), es[0].now, es[1..]);
    }
  }
}
