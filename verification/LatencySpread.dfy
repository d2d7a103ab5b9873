/** How far apart the round-trip times in one matched room can lie. */
module LatencySpread {
  import opened Protocol
  import opened RoomSpec
  import opened MatchSpec

  /** Each player after the first was within the tolerance of the mean of the
      players before: a room that only matchmaking filled and nobody left. */
  predicate Matched(seats: seq<Seat>) {
    forall k :: 1 <= k < |seats| ==> LatencyDiff(seats[k].rtt, seats[..k]) < LATENCY_TOLERANCE
  }

  ghost predicate SameRtts(a: seq<Seat>, b: seq<Seat>) {
    |a| == |b| && forall i :: 0 <= i < |a| ==> a[i].rtt == b[i].rtt
  }

  lemma {:induction false} SameTotals(a: seq<Seat>, b: seq<Seat>)
    requires SameRtts(a, b)
    ensures TotalRtt(a) == TotalRtt(b)
  {
    if a != [] {
      SameTotals(a[..|a| - 1], b[..|b| - 1]);
    }
  }

  lemma SameMatched(a: seq<Seat>, b: seq<Seat>)
    requires SameRtts(a, b) && Matched(a)
    ensures Matched(b)
  {
    forall k | 1 <= k < |b| ensures LatencyDiff(b[k].rtt, b[..k]) < LATENCY_TOLERANCE {
      SameTotals(a[..k], b[..k]);
    }
  }

  lemma AdmitRtts(r: RoomView, s: Seat, now: nat, word: string)
    requires |r.seats| < MAX_PLAYERS && r.drawer == -1
    ensures SameRtts(r.seats + [s], Admit(r, s, now, word).seats)
  {
  }

  /** Matchmaking keeps every public room matched. */
  lemma JoinKeepsMatched(l: LobbyView, s: Seat, now: nat, word: string, j: nat)
    requires Open(l) && j < |l.rooms| && Matched(l.rooms[j].seats)
    ensures Matched(JoinMatchmaking(l, s, now, word).0.rooms[j].seats)
  {
    var i := Target(l, s.rtt);
    BestRoomIsNearest(l.rooms, s.rtt, BestRoom(l.rooms, s.rtt, |l.rooms|).0);
    if i == j {
      var r := if Eligible(l.rooms[i]) then l.rooms[i] else FreshRoom(l.nextId, false, now);
      AdmitRtts(r, s, now, word);
      OneMoreMatched(r.seats, s);
      SameMatched(r.seats + [s], Admit(r, s, now, word).seats);
    }
  }

  lemma OneMoreMatched(seats: seq<Seat>, s: Seat)
    requires Matched(seats) && (seats != [] ==> LatencyDiff(s.rtt, seats) < LATENCY_TOLERANCE)
    ensures Matched(seats + [s])
  {
    forall k | 1 <= k <= |seats|
      ensures LatencyDiff((seats + [s])[k].rtt, (seats + [s])[..k]) < LATENCY_TOLERANCE
    {
      assert (seats + [s])[..k] == seats[..k];
      assert seats[..|seats|] == seats;
    }
  }

  lemma NextRoundRtts(r: RoomView, now: nat, word: string)
    requires -1 <= r.drawer
    ensures SameRtts(r.seats, StartNextRound(r, now, word).seats)
  {
  }

  lemma CountdownRtts(r: RoomView, now: nat, word: string)
    requires TickReady(r, now)
    ensures SameRtts(r.seats, CheckCountdown(r, now, word).seats)
  {
    if r.phase == Waiting && r.countdownActive {
      var elapsed := (now - r.countdownStart) / 1000;
      NextRoundRtts(r.(countdownActive := false, phase := Playing, round := 0, total := |r.seats|,
                       seats := ResetSeats(r.seats)), now, word);
    }
  }

  lemma TimerRtts(r: RoomView, now: nat, word: string)
    requires r.phase == Playing ==> 0 <= r.drawer && r.roundStart <= now
    ensures SameRtts(r.seats, UpdateTimer(r, now, word).seats)
  {
    if r.phase == Playing {
      NextRoundRtts(Send(r.(timeLeft := 0), Announce(RoundEnd)), now, word);
    }
  }

  /** The timer moves nobody, so a room stays matched from the first player to
      the end of the game unless somebody leaves. */
  lemma TickKeepsMatched(r: RoomView, now: nat, word: string)
    requires TickReady(r, now) && Matched(r.seats)
    ensures Matched(Ticked(r, now, word).seats)
  {
    CountdownRtts(r, now, word);
    TimerRtts(CheckCountdown(r, now, word), now, word);
    SameMatched(r.seats, Ticked(r, now, word).seats);
  }

  // ----- The bound -----

  /** Every int-sized round-trip time. */
  predicate IntSized(seats: seq<Seat>) {
    forall i :: 0 <= i < |seats| ==> seats[i].rtt < 0x8000_0000
  }

  lemma {:induction false} TotalBelow(seats: seq<Seat>)
    requires IntSized(seats)
    ensures TotalRtt(seats) <= |seats| * 0x7FFF_FFFF
  {
    if seats != [] {
      TotalBelow(seats[..|seats| - 1]);
    }
  }

  lemma MatchedExact(seats: seq<Seat>, k: nat)
    requires Matched(seats) && IntSized(seats) && 1 <= k < |seats| <= 5
    ensures -LATENCY_TOLERANCE < seats[k].rtt - TotalRtt(seats[..k]) / k < LATENCY_TOLERANCE
  {
    TotalBelow(seats[..k]);
    MeanBelow(TotalRtt(seats[..k]), k);
    LatencyDiffExact(seats[k].rtt, seats[..k]);
  }

  lemma MeanBelow(total: nat, k: nat)
    requires 1 <= k <= 4 && total <= k * 0x7FFF_FFFF
    ensures total / k <= 0x7FFF_FFFF
  {
    if k == 1 {
      assert total / 1 == total;
    } else if k == 2 {
    } else if k == 3 {
    }
  }

  lemma Totals(seats: seq<Seat>, k: nat)
    requires k < |seats|
    ensures TotalRtt(seats[..k + 1]) == TotalRtt(seats[..k]) + seats[k].rtt
  {
    assert seats[..k + 1][..k] == seats[..k];
  }

  predicate Near(a: int, b: int, d: nat) {
    a - b <= d && b - a <= d
  }

  /** Five numbers, each within 49 of the floored mean of those before. */
  lemma FiveNumbers(a: nat, b: nat, c: nat, d: nat, e: nat)
    requires Near(b, a, 49) && Near(c, (a + b) / 2, 49)
    requires Near(d, (a + b + c) / 3, 49) && Near(e, (a + b + c + d) / 4, 49)
    ensures Near(a, c, 74) && Near(b, c, 74)
    ensures Near(a, d, 90) && Near(b, d, 90) && Near(c, d, 90)
    ensures Near(a, e, 103) && Near(b, e, 103) && Near(c, e, 103) && Near(d, e, 103)
  {
  }

  function SpreadOf(k: nat): nat {
    if k == 0 then 0 else if k == 1 then 49 else if k == 2 then 74 else if k == 3 then 90 else 103
  }

  /** In a matched room of at most five, the player on seat k is within
      SpreadOf(k) of everyone before, and so any two are within 103 ms. */
  lemma SpreadBound(seats: seq<Seat>, i: nat, k: nat)
    requires Matched(seats) && IntSized(seats) && i < k < |seats| <= 5
    ensures Near(seats[i].rtt, seats[k].rtt, SpreadOf(k)) && SpreadOf(k) <= 103
  {
    assert seats[..0] == [];
    Totals(seats, 0);
    forall j | 1 <= j < |seats|
      ensures -50 < seats[j].rtt - TotalRtt(seats[..j]) / j < 50
    {
      MatchedExact(seats, j);
    }
    forall j | 1 <= j < |seats| - 1
      ensures TotalRtt(seats[..j + 1]) == TotalRtt(seats[..j]) + seats[j].rtt
    {
      Totals(seats, j);
    }
    Spread5(seats, i, k);
  }

  /** The same over the numbers alone; missing players count as the mean. */
  lemma Spread5(seats: seq<Seat>, i: nat, k: nat)
    requires i < k < |seats| <= 5
    requires TotalRtt(seats[..1]) == seats[0].rtt
    requires forall j :: 1 <= j < |seats| ==> -50 < seats[j].rtt - TotalRtt(seats[..j]) / j < 50
    requires forall j :: 1 <= j < |seats| - 1 ==> TotalRtt(seats[..j + 1]) == TotalRtt(seats[..j]) + seats[j].rtt
    ensures Near(seats[i].rtt, seats[k].rtt, SpreadOf(k))
  {
    var a, b := seats[0].rtt, seats[1].rtt;
    assert TotalRtt(seats[..1]) / 1 == a;
    var c := if |seats| >= 3 then seats[2].rtt else (a + b) / 2;
    var d := if |seats| >= 4 then seats[3].rtt else (a + b + c) / 3;
    var e := if |seats| >= 5 then seats[4].rtt else (a + b + c + d) / 4;
    FiveNumbers(a, b, c, d, e);
  }
}
