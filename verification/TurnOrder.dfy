/** Turn order. The players still to draw form a queue: the cyclic sequence of
    seats after the drawer, without those who have drawn. Starting a turn pops
    its head, and a departure deletes the leaver and nothing else, wherever the
    leaver sits. */
module TurnOrder {
  import opened Protocol
  import opened RoomSpec

  function Names(seats: seq<Seat>): (ps: seq<Player>)
    ensures |ps| == |seats|
    ensures forall i :: 0 <= i < |seats| ==> ps[i] == seats[i].who
  {
    seq(|seats|, i requires 0 <= i < |seats| => seats[i].who)
  }

  /** All seats in the order the search visits them; the drawer comes last. */
  function Rotation(seats: seq<Seat>, drawer: int): (rot: seq<Seat>)
    requires -1 <= drawer < |seats|
    ensures |rot| == |seats|
  {
    seats[drawer + 1..] + seats[..drawer + 1]
  }

  /** The seats that have not drawn, in order. */
  function Pending(seats: seq<Seat>): (ps: seq<Seat>) {
    if seats == [] then []
    else (if seats[0].hasDrawn then [] else [seats[0]]) + Pending(seats[1..])
  }

  function Without(seats: seq<Seat>, p: Player): (rest: seq<Seat>) {
    if seats == [] then []
    else (if seats[0].who == p then [] else [seats[0]]) + Without(seats[1..], p)
  }

  /** The queue of players still to draw. */
  function Upcoming(seats: seq<Seat>, drawer: int): seq<Seat>
    requires -1 <= drawer < |seats|
  {
    Pending(Rotation(seats, drawer))
  }

  // ----- Pending and Without -----

  lemma {:induction false} PendingConcat(a: seq<Seat>, b: seq<Seat>)
    ensures Pending(a + b) == Pending(a) + Pending(b)
  {
    if a == [] {
      assert a + b == b;
    } else {
      assert (a + b)[1..] == a[1..] + b;
      PendingConcat(a[1..], b);
    }
  }

  lemma {:induction false} WithoutConcat(a: seq<Seat>, b: seq<Seat>, p: Player)
    ensures Without(a + b, p) == Without(a, p) + Without(b, p)
  {
    if a == [] {
      assert a + b == b;
    } else {
      assert (a + b)[1..] == a[1..] + b;
      WithoutConcat(a[1..], b, p);
    }
  }

  lemma {:induction false} WithoutAbsent(a: seq<Seat>, p: Player)
    requires forall i :: 0 <= i < |a| ==> a[i].who != p
    ensures Without(a, p) == a
  {
    if a != [] {
      WithoutAbsent(a[1..], p);
    }
  }

  lemma {:induction false} WithoutRemoves(a: seq<Seat>, k: nat)
    requires k < |a| && DistinctSeats(a)
    ensures Without(a, a[k].who) == RemoveAt(a, k)
  {
    var rest := a[1..];
    if k == 0 {
      WithoutAbsent(rest, a[0].who);
    } else {
      WithoutRemoves(rest, k - 1);
      assert rest[k - 1] == a[k];
      assert RemoveAt(a, k) == [a[0]] + RemoveAt(rest, k - 1);
    }
  }

  lemma {:induction false} PendingWithout(a: seq<Seat>, p: Player)
    ensures Pending(Without(a, p)) == Without(Pending(a), p)
  {
    if a != [] {
      PendingWithout(a[1..], p);
      PendingConcat(if a[0].who == p then [] else [a[0]], Without(a[1..], p));
      WithoutConcat(if a[0].hasDrawn then [] else [a[0]], Pending(a[1..]), p);
    }
  }

  lemma {:induction false} PendingCount(a: seq<Seat>)
    ensures |Pending(a)| == Undrawn(a)
  {
    if a != [] {
      var last := |a| - 1;
      assert a == a[..last] + [a[last]];
      PendingConcat(a[..last], [a[last]]);
      PendingCount(a[..last]);
    }
  }

  lemma {:induction false} AllDrawn(a: seq<Seat>)
    requires forall i :: 0 <= i < |a| ==> a[i].hasDrawn
    ensures Pending(a) == []
  {
    if a != [] {
      AllDrawn(a[1..]);
    }
  }

  lemma {:induction false} PendingIn(a: seq<Seat>, i: nat)
    requires i < |a| && !a[i].hasDrawn
    ensures a[i] in Pending(a)
  {
    if i > 0 {
      PendingIn(a[1..], i - 1);
    }
  }

  lemma RotationPending(seats: seq<Seat>, drawer: int)
    requires -1 <= drawer < |seats|
    ensures |Upcoming(seats, drawer)| == Undrawn(seats)
  {
    PendingConcat(seats[drawer + 1..], seats[..drawer + 1]);
    PendingConcat(seats[..drawer + 1], seats[drawer + 1..]);
    assert seats[..drawer + 1] + seats[drawer + 1..] == seats;
    PendingCount(seats);
  }

  // ----- Departures -----

  /** The seats between one stop of the drawer index and the next full circle. */
  function Circle(seats: seq<Seat>, d: nat): seq<Seat>
    requires d < |seats|
  {
    seats[d + 1..] + seats[..d]
  }

  lemma RotationStep(seats: seq<Seat>, d: nat)
    requires d < |seats|
    ensures Rotation(seats, d - 1) == [seats[d]] + Circle(seats, d)
    ensures Rotation(seats, d) == Circle(seats, d) + [seats[d]]
  {
    assert seats[d..] == [seats[d]] + seats[d + 1..];
    assert seats[..d + 1] == seats[..d] + [seats[d]];
  }

  lemma RotationWrap(seats: seq<Seat>)
    requires seats != []
    ensures Rotation(seats, |seats| - 1) == Rotation(seats, -1) == seats
  {
  }

  lemma LeaverBehindDrawer(seats: seq<Seat>, d: nat, k: nat)
    requires d < k < |seats| && DistinctSeats(seats)
    ensures Rotation(RemoveAt(seats, k), d) == Without(Rotation(seats, d), seats[k].who)
  {
    var tail, head := seats[d + 1..], seats[..d + 1];
    WithoutConcat(tail, head, seats[k].who);
    WithoutAbsent(head, seats[k].who);
    WithoutRemoves(tail, k - d - 1);
    assert RemoveAt(seats, k)[d + 1..] == RemoveAt(tail, k - d - 1);
    assert RemoveAt(seats, k)[..d + 1] == head;
  }

  lemma LeaverUpToDrawer(seats: seq<Seat>, d: nat, k: nat)
    requires k <= d < |seats| && DistinctSeats(seats)
    ensures Rotation(RemoveAt(seats, k), d - 1) == Without(Rotation(seats, d), seats[k].who)
  {
    var tail, head := seats[d + 1..], seats[..d + 1];
    WithoutConcat(tail, head, seats[k].who);
    WithoutAbsent(tail, seats[k].who);
    WithoutRemoves(head, k);
    assert RemoveAt(seats, k)[d..] == tail;
    assert RemoveAt(seats, k)[..d] == RemoveAt(head, k);
  }

  lemma OffByOneRotates(seats: seq<Seat>, d: nat)
    requires d < |seats| && 2 <= |seats| && DistinctSeats(seats)
    ensures Rotation(seats, d - 1) != Rotation(seats, d)
  {
    assert Rotation(seats, d - 1)[0] == seats[d];
    assert Rotation(seats, d)[0] == if d + 1 < |seats| then seats[d + 1] else seats[0];
  }

  /** Where the search continues after seat k closed: at the right place, or one
      step early if a stale "drawing" player behind the drawer left. */
  lemma RepairedRotation(seats: seq<Seat>, d: nat, k: nat)
    requires 3 <= |seats| && k < |seats| && d < |seats| && DistinctSeats(seats) && seats[d].isDrawing
    ensures var d' := RepairedDrawer(d, k, seats[k].isDrawing, |seats| - 1);
            && 0 <= d' < |seats| - 1
            && Rotation(RemoveAt(seats, k), d') ==
               Rotation(RemoveAt(seats, k), if d < k && !seats[k].isDrawing then d else d - 1)
  {
    RotationWrap(RemoveAt(seats, k));
  }

  /** Exactly when the leaver is no stale "drawing" player behind the drawer,
      the repaired index keeps the whole rotation in order. */
  lemma RotationSurvivesLeave(seats: seq<Seat>, d: nat, k: nat)
    requires 3 <= |seats| && k < |seats| && d < |seats| && DistinctSeats(seats) && seats[d].isDrawing
    ensures var d' := RepairedDrawer(d, k, seats[k].isDrawing, |seats| - 1);
            && 0 <= d' < |seats| - 1
            && (Rotation(RemoveAt(seats, k), d') == Without(Rotation(seats, d), seats[k].who)
                <==> !(seats[k].isDrawing && d < k))
  {
    RepairedRotation(seats, d, k);
    if d < k {
      LeaverBehindDrawer(seats, d, k);
      RemovedSeatGone(seats, k);
      OffByOneRotates(RemoveAt(seats, k), d);
    } else {
      LeaverUpToDrawer(seats, d, k);
    }
  }

  /** As the drawer has drawn, it does not matter for the queue whether the
      rotation visits the drawer first or last. */
  lemma OffByOneKeepsQueue(seats: seq<Seat>, d: nat)
    requires d < |seats| && seats[d].hasDrawn
    ensures Upcoming(seats, d - 1) == Upcoming(seats, d)
  {
    RotationStep(seats, d);
    PendingConcat([seats[d]], Circle(seats, d));
    PendingConcat(Circle(seats, d), [seats[d]]);
  }

  /** The queue of players still to draw loses the leaver and nothing else. The
      flags of the others are arbitrary: this holds after reconnections too. */
  lemma QueueSurvivesLeave(seats: seq<Seat>, d: nat, k: nat)
    requires 3 <= |seats| && k < |seats| && d < |seats| && DistinctSeats(seats)
    requires seats[d].isDrawing && seats[d].hasDrawn
    ensures var d' := RepairedDrawer(d, k, seats[k].isDrawing, |seats| - 1);
            && 0 <= d' < |seats| - 1
            && Upcoming(RemoveAt(seats, k), d') == Without(Upcoming(seats, d), seats[k].who)
  {
    RepairedRotation(seats, d, k);
    PendingWithout(Rotation(seats, d), seats[k].who);
    if d < k {
      LeaverBehindDrawer(seats, d, k);
      OffByOneKeepsQueue(RemoveAt(seats, k), d);
    } else {
      LeaverUpToDrawer(seats, d, k);
    }
  }

  // ----- The search -----

  /** Seat j of the rotation, as an index into the seats. */
  function Cyclic(drawer: int, j: nat, n: nat): int {
    if drawer + 1 + j < n then drawer + 1 + j else drawer + 1 + j - n
  }

  function FirstPending(rot: seq<Seat>, from: nat): (j: nat)
    requires from <= |rot|
    ensures from <= j <= |rot|
    ensures forall i :: from <= i < j ==> rot[i].hasDrawn
    ensures j < |rot| ==> !rot[j].hasDrawn
    decreases |rot| - from
  {
    if from == |rot| || !rot[from].hasDrawn then from else FirstPending(rot, from + 1)
  }

  lemma StepMod(x: int, n: nat)
    requires 0 < n && -1 <= x < n
    ensures (x + 1) % n == if x + 1 == n then 0 else x + 1
  {
    if x + 1 == n {
      assert (x + 1) % n == n % n == 0;
    }
  }

  /** The search stops at the first pending seat of the rotation, and fails only
      when there is none. */
  lemma {:induction false} SearchVisitsRotation(seats: seq<Seat>, drawer: int, attempts: nat, idx: int)
    requires -1 <= drawer < |seats| && 0 < |seats| && attempts <= |seats|
    requires idx == if attempts == 0 then drawer else Cyclic(drawer, attempts - 1, |seats|)
    ensures var j := FirstPending(Rotation(seats, drawer), attempts);
            && Search(seats, idx, attempts).0 == (j < |seats|)
            && (j < |seats| ==> Search(seats, idx, attempts).1 == Cyclic(drawer, j, |seats|))
    decreases |seats| - attempts
  {
    var n := |seats|;
    StepMod(idx, n);
    if attempts < n {
      assert (idx + 1) % n == Cyclic(drawer, attempts, n);
      assert Rotation(seats, drawer)[attempts] == seats[Cyclic(drawer, attempts, n)];
      if seats[(idx + 1) % n].hasDrawn {
        SearchVisitsRotation(seats, drawer, attempts + 1, (idx + 1) % n);
      }
    }
  }

  /** The search succeeds exactly when somebody is still to draw, and it finds
      the head of the queue. */
  lemma SearchFindsHead(seats: seq<Seat>, drawer: int)
    requires -1 <= drawer < |seats| && 0 < |seats|
    ensures Search(seats, drawer, 0).0 <==> Undrawn(seats) > 0
    ensures Undrawn(seats) > 0 ==>
              Upcoming(seats, drawer) != [] && seats[Search(seats, drawer, 0).1] == Upcoming(seats, drawer)[0]
  {
    var rot := Rotation(seats, drawer);
    var j := FirstPending(rot, 0);
    SearchVisitsRotation(seats, drawer, 0, drawer);
    RotationPending(seats, drawer);
    AllDrawn(rot[..j]);
    assert rot == rot[..j] + rot[j..];
    PendingConcat(rot[..j], rot[j..]);
    if j < |rot| {
      assert rot[j] == seats[Cyclic(drawer, j, |seats|)];
    }
  }

  /** Starting a turn pops the head of the queue: it becomes the drawer, and the
      rest of the queue keeps its order. */
  lemma TurnPopsHead(r: RoomView, now: nat, word: string)
    requires -1 <= r.drawer < |r.seats| && 0 < Undrawn(r.seats)
    ensures var s, queue := TakeTurn(r, now, word), Upcoming(r.seats, r.drawer);
            && s.phase == r.phase && 0 <= s.drawer < |s.seats|
            && queue != [] && s.seats[s.drawer].who == queue[0].who
            && Names(Upcoming(s.seats, s.drawer)) == Names(queue)[1..]
  {
    SearchFindsHead(r.seats, r.drawer);
    var d := Search(r.seats, r.drawer, 0).1;
    QueueSplit(r.seats, r.drawer, d);
    QueueAfterTurn(r.seats, d);
  }

  /** Seen from the new drawer d, only drawn seats lie before it in the old
      rotation, so the queue is d followed by the pending seats of its circle. */
  lemma QueueSplit(seats: seq<Seat>, drawer: int, d: nat)
    requires -1 <= drawer < |seats| && 0 < Undrawn(seats)
    requires d == Search(seats, drawer, 0).1
    ensures d < |seats| && !seats[d].hasDrawn
    ensures Upcoming(seats, drawer) == [seats[d]] + Pending(Circle(seats, d))
  {
    SearchFindsHead(seats, drawer);
    SearchVisitsRotation(seats, drawer, 0, drawer);
    var rot := Rotation(seats, drawer);
    var j := FirstPending(rot, 0);
    assert d == Cyclic(drawer, j, |seats|);
    var before, after := rot[..j], rot[j + 1..];
    AllDrawn(before);
    assert rot == before + ([rot[j]] + after);
    PendingConcat(before, [rot[j]] + after);
    PendingConcat([rot[j]], after);
    PendingConcat(after, before);
    CircleOfRotation(seats, drawer, j);
  }

  lemma CircleOfRotation(seats: seq<Seat>, drawer: int, j: nat)
    requires -1 <= drawer < |seats| && j < |seats|
    ensures 0 <= Cyclic(drawer, j, |seats|) < |seats|
    ensures Rotation(seats, drawer)[j] == seats[Cyclic(drawer, j, |seats|)]
    ensures Rotation(seats, drawer)[j + 1..] + Rotation(seats, drawer)[..j] == Circle(seats, Cyclic(drawer, j, |seats|))
  {
    var rot, d, n := Rotation(seats, drawer), Cyclic(drawer, j, |seats|), |seats|;
    if drawer + 1 + j < n {
      assert rot[j + 1..] == seats[d + 1..] + seats[..drawer + 1];
      assert rot[..j] == seats[drawer + 1..d];
      assert seats[..drawer + 1] + seats[drawer + 1..d] == seats[..d];
    } else {
      assert rot[j + 1..] == seats[d + 1..drawer + 1];
      assert rot[..j] == seats[drawer + 1..] + seats[..d];
      assert seats[d + 1..drawer + 1] + seats[drawer + 1..] == seats[d + 1..];
    }
  }

  lemma QueueAfterTurn(seats: seq<Seat>, d: nat)
    requires d < |seats|
    ensures Names(Upcoming(TurnSeats(seats, d), d)) == Names(Pending(Circle(seats, d)))
  {
    var turned := TurnSeats(seats, d);
    RotationStep(turned, d);
    PendingConcat(Circle(turned, d), [turned[d]]);
    PendingNames(Circle(turned, d), Circle(seats, d));
  }

  lemma {:induction false} PendingNames(a: seq<Seat>, b: seq<Seat>)
    requires |a| == |b|
    requires forall i :: 0 <= i < |a| ==> a[i].who == b[i].who && a[i].hasDrawn == b[i].hasDrawn
    ensures Names(Pending(a)) == Names(Pending(b))
  {
    if a != [] {
      PendingNames(a[1..], b[1..]);
    }
  }
}
