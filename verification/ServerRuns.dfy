/** Every step of the server is, seen from one slot of the room table, a step of
    that room, its opening or its clearing. So what is proved about single rooms
    holds in the server, and the rooms never get mixed up. */
module ServerRuns {
  import opened Protocol
  import opened RoomSpec
  import opened MatchSpec
  import opened LedgerSpec
  import opened ServerSpec
  import R = RoomInvariant
  import Runs

  // ----- One slot -----

  /** The slot that a newcomer takes in this step, and the newcomer. */
  function Arrival(v: ServerView, e: Event): (i: int)
    requires |v.lobby.rooms| == MAX_ROOMS
    requires Settled(v.table, e.now)
    ensures -1 <= i < MAX_ROOMS
  {
    match e
    case JoinRequest(s, _, _) => Target(v.lobby, s.rtt)
    case CreateRequest(s, _) => FirstFree(v.lobby.rooms, MAX_ROOMS)
    case Reconnect(s, token, now) =>
      if Judge(v.table, token, v.lobby.rooms, now) == Restored
      then RoomWithId(v.lobby.rooms, v.table[TokenSlot(v.table, token, |v.table|)].roomId, MAX_ROOMS)
      else -1
    case _ => -1
  }

  function NewPlayer(e: Event): Option<Player> {
    if e.JoinRequest? || e.CreateRequest? || e.Reconnect? then Some(e.seat.who) else None
  }

  /** The step of the room in slot i that a step of the server amounts to. */
  function RoomEvent(v: ServerView, e: Event, i: nat): Option<R.Event>
    requires |v.lobby.rooms| == MAX_ROOMS && i < MAX_ROOMS
    requires Settled(v.table, e.now)
    requires e.TimerRound? ==> |e.words| == MAX_ROOMS
  {
    match e
    case JoinRequest(s, now, word) => if Arrival(v, e) == i then Some(R.Join(s, now, word)) else None
    case CreateRequest(_, _) => None
    case ChatMessage(p, text, now, word) =>
      if RoomOf(v.lobby.rooms, p, MAX_ROOMS) == i then Some(R.Say(p, text, now, word)) else None
    case Disconnect(s, now, word) =>
      if RoomOf(v.lobby.rooms, s.who, MAX_ROOMS) == i then Some(R.Leave(s.who, now, word)) else None
    case Reconnect(s, token, now) =>
      if Arrival(v, e) == i
      then Some(R.Rejoin(Revived(s, v.table[TokenSlot(v.table, token, |v.table|)]), now))
      else None
    case RegisterRequest(p, id, token, now) =>
      if RoomOf(v.lobby.rooms, p, MAX_ROOMS) == i then Some(R.Register(p, id, token, now)) else None
    case TimerRound(now, words) => Some(R.TimerTick(now, words[i]))
  }

  /** r' is the room r after its step re; a room that its last player left gives
      its slot back. */
  ghost predicate Projects(r: RoomView, t: nat, now: nat, re: Option<R.Event>, r': RoomView) {
    && R.Inv(r, t) && t <= now
    && (re == None ==> r' == r)
    && (re.Some? ==>
          && re.value.now == now && R.Enabled(r, re.value)
          && r' == if re.value.Leave? then Vacated(R.Step(r, t, re.value)) else R.Step(r, t, re.value))
  }

  lemma UnseatedHere(rooms: seq<RoomView>, p: Player, i: nat)
    requires i < |rooms| && RoomOf(rooms, p, |rooms|) == -1
    ensures SeatOf(rooms[i].seats, p) == -1
  {
  }

  lemma JoinProjects(v: ServerView, t: nat, s: Seat, now: nat, word: string, i: nat)
    requires Inv(v, t) && t <= now && i < MAX_ROOMS && v.lobby.rooms[i].seats != []
    requires RoomOf(v.lobby.rooms, s.who, MAX_ROOMS) == -1 && Open(v.lobby) && Settled(v.table, now)
    ensures Projects(v.lobby.rooms[i], t, now, RoomEvent(v, JoinRequest(s, now, word), i),
                     JoinMatchmaking(v.lobby, s, now, word).0.rooms[i])
  {
    assert RoomOk(v.lobby.rooms[i], t, v.lobby.nextId);
    UnseatedHere(v.lobby.rooms, s.who, i);
  }

  lemma CreateProjects(v: ServerView, t: nat, s: Seat, now: nat, i: nat)
    requires Inv(v, t) && t <= now && i < MAX_ROOMS && v.lobby.rooms[i].seats != []
    ensures Projects(v.lobby.rooms[i], t, now, None, CreateRoom(v.lobby, s, now).0.rooms[i])
  {
    assert RoomOk(v.lobby.rooms[i], t, v.lobby.nextId);
  }

  lemma ReconnectProjects(v: ServerView, t: nat, s: Seat, token: string, now: nat, i: nat)
    requires Inv(v, t) && t <= now && i < MAX_ROOMS && v.lobby.rooms[i].seats != []
    requires RoomOf(v.lobby.rooms, s.who, MAX_ROOMS) == -1 && Settled(v.table, now)
    ensures Projects(v.lobby.rooms[i], t, now, RoomEvent(v, Reconnect(s, token, now), i),
                     ReconnectStep(v, s, token, now).lobby.rooms[i])
  {
    assert RoomOk(v.lobby.rooms[i], t, v.lobby.nextId);
    UnseatedHere(v.lobby.rooms, s.who, i);
    var k := TokenSlot(v.table, token, |v.table|);
    if k >= 0 {
      assert EntryOk(v.table[k], v.lobby.rooms, t, v.lobby.nextId);
    }
  }

  lemma ChatProjects(v: ServerView, t: nat, p: Player, text: string, now: nat, word: string, i: nat)
    requires Inv(v, t) && t <= now && i < MAX_ROOMS && v.lobby.rooms[i].seats != [] && Settled(v.table, now)
    requires AllLeavable(v.lobby.rooms) && AllScorable(v.lobby.rooms)
    ensures Projects(v.lobby.rooms[i], t, now, RoomEvent(v, ChatMessage(p, text, now, word), i),
                     ChatStep(v.lobby, p, text, now, word).rooms[i])
  {
    assert RoomOk(v.lobby.rooms[i], t, v.lobby.nextId);
  }

  lemma LeaveProjects(v: ServerView, t: nat, s: Seat, now: nat, word: string, i: nat)
    requires Inv(v, t) && t <= now && i < MAX_ROOMS && v.lobby.rooms[i].seats != [] && Settled(v.table, now)
    requires AllLeavable(v.lobby.rooms)
    ensures Projects(v.lobby.rooms[i], t, now, RoomEvent(v, Disconnect(s, now, word), i),
                     LeaveRoom(v.lobby, s.who, now, word).rooms[i])
  {
    assert RoomOk(v.lobby.rooms[i], t, v.lobby.nextId);
  }

  lemma TimerProjects(v: ServerView, t: nat, now: nat, words: seq<string>, i: nat)
    requires Inv(v, t) && t <= now && i < MAX_ROOMS && v.lobby.rooms[i].seats != [] && Settled(v.table, now)
    requires |words| == MAX_ROOMS && AllReady(v.lobby.rooms, now)
    ensures Projects(v.lobby.rooms[i], t, now, RoomEvent(v, TimerRound(now, words), i),
                     TickAll(v.lobby.rooms, now, words)[i])
  {
    assert RoomOk(v.lobby.rooms[i], t, v.lobby.nextId);
  }

  lemma RegisterProjects(v: ServerView, t: nat, p: Player, id: nat, token: string, now: nat, i: nat)
    requires Inv(v, t) && t <= now && i < MAX_ROOMS && v.lobby.rooms[i].seats != [] && Settled(v.table, now)
    ensures Projects(v.lobby.rooms[i], t, now, RoomEvent(v, RegisterRequest(p, id, token, now), i),
                     RegisterPlayer(v.lobby, p, id, token).rooms[i])
  {
    assert RoomOk(v.lobby.rooms[i], t, v.lobby.nextId);
  }

  lemma ArrivalProjects(v: ServerView, t: nat, e: Event, i: nat)
    requires Inv(v, t) && t <= e.now && Enabled(v, e) && i < MAX_ROOMS && v.lobby.rooms[i].seats != []
    requires e.JoinRequest? || e.CreateRequest? || e.Reconnect?
    ensures Settled(v.table, e.now)
    ensures |Step(v, t, e).lobby.rooms| == MAX_ROOMS
    ensures Projects(v.lobby.rooms[i], t, e.now, RoomEvent(v, e, i), Step(v, t, e).lobby.rooms[i])
  {
    InvFacts(v, t, e.now);
    match e
    case JoinRequest(s, now, word) => JoinProjects(v, t, s, now, word, i);
    case CreateRequest(s, now) => CreateProjects(v, t, s, now, i);
    case Reconnect(s, token, now) => ReconnectProjects(v, t, s, token, now, i);
  }

  lemma PlayProjects(v: ServerView, t: nat, e: Event, i: nat)
    requires Inv(v, t) && t <= e.now && Enabled(v, e) && i < MAX_ROOMS && v.lobby.rooms[i].seats != []
    requires e.ChatMessage? || e.Disconnect? || e.RegisterRequest? || e.TimerRound?
    ensures Settled(v.table, e.now)
    ensures |Step(v, t, e).lobby.rooms| == MAX_ROOMS
    ensures Projects(v.lobby.rooms[i], t, e.now, RoomEvent(v, e, i), Step(v, t, e).lobby.rooms[i])
  {
    InvFacts(v, t, e.now);
    match e
    case ChatMessage(p, text, now, word) => ChatProjects(v, t, p, text, now, word, i);
    case Disconnect(s, now, word) => LeaveProjects(v, t, s, now, word, i);
    case RegisterRequest(p, id, token, now) => RegisterProjects(v, t, p, id, token, now, i);
    case TimerRound(now, words) => TimerProjects(v, t, now, words, i);
  }

  /** A step of the server with an occupied room i is the room's own step, and
      one that can happen there. */
  lemma StepProjects(v: ServerView, t: nat, e: Event, i: nat)
    requires Inv(v, t) && t <= e.now && Enabled(v, e) && i < MAX_ROOMS && v.lobby.rooms[i].seats != []
    ensures Settled(v.table, e.now)
    ensures |Step(v, t, e).lobby.rooms| == MAX_ROOMS
    ensures Projects(v.lobby.rooms[i], t, e.now, RoomEvent(v, e, i), Step(v, t, e).lobby.rooms[i])
  {
    if e.JoinRequest? || e.CreateRequest? || e.Reconnect? {
      ArrivalProjects(v, t, e, i);
    } else {
      PlayProjects(v, t, e, i);
    }
  }

  // ----- Opening a slot -----

  /** What an unoccupied slot can become. */
  ghost predicate Opens(v: ServerView, e: Event, r': RoomView) {
    match e
    case JoinRequest(s, now, word) => r' == Admit(FreshRoom(v.lobby.nextId, false, now), s, now, word)
    case CreateRequest(s, now) => r' == AddPlayer(FreshRoom(v.lobby.nextId, true, now), s).0
    case _ => false
  }

  /** An unoccupied slot stays as it is, or it is opened by the arrival. */
  lemma StepOpens(v: ServerView, t: nat, e: Event, i: nat)
    requires Inv(v, t) && t <= e.now && Enabled(v, e) && i < MAX_ROOMS && v.lobby.rooms[i].seats == []
    ensures Settled(v.table, e.now)
    ensures |Step(v, t, e).lobby.rooms| == MAX_ROOMS
    ensures var r' := Step(v, t, e).lobby.rooms[i];
            && (r' == v.lobby.rooms[i] ||
                (Opens(v, e, r') && Arrival(v, e) == i && Step(v, t, e).lobby.nextId == v.lobby.nextId + 1))
  {
    InvFacts(v, t, e.now);
  }

  // ----- The invariant, slot by slot -----

  lemma LaterInv(r: RoomView, t: nat, now: nat)
    requires R.Inv(r, t) && t <= now
    ensures R.Inv(r, now)
  {
  }

  lemma ProjectsInv(r: RoomView, t: nat, now: nat, re: Option<R.Event>, r': RoomView)
    requires Projects(r, t, now, re, r') && r.seats != []
    ensures if r'.seats == [] then r' == EmptySlot()
            else R.Inv(r', now) && r'.id == r.id && (r.phase != Waiting ==> r'.phase != Waiting)
    ensures R.Seats(r, r', if re.Some? then R.Newcomer(re.value) else None)
  {
    LaterInv(r, t, now);
    R.ContinuesSeats(r, r);
    if re.Some? {
      R.StepKeepsInv(r, t, re.value);
      R.StepSeats(r, t, re.value);
      if r.phase != Waiting {
        R.StepStarted(r, t, re.value);
      }
    }
  }

  lemma OpensInv(v: ServerView, e: Event, r': RoomView)
    requires Opens(v, e, r')
    ensures R.Inv(r', e.now) && r'.id == v.lobby.nextId && r'.seats != []
    ensures R.Seats(EmptySlot(), r', NewPlayer(e))
  {
    var f := FreshRoom(v.lobby.nextId, false, e.now);
    if e.JoinRequest? {
      R.AdmitSeated(f, e.seat, e.now, e.word);
      R.JoinKeepsInv(f, e.now, e.seat, e.now, e.word);
      assert r'.seats[0].who == e.seat.who;
    }
  }

  /** Who can be new in slot i after this step. */
  function NewHere(v: ServerView, e: Event, i: nat): Option<Player>
    requires |v.lobby.rooms| == MAX_ROOMS && Settled(v.table, e.now)
  {
    if Arrival(v, e) == i then NewPlayer(e) else None
  }

  /** Slot i after a step: its room is sound, it keeps its identity or gets the
      next one, it never goes back to waiting, and only the arrival is new. */
  ghost predicate SlotOk(v: ServerView, e: Event, i: nat, r': RoomView, nextId: nat)
    requires |v.lobby.rooms| == MAX_ROOMS && Settled(v.table, e.now) && i < MAX_ROOMS
  {
    var r := v.lobby.rooms[i];
    && RoomOk(r', e.now, nextId)
    && R.Seats(r, r', NewHere(v, e, i))
    && (r'.seats != [] ==>
          if r.seats != [] then r'.id == r.id && (r.phase != Waiting ==> r'.phase != Waiting)
          else r'.id == v.lobby.nextId < nextId && Arrival(v, e) == i)
  }

  lemma NextIdGrows(v: ServerView, t: nat, e: Event)
    requires Inv(v, t) && t <= e.now && Enabled(v, e)
    ensures v.lobby.nextId <= Step(v, t, e).lobby.nextId
  {
  }

  lemma StepSlotOk(v: ServerView, t: nat, e: Event, i: nat)
    requires Inv(v, t) && t <= e.now && Enabled(v, e) && i < MAX_ROOMS
    ensures Settled(v.table, e.now)
    ensures |Step(v, t, e).lobby.rooms| == MAX_ROOMS
    ensures SlotOk(v, e, i, Step(v, t, e).lobby.rooms[i], Step(v, t, e).lobby.nextId)
  {
    InvFacts(v, t, e.now);
    NextIdGrows(v, t, e);
    var r := v.lobby.rooms[i];
    assert RoomOk(r, t, v.lobby.nextId);
    if r.seats != [] {
      StepProjects(v, t, e, i);
      ProjectsInv(r, t, e.now, RoomEvent(v, e, i), Step(v, t, e).lobby.rooms[i]);
      SameNewcomer(v, t, e, i);
    } else {
      StepOpens(v, t, e, i);
      if Step(v, t, e).lobby.rooms[i] != r {
        OpensInv(v, e, Step(v, t, e).lobby.rooms[i]);
      }
    }
  }

  lemma SameNewcomer(v: ServerView, t: nat, e: Event, i: nat)
    requires Inv(v, t) && t <= e.now && Enabled(v, e) && i < MAX_ROOMS && v.lobby.rooms[i].seats != []
    requires Settled(v.table, e.now)
    ensures var re := RoomEvent(v, e, i);
            (if re.Some? then R.Newcomer(re.value) else None) == NewHere(v, e, i)
  {
  }

  // ----- The table of disconnected players -----

  /** An entry after a step is an old one, possibly used up, or the state of a
      player leaving a running game. */
  ghost predicate EntryFrom(v: ServerView, e: Event, x: Entry) {
    x.valid ==>
      || (exists k :: 0 <= k < |v.table| && v.table[k] == x)
      || (x.time == e.now && exists i :: 0 <= i < |v.lobby.rooms| && v.lobby.rooms[i].phase == Playing &&
                                         v.lobby.rooms[i].seats != [] && x.roomId == v.lobby.rooms[i].id)
  }

  lemma StepEntries(v: ServerView, t: nat, e: Event, k: nat)
    requires Inv(v, t) && t <= e.now && Enabled(v, e) && k < MAX_DISCONNECTED
    ensures |Step(v, t, e).table| == MAX_DISCONNECTED
    ensures EntryFrom(v, e, Step(v, t, e).table[k])
  {
    InvFacts(v, t, e.now);
    assert v.table[k] == v.table[k];
    if e.Disconnect? {
      var i := RoomOf(v.lobby.rooms, e.leaver.who, MAX_ROOMS);
    }
  }

  lemma EntryStaysOk(v: ServerView, t: nat, e: Event, k: nat)
    requires Inv(v, t) && t <= e.now && Enabled(v, e) && k < MAX_DISCONNECTED
    requires Settled(v.table, e.now)
    requires var w := Step(v, t, e);
             && |w.lobby.rooms| == MAX_ROOMS && |w.table| == MAX_DISCONNECTED && v.lobby.nextId <= w.lobby.nextId
             && EntryFrom(v, e, w.table[k])
             && forall i :: 0 <= i < MAX_ROOMS ==> SlotOk(v, e, i, w.lobby.rooms[i], w.lobby.nextId)
    ensures var w := Step(v, t, e);
            EntryOk(w.table[k], w.lobby.rooms, e.now, w.lobby.nextId)
  {
    var w := Step(v, t, e);
    var x := w.table[k];
    if x.valid {
      EntryFromOk(v, t, e, x);
      forall i | 0 <= i < MAX_ROOMS && w.lobby.rooms[i].seats != [] && w.lobby.rooms[i].id == x.roomId
        ensures w.lobby.rooms[i].phase != Waiting
      {
        assert SlotOk(v, e, i, w.lobby.rooms[i], w.lobby.nextId);
      }
    }
  }

  lemma EntryFromOk(v: ServerView, t: nat, e: Event, x: Entry)
    requires Inv(v, t) && t <= e.now && EntryFrom(v, e, x) && x.valid
    ensures x.time <= e.now && x.roomId < v.lobby.nextId
    ensures forall i :: 0 <= i < MAX_ROOMS && v.lobby.rooms[i].seats != [] && v.lobby.rooms[i].id == x.roomId ==>
              v.lobby.rooms[i].phase != Waiting
  {
    if k :| 0 <= k < |v.table| && v.table[k] == x {
      assert EntryOk(v.table[k], v.lobby.rooms, t, v.lobby.nextId);
    } else {
      var j :| 0 <= j < |v.lobby.rooms| && v.lobby.rooms[j].phase == Playing && v.lobby.rooms[j].seats != [] &&
               x.roomId == v.lobby.rooms[j].id;
      assert RoomOk(v.lobby.rooms[j], t, v.lobby.nextId);
    }
  }

  // ----- Two slots -----

  lemma SlotsStayApart(v: ServerView, t: nat, e: Event, i: nat, j: nat, a: RoomView, b: RoomView, nextId: nat)
    requires Inv(v, t) && t <= e.now && Enabled(v, e) && i < j < MAX_ROOMS && Settled(v.table, e.now)
    requires SlotOk(v, e, i, a, nextId) && SlotOk(v, e, j, b, nextId)
    ensures Apart(a, b)
    ensures a.seats != [] && b.seats != [] ==> a.id != b.id
  {
    var ri, rj := v.lobby.rooms[i], v.lobby.rooms[j];
    assert Apart(ri, rj);
    assert RoomOk(ri, t, v.lobby.nextId) && RoomOk(rj, t, v.lobby.nextId);
  }

  // ----- Steps and runs -----

  /** In every reachable state of the server each occupied room satisfies the
      room invariant, no player sits in two rooms, no two rooms share an id, and
      saved states refer only to rooms that have started. */
  lemma StepKeepsInv(v: ServerView, t: nat, e: Event)
    requires Inv(v, t) && t <= e.now && Enabled(v, e)
    ensures Inv(Step(v, t, e), e.now)
  {
    var w := Step(v, t, e);
    InvFacts(v, t, e.now);
    NextIdGrows(v, t, e);
    StepSlotOk(v, t, e, 0);
    StepEntries(v, t, e, 0);
    forall i | 0 <= i < MAX_ROOMS ensures SlotOk(v, e, i, w.lobby.rooms[i], w.lobby.nextId) {
      StepSlotOk(v, t, e, i);
    }
    forall i, j | 0 <= i < j < MAX_ROOMS
      ensures Apart(w.lobby.rooms[i], w.lobby.rooms[j])
      ensures w.lobby.rooms[i].seats != [] && w.lobby.rooms[j].seats != [] ==>
                w.lobby.rooms[i].id != w.lobby.rooms[j].id
    {
      SlotsStayApart(v, t, e, i, j, w.lobby.rooms[i], w.lobby.rooms[j], w.lobby.nextId);
    }
    forall k | 0 <= k < MAX_DISCONNECTED ensures EntryOk(w.table[k], w.lobby.rooms, e.now, w.lobby.nextId) {
      StepEntries(v, t, e, k);
      EntryStaysOk(v, t, e, k);
    }
  }

  lemma StartInv(t: nat)
    ensures Inv(Start(), t)
  {
  }

  ghost predicate Playable(v: ServerView, t: nat, es: seq<Event>)
    requires Inv(v, t)
    decreases |es|
  {
    es != [] ==>
      && t <= es[0].now && Enabled(v, es[0])
      && (StepKeepsInv(v, t, es[0]); Playable(Step(v, t, es[0]), es[0].now, es[1..]))
  }

  ghost function Run(v: ServerView, t: nat, es: seq<Event>): ServerView
    requires Inv(v, t) && Playable(v, t, es)
    decreases |es|
  {
    if es == [] then v
    else
      StepKeepsInv(v, t, es[0]);
      Run(Step(v, t, es[0]), es[0].now, es[1..])
  }

  ghost function EndTime(t: nat, es: seq<Event>): nat {
    if es == [] then t else es[|es| - 1].now
  }

  lemma {:induction false} RunKeepsInv(v: ServerView, t: nat, es: seq<Event>)
    requires Inv(v, t) && Playable(v, t, es)
    ensures Inv(Run(v, t, es), EndTime(t, es))
    ensures |Run(v, t, es).lobby.rooms| == 100 && |Run(v, t, es).table| == 100
    decreases |es|
  {
    if es != [] {
      StepKeepsInv(v, t, es[0]);
      RunKeepsInv(Step(v, t, es[0]), es[0].now, es[1..]);
    }
  }

  /** A run goes on by one event. */
  lemma {:induction false} OneMore(v: ServerView, t: nat, es: seq<Event>, e: Event)
    requires Inv(v, t) && Playable(v, t, es)
    requires Inv(Run(v, t, es), EndTime(t, es)) && EndTime(t, es) <= e.now && Enabled(Run(v, t, es), e)
    ensures Playable(v, t, es + [e]) && Run(v, t, es + [e]) == Step(Run(v, t, es), EndTime(t, es), e)
    decreases |es|
  {
    if es == [] {
      StepKeepsInv(v, t, e);
      assert [] + [e] == [e];
    } else {
      StepKeepsInv(v, t, es[0]);
      assert (es + [e])[0] == es[0] && (es + [e])[1..] == es[1..] + [e];
      assert EndTime(t, es) == EndTime(es[0].now, es[1..]);
      OneMore(Step(v, t, es[0]), es[0].now, es[1..], e);
    }
  }

  // ----- Runs of one room within runs of the server -----

  /** Room i has players from here to the end of the run. */
  ghost predicate Occupied(v: ServerView, t: nat, es: seq<Event>, i: nat)
    requires Inv(v, t) && Playable(v, t, es) && i < MAX_ROOMS
    decreases |es|
  {
    && v.lobby.rooms[i].seats != []
    && (es != [] ==> (StepKeepsInv(v, t, es[0]); Occupied(Step(v, t, es[0]), es[0].now, es[1..], i)))
  }

  /** What happens in room i meanwhile. */
  ghost function RoomEvents(v: ServerView, t: nat, es: seq<Event>, i: nat): seq<R.Event>
    requires Inv(v, t) && Playable(v, t, es) && i < MAX_ROOMS
    decreases |es|
  {
    if es == [] then []
    else
      StepKeepsInv(v, t, es[0]);
      InvFacts(v, t, es[0].now);
      var re := RoomEvent(v, es[0], i);
      (if re.Some? then [re.value] else []) + RoomEvents(Step(v, t, es[0]), es[0].now, es[1..], i)
  }

  /** It does not matter when the clock was last read. */
  lemma EarlierStart(r: RoomView, t: nat, now: nat, es: seq<R.Event>)
    requires R.Inv(r, t) && t <= now && R.Inv(r, now) && Runs.Playable(r, now, es)
    ensures Runs.Playable(r, t, es) && Runs.Run(r, t, es) == Runs.Run(r, now, es)
  {
    if es != [] {
      SameStep(r, t, now, es[0]);
    }
  }

  lemma SameStep(r: RoomView, t: nat, now: nat, e: R.Event)
    requires R.Inv(r, t) && t <= now <= e.now && R.Inv(r, now) && R.Enabled(r, e)
    ensures R.Step(r, t, e) == R.Step(r, now, e)
  {
  }

  /** While a room has players, the server runs it exactly as a run of that room
      alone: everything proved about runs of a room holds for it. */
  lemma {:induction false} RoomRunsAlone(v: ServerView, t: nat, es: seq<Event>, i: nat)
    requires Inv(v, t) && Playable(v, t, es) && i < MAX_ROOMS && Occupied(v, t, es, i)
    ensures R.Inv(v.lobby.rooms[i], t)
    ensures Runs.Playable(v.lobby.rooms[i], t, RoomEvents(v, t, es, i))
    ensures |Run(v, t, es).lobby.rooms| == MAX_ROOMS
    ensures Runs.Run(v.lobby.rooms[i], t, RoomEvents(v, t, es, i)) == Run(v, t, es).lobby.rooms[i]
    decreases |es|
  {
    var r := v.lobby.rooms[i];
    assert RoomOk(r, t, v.lobby.nextId);
    if es != [] {
      var e, w := es[0], Step(v, t, es[0]);
      StepKeepsInv(v, t, e);
      StepProjects(v, t, e, i);
      RoomRunsAlone(w, e.now, es[1..], i);
      FirstEvent(r, t, e.now, RoomEvent(v, e, i), w.lobby.rooms[i], RoomEvents(w, e.now, es[1..], i));
    }
  }

  lemma FirstEvent(r: RoomView, t: nat, now: nat, re: Option<R.Event>, r': RoomView, rest: seq<R.Event>)
    requires Projects(r, t, now, re, r') && r'.seats != [] && R.Inv(r', now) && Runs.Playable(r', now, rest)
    ensures var es := (if re.Some? then [re.value] else []) + rest;
            Runs.Playable(r, t, es) && Runs.Run(r, t, es) == Runs.Run(r', now, rest)
  {
    if re.Some? {
      var es := [re.value] + rest;
      assert es[1..] == rest;
      R.StepKeepsInv(r, t, re.value);
      assert R.Step(r, t, re.value) == r';
    } else {
      assert [] + rest == rest;
      EarlierStart(r, t, now, rest);
    }
  }
}
