/** Runs of the server are, in the table of disconnected players, runs of that table
    alone: what is proved about saved states holds in the server. */
module ServerLedger {
  import opened Protocol
  import opened MatchSpec
  import opened LedgerSpec
  import opened ServerSpec
  import L = LedgerRuns
  import ServerRuns

  /** What a step of the server does to the table. */
  function LedgerEvent(v: ServerView, e: Event): Option<L.Event> {
    match e
    case Disconnect(s, now, _) =>
      var i := RoomOf(v.lobby.rooms, s.who, |v.lobby.rooms|);
      if i >= 0 && v.lobby.rooms[i].phase == Playing then Some(L.SaveState(s, v.lobby.rooms[i].id, now)) else None
    case Reconnect(_, token, now) => Some(L.RestoreState(token, v.lobby.rooms, now))
    case TimerRound(now, _) => Some(L.CleanUp(now))
    case _ => None
  }

  ghost function LedgerEvents(v: ServerView, t: nat, es: seq<Event>): seq<L.Event>
    requires Inv(v, t) && ServerRuns.Playable(v, t, es)
    decreases |es|
  {
    if es == [] then []
    else
      ServerRuns.StepKeepsInv(v, t, es[0]);
      var le := LedgerEvent(v, es[0]);
      (if le.Some? then [le.value] else []) + LedgerEvents(Step(v, t, es[0]), es[0].now, es[1..])
  }

  lemma StepProjects(v: ServerView, t: nat, e: Event, r: L.Record)
    requires Inv(v, t) && t <= e.now && Enabled(v, e) && L.Inv(r, t) && r.table == v.table
    ensures L.Inv(r, e.now)
    ensures var le := LedgerEvent(v, e);
            && (le.Some? ==> le.value.now == e.now)
            && Step(v, t, e).table == if le.Some? then L.Step(r, le.value).table else r.table
  {
    InvFacts(v, t, e.now);
  }

  /** It does not matter when the clock was last read. */
  lemma EarlierStart(r: L.Record, t: nat, now: nat, es: seq<L.Event>)
    requires L.Inv(r, t) && t <= now && L.Inv(r, now) && L.Forward(now, es)
    ensures L.Forward(t, es) && L.Run(r, t, es) == L.Run(r, now, es)
  {
  }

  lemma FirstEvent(r: L.Record, t: nat, le: L.Event, rest: seq<L.Event>)
    requires L.Inv(r, t) && t <= le.now && L.Inv(L.Step(r, le), le.now) && L.Forward(le.now, rest)
    ensures L.Forward(t, [le] + rest) && L.Run(r, t, [le] + rest) == L.Run(L.Step(r, le), le.now, rest)
  {
    assert ([le] + rest)[1..] == rest;
  }

  lemma {:induction false} LedgerRunsAlone(v: ServerView, t: nat, es: seq<Event>, r: L.Record)
    requires Inv(v, t) && ServerRuns.Playable(v, t, es) && L.Inv(r, t) && r.table == v.table
    ensures L.Forward(t, LedgerEvents(v, t, es))
    ensures L.Run(r, t, LedgerEvents(v, t, es)).table == ServerRuns.Run(v, t, es).table
    decreases |es|
  {
    if es != [] {
      var e, w, le := es[0], Step(v, t, es[0]), LedgerEvent(v, es[0]);
      ServerRuns.StepKeepsInv(v, t, e);
      StepProjects(v, t, e, r);
      if le.Some? {
        L.StepKeepsInv(r, t, le.value);
        LedgerRunsAlone(w, e.now, es[1..], L.Step(r, le.value));
        FirstEvent(r, t, le.value, LedgerEvents(w, e.now, es[1..]));
      } else {
        LedgerRunsAlone(w, e.now, es[1..], r);
        EarlierStart(r, t, e.now, LedgerEvents(w, e.now, es[1..]));
        assert [] + LedgerEvents(w, e.now, es[1..]) == LedgerEvents(w, e.now, es[1..]);
      }
    }
  }

  /** In every run of the server from its start, each saved state is still in the
      table, or was restored, or timed out, or found its room gone, or was evicted;
      none is restored twice, and none after 301 s. */
  lemma ServerSavesAccounted(t: nat, es: seq<Event>)
    requires Inv(Start(), t) && ServerRuns.Playable(Start(), t, es)
    ensures L.Inv(L.Start(), t) && L.Forward(t, LedgerEvents(Start(), t, es))
    ensures var s := L.Run(L.Start(), t, LedgerEvents(Start(), t, es));
            && s.table == ServerRuns.Run(Start(), t, es).table
            && s.saves == L.ValidCount(s.table) + |s.comebacks| + s.expired + s.gone + s.evicted
            && L.WellFormed(s) && L.SingleUse(s) && L.InTime(s)
  {
    L.StartInv(t);
    LedgerRunsAlone(Start(), t, es, L.Start());
    L.EverySaveAccounted(L.Start(), t, LedgerEvents(Start(), t, es));
  }
}
