/** From the text of a message to the handler: handle_tcp_message of
    server/tcp/tcp_handler.c. */
module Dispatch {
  import opened Protocol
  import opened Envelope
  import opened Framing
  import opened Parser
  import opened Sequences
  import opened Stream
  import opened Relay
  import opened Transport
  import S = Server
  import Spec = ServerSpec
  import Match = MatchSpec
  import Led = LedgerSpec
  import Runs = ServerRuns
  import Words = ServerWords

  // Values of MessageType in server/protocol.h.
  const MSG_REGISTER := 2
  const MSG_JOIN_ROOM := 4
  const MSG_CREATE_ROOM := 5
  const MSG_CHAT := 14
  const MSG_RECONNECT_REQUEST := 25
  const MSG_DISCONNECT := 29
  const TOKEN_LEN: nat := 64

  /** What a client asks for. */
  datatype Request = Register | Join | Create | Chat(text: string) | Return(token: string) | Quit | Other

  /** What the server itself brings into a step: the word for a new round, and the
      identity and token for a registration. */
  datatype Supply = Supply(word: string, id: nat, token: string)

  /** The request of a message of type t, given the fields that its handler reads. */
  function Route(t: int, message: Option<string>, token: Option<string>): Request {
    if t == MSG_REGISTER then Register
    else if t == MSG_JOIN_ROOM then Join
    else if t == MSG_CREATE_ROOM then Create
    else if t == MSG_CHAT && message.Some? then Chat(message.value)
    else if t == MSG_RECONNECT_REQUEST && token.Some? then Return(token.value)
    else if t == MSG_DISCONNECT then Quit
    else Other
  }

  /** The request in a message, as the handlers extract it. */
  function RequestOf(json: string): Request {
    match GetType(json)
    case None => Other
    case Some(t) =>
      Route(t, GetDataString(json, "message", MAX_CHAT_LEN), GetDataString(json, "session_token", TOKEN_LEN))
  }

  /** The step of the server that a request of player s amounts to. */
  function EventOf(q: Request, s: Seat, now: nat, u: Supply): Option<Spec.Event> {
    match q
    case Register => Some(Spec.RegisterRequest(s.who, u.id, u.token, now))
    case Join => Some(Spec.JoinRequest(s, now, u.word))
    case Create => Some(Spec.CreateRequest(s, now))
    case Chat(text) => Some(Spec.ChatMessage(s.who, text, now, u.word))
    case Return(token) => Some(Spec.Reconnect(s, token, now))
    case Quit => Some(Spec.Disconnect(s, now, u.word))
    case Other => None
  }

  lemma UnseatedNowhere(srv: S.Server, p: Player)
    requires srv.Valid() && srv.lobby.Unseated(p)
    ensures Match.RoomOf(srv.View().lobby.rooms, p, MAX_ROOMS) == -1
  {
  }

  /** A guess that fits the buffers of process_guess. */
  predicate FitsGuess(q: Request) {
    q.Chat? ==> |q.text| < MAX_CHAT_LEN - 1 && '\0' !in q.text
  }

  /** The step of a message leads to a sound state. */
  lemma StepSound(v: Spec.ServerView, t: nat, e: Spec.Event)
    requires Spec.Inv(v, t) && t <= e.now && Spec.Enabled(v, e) && Match.WordsFit(v.lobby.rooms)
    ensures Spec.Inv(Spec.Step(v, t, e), e.now)
    ensures Words.Supplied(e) ==> Match.WordsFit(Spec.Step(v, t, e).lobby.rooms)
  {
    Runs.StepKeepsInv(v, t, e);
    if Words.Supplied(e) {
      Words.StepKeepsWordsFit(v, t, e);
    }
  }

  /** The server goes from v to w by the step of the request, and to a sound state. */
  ghost predicate Outcome(v: Spec.ServerView, w: Spec.ServerView, t: nat, q: Request, s: Seat, now: nat, u: Supply)
    requires Spec.Inv(v, t) && t <= now
  {
    match EventOf(q, s, now, u)
    case None => w == v
    case Some(e) => Spec.Enabled(v, e) && w == Spec.Step(v, t, e) && Spec.Inv(w, now)
  }

  /** Every message takes the server one step, and to a sound state. If the word from
      the list is short, the next message may follow. */
  method Perform(srv: S.Server, p: Player, q: Request, now: nat, u: Supply, ghost t: nat)
    requires srv.Valid() && Spec.Inv(srv.View(), t) && t <= now
    requires q.Join? || q.Create? || q.Return? ==> srv.lobby.Unseated(p)
    requires FitsGuess(q) && Match.WordsFit(srv.lobby.view.rooms)
    modifies srv.lobby.Repr, srv.ledger.table, p
    ensures srv.Valid()
    ensures Outcome(old(srv.View()), srv.View(), t, q, old(p.Snapshot()), now, u)
    ensures Words.Short(u.word) ==> Match.WordsFit(srv.lobby.view.rooms)
  {
    ghost var v := srv.View();
    Spec.InvFacts(v, t, now);
    match q
    case Register =>
      StepSound(v, t, Spec.RegisterRequest(p, u.id, u.token, now));
      srv.HandleRegister(p, u.id, u.token);
    case Join =>
      UnseatedNowhere(srv, p);
      StepSound(v, t, Spec.JoinRequest(p.Snapshot(), now, u.word));
      var ok := srv.HandleJoin(p, now, u.word);
    case Create =>
      UnseatedNowhere(srv, p);
      StepSound(v, t, Spec.CreateRequest(p.Snapshot(), now));
      var ok := srv.HandleCreate(p, now);
    case Chat(text) =>
      StepSound(v, t, Spec.ChatMessage(p, text, now, u.word));
      srv.HandleChat(p, text, now, u.word);
    case Return(token) =>
      UnseatedNowhere(srv, p);
      StepSound(v, t, Spec.Reconnect(p.Snapshot(), token, now));
      var ok := srv.HandleReconnect(p, token, now);
    case Quit =>
      StepSound(v, t, Spec.Disconnect(p.Snapshot(), now, u.word));
      srv.HandleDisconnect(p, now, u.word);
    case Other =>
  }

  /** The request in a frame, if the frame is whole. */
  function RequestIn(frame: seq<byte>): Request {
    if Complete(frame) then RequestOf(Text(frame[4..4 + Be32(frame)])) else Other
  }

  lemma RequestRead(bytes: seq<byte>, len: nat, n: nat, json: string)
    requires len <= |bytes| && Complete(bytes[..len]) && n == 4 + Be32(bytes[..len]) && json == Text(bytes[4..n])
    ensures RequestIn(bytes[..len]) == RequestOf(json)
  {
    assert bytes[4..n] == bytes[..len][4..n];
  }

  /** handle_tcp_message. */
  method HandleMessage(srv: S.Server, p: Player, buffer: array<byte>, len: nat, now: nat, u: Supply, ghost t: nat)
    requires srv.Valid() && Spec.Inv(srv.View(), t) && t <= now
    requires len <= buffer.Length && Sane(buffer[..len])
    requires var q := RequestIn(buffer[..len]);
             && (q.Join? || q.Create? || q.Return? ==> srv.lobby.Unseated(p))
             && FitsGuess(q)
    requires Match.WordsFit(srv.lobby.view.rooms)
    modifies srv.lobby.Repr, srv.ledger.table, p
    ensures srv.Valid()
    ensures Outcome(old(srv.View()), srv.View(), t, RequestIn(old(buffer[..len])), old(p.Snapshot()), now, u)
    ensures Words.Short(u.word) ==> Match.WordsFit(srv.lobby.view.rooms)
  {
    var n, json := DeserializeTcpMessage(buffer, len);
    if n == -1 {
      return;
    }
    RequestRead(buffer[..], len, n, json);
    Perform(srv, p, RequestOf(json), now, u, t);
  }

  // ----- What clients write is what the handlers read -----

  /** The data object that starts with this string field. */
  function Field(key: string, v: string, rest: string): string {
    "{" + Pattern(key) + v + QUOTE + rest
  }

  lemma ReadsChat(json: string, text: string)
    requires GetType(json) == Some(MSG_CHAT) && GetDataString(json, "message", MAX_CHAT_LEN) == Some(text)
    ensures RequestOf(json) == Chat(text)
  {
  }

  lemma ReadsReturn(json: string, token: string)
    requires GetType(json) == Some(MSG_RECONNECT_REQUEST)
    requires GetDataString(json, "session_token", TOKEN_LEN) == Some(token)
    ensures RequestOf(json) == Return(token)
  {
  }

  lemma ReadsPlain(json: string, t: int)
    requires GetType(json) == Some(t)
    ensures t == MSG_JOIN_ROOM ==> RequestOf(json) == Join
    ensures t == MSG_CREATE_ROOM ==> RequestOf(json) == Create
    ensures t == MSG_DISCONNECT ==> RequestOf(json) == Quit
    ensures t == MSG_REGISTER ==> RequestOf(json) == Register
  {
  }

  /** Type and field of a message come back, for any field name. */
  lemma FieldRead(t: int, key: string, v: string, rest: string, outSize: nat)
    requires QuoteFree(key) && QuoteFree(v) && |key| + 4 < 128 && 0 < outSize
    ensures GetType(FullMessage(t, Field(key, v, rest))) == Some(t)
    ensures GetDataString(FullMessage(t, Field(key, v, rest)), key, outSize) == Some(Fit(v, outSize))
  {
    TypeComesBack(t, Field(key, v, rest));
    StringComesBack(t, key, v, rest, outSize);
  }

  lemma KeysQuoteFree()
    ensures QuoteFree("message") && QuoteFree("session_token")
  {
  }

  /** A guess survives the way through the envelope, cut to the guess buffer. */
  lemma GuessComesBack(v: string, rest: string)
    requires QuoteFree(v)
    ensures RequestOf(FullMessage(MSG_CHAT, Field("message", v, rest))) == Chat(Fit(v, MAX_CHAT_LEN))
  {
    KeysQuoteFree();
    FieldRead(MSG_CHAT, "message", v, rest, MAX_CHAT_LEN);
    ReadsChat(FullMessage(MSG_CHAT, Field("message", v, rest)), Fit(v, MAX_CHAT_LEN));
  }

  /** So does a session token. */
  lemma TokenComesBack(v: string, rest: string)
    requires QuoteFree(v)
    ensures RequestOf(FullMessage(MSG_RECONNECT_REQUEST, Field("session_token", v, rest))) == Return(Fit(v, TOKEN_LEN))
  {
    KeysQuoteFree();
    FieldRead(MSG_RECONNECT_REQUEST, "session_token", v, rest, TOKEN_LEN);
    ReadsReturn(FullMessage(MSG_RECONNECT_REQUEST, Field("session_token", v, rest)), Fit(v, TOKEN_LEN));
  }

  /** So do the requests that carry no data of interest. */
  lemma PlainComesBack(data: string)
    ensures RequestOf(FullMessage(MSG_JOIN_ROOM, data)) == Join
    ensures RequestOf(FullMessage(MSG_CREATE_ROOM, data)) == Create
    ensures RequestOf(FullMessage(MSG_DISCONNECT, data)) == Quit
    ensures RequestOf(FullMessage(MSG_REGISTER, data)) == Register
  {
    TypeComesBack(MSG_REGISTER, data);
    ReadsPlain(FullMessage(MSG_REGISTER, data), MSG_REGISTER);
    TypeComesBack(MSG_JOIN_ROOM, data);
    ReadsPlain(FullMessage(MSG_JOIN_ROOM, data), MSG_JOIN_ROOM);
    TypeComesBack(MSG_CREATE_ROOM, data);
    ReadsPlain(FullMessage(MSG_CREATE_ROOM, data), MSG_CREATE_ROOM);
    TypeComesBack(MSG_DISCONNECT, data);
    ReadsPlain(FullMessage(MSG_DISCONNECT, data), MSG_DISCONNECT);
  }

  // ----- What a message does -----

  /** The text of a message of type n. */
  function Json(n: int, data: string): string {
    "{\"type\":" + Show(n) + ",\"data\":" + data + "}"
  }

  lemma JsonIs(n: int, data: string)
    ensures Json(n, data) == FullMessage(n, data)
  {
    Keys();
    TextSplit(Show(n), data);
  }

  lemma Keys()
    ensures "{" + TYPE_KEY == "{\"type\":" && "," + DATA_KEY == ",\"data\":"
  {
  }

  lemma TextSplit(number: string, data: string)
    ensures ("{" + TYPE_KEY) + number + ("," + DATA_KEY) + data + "}"
            == "{" + TYPE_KEY + (number + ",") + DATA_KEY + (data + "}")
  {
  }

  lemma RequestOfType(n: int, data: string)
    ensures RequestOf(Json(n, data))
            == Route(n, GetDataString(Json(n, data), "message", MAX_CHAT_LEN),
                     GetDataString(Json(n, data), "session_token", TOKEN_LEN))
  {
    JsonIs(n, data);
    TypeComesBack(n, data);
  }

  lemma WholeFrameRequest(text: string)
    requires IsText(text) && |text| < LENGTH_LIMIT
    ensures RequestIn(Wire(Bytes(text))) == RequestOf(text)
  {
    var frame := Wire(Bytes(text));
    WireComplete(Bytes(text), []);
    ConcatNothing(frame);
    assert frame[4..4 + Be32(frame)] == Bytes(text);
    TextOfBytes(text);
  }

  /** What a message of type n asks of the server: 2 registers, 4 joins a room, 5 creates
      one, 14 says a text, 25 returns with a token, 29 disconnects. A message of any
      other type, or without the field it needs, changes nothing. */
  ghost predicate Effect(v: Spec.ServerView, w: Spec.ServerView, n: int, text: Option<string>, token: Option<string>,
                         s: Seat, now: nat, u: Supply)
    requires Match.Open(v.lobby) && Match.AllLeavable(v.lobby.rooms) && Match.AllScorable(v.lobby.rooms)
    requires v.table != [] && Led.Settled(v.table, now)
  {
    if n == 2 then w == v.(lobby := Match.RegisterPlayer(v.lobby, s.who, u.id, u.token))
    else if n == 4 then w == v.(lobby := Match.JoinMatchmaking(v.lobby, s, now, u.word).0)
    else if n == 5 then w == v.(lobby := Match.CreateRoom(v.lobby, s, now).0)
    else if n == 14 && text.Some? then w == v.(lobby := Spec.ChatStep(v.lobby, s.who, text.value, now, u.word))
    else if n == 25 && token.Some? then w == Spec.ReconnectStep(v, s, token.value, now)
    else if n == 29
    then w == Spec.ServerView(Match.LeaveRoom(v.lobby, s.who, now, u.word), Spec.SaveIfPlaying(v, s, now))
    else w == v
  }

  lemma Registers(v: Spec.ServerView, w: Spec.ServerView, t: nat, s: Seat, now: nat, u: Supply)
    requires Spec.Inv(v, t) && t <= now && Outcome(v, w, t, Register, s, now, u)
    ensures w == v.(lobby := Match.RegisterPlayer(v.lobby, s.who, u.id, u.token))
  {
  }

  lemma Joins(v: Spec.ServerView, w: Spec.ServerView, t: nat, s: Seat, now: nat, u: Supply)
    requires Spec.Inv(v, t) && t <= now && Outcome(v, w, t, Join, s, now, u) && Match.Open(v.lobby)
    ensures w == v.(lobby := Match.JoinMatchmaking(v.lobby, s, now, u.word).0)
  {
  }

  lemma Creates(v: Spec.ServerView, w: Spec.ServerView, t: nat, s: Seat, now: nat, u: Supply)
    requires Spec.Inv(v, t) && t <= now && Outcome(v, w, t, Create, s, now, u)
    ensures w == v.(lobby := Match.CreateRoom(v.lobby, s, now).0)
  {
  }

  lemma Chats(v: Spec.ServerView, w: Spec.ServerView, t: nat, s: Seat, now: nat, u: Supply, text: string)
    requires Spec.Inv(v, t) && t <= now && Outcome(v, w, t, Chat(text), s, now, u)
    requires Match.AllLeavable(v.lobby.rooms) && Match.AllScorable(v.lobby.rooms)
    ensures w == v.(lobby := Spec.ChatStep(v.lobby, s.who, text, now, u.word))
  {
  }

  lemma ComesBack(v: Spec.ServerView, w: Spec.ServerView, t: nat, s: Seat, now: nat, u: Supply, token: string)
    requires Spec.Inv(v, t) && t <= now && Outcome(v, w, t, Return(token), s, now, u) && Led.Settled(v.table, now)
    ensures w == Spec.ReconnectStep(v, s, token, now)
  {
  }

  lemma Quits(v: Spec.ServerView, w: Spec.ServerView, t: nat, s: Seat, now: nat, u: Supply)
    requires Spec.Inv(v, t) && t <= now && Outcome(v, w, t, Quit, s, now, u)
    requires Match.AllLeavable(v.lobby.rooms) && v.table != []
    ensures w == Spec.ServerView(Match.LeaveRoom(v.lobby, s.who, now, u.word), Spec.SaveIfPlaying(v, s, now))
  {
  }

  lemma RouteEffect(v: Spec.ServerView, w: Spec.ServerView, t: nat, n: int, text: Option<string>, token: Option<string>,
                    s: Seat, now: nat, u: Supply)
    requires Spec.Inv(v, t) && t <= now && Outcome(v, w, t, Route(n, text, token), s, now, u)
    ensures Match.Open(v.lobby) && Match.AllLeavable(v.lobby.rooms) && Match.AllScorable(v.lobby.rooms)
    ensures v.table != [] && Led.Settled(v.table, now)
    ensures Effect(v, w, n, text, token, s, now, u)
  {
    Spec.InvFacts(v, t, now);
    match Route(n, text, token)
    case Register => Registers(v, w, t, s, now, u);
    case Join => Joins(v, w, t, s, now, u);
    case Create => Creates(v, w, t, s, now, u);
    case Chat(said) => Chats(v, w, t, s, now, u, said);
    case Return(shown) => ComesBack(v, w, t, s, now, u, shown);
    case Quit => Quits(v, w, t, s, now, u);
    case Other =>
  }

  /** So it is for the frame that carries such a message, with the text of the field
      "message" and the token of the field "session_token". */
  lemma MessageEffect(v: Spec.ServerView, w: Spec.ServerView, t: nat, n: int, data: string, frame: seq<byte>,
                      s: Seat, now: nat, u: Supply)
    requires Spec.Inv(v, t) && t <= now
    requires IsText(Json(n, data)) && |Json(n, data)| < LENGTH_LIMIT && frame == Wire(Bytes(Json(n, data)))
    requires Outcome(v, w, t, RequestIn(frame), s, now, u)
    ensures Match.Open(v.lobby) && Match.AllLeavable(v.lobby.rooms) && Match.AllScorable(v.lobby.rooms)
    ensures v.table != [] && Led.Settled(v.table, now)
    ensures Effect(v, w, n, GetDataString(Json(n, data), "message", 256),
                   GetDataString(Json(n, data), "session_token", 64), s, now, u)
  {
    WholeFrameRequest(Json(n, data));
    RequestOfType(n, data);
    RouteEffect(v, w, t, n, GetDataString(Json(n, data), "message", 256),
                GetDataString(Json(n, data), "session_token", 64), s, now, u);
  }

  lemma FieldText(key: string, v: string, rest: string)
    ensures "{\"" + key + "\":\"" + v + "\"" + rest == Field(key, v, rest)
  {
    assert "{\"" + key == "{" + ("\"" + key);
  }

  /** The text is what was written, cut to 255 characters, if it comes first in the
      data and has no quotes. */
  lemma TextOfMessage(n: int, v: string, rest: string)
    requires QuoteFree(v)
    ensures GetDataString(Json(n, "{\"" + "message" + "\":\"" + v + "\"" + rest), "message", 256) == Some(Fit(v, 256))
  {
    KeysQuoteFree();
    FieldText("message", v, rest);
    JsonIs(n, Field("message", v, rest));
    StringComesBack(n, "message", v, rest, 256);
  }

  /** The token likewise, cut to 63. */
  lemma TokenOfMessage(n: int, v: string, rest: string)
    requires QuoteFree(v)
    ensures GetDataString(Json(n, "{\"" + "session_token" + "\":\"" + v + "\"" + rest), "session_token", 64)
            == Some(Fit(v, 64))
  {
    KeysQuoteFree();
    FieldText("session_token", v, rest);
    JsonIs(n, Field("session_token", v, rest));
    StringComesBack(n, "session_token", v, rest, 64);
  }

  // ----- From the browser to the handlers -----

  /** When every recv of the proxy holds whole frames, the handlers get the request
      in the first readable frame of each recv, in order, through the masked
      frames, the proxy and a stream cut in any way; they get as many as the
      browser wrote exactly when each recv holds one readable frame, and then
      they get all of them. */
  lemma BrowserRequests(signed: bool, groups: seq<seq<Outgoing>>, chunks: seq<seq<byte>>)
    requires AllReceivable(groups) && Deliverable([], chunks)
    requires ForwardedAll(signed, Recvs(groups)) == Sends(Flatten(chunks))
    ensures var (frames, end, alive) := ReceiveAll([], chunks);
            && alive && Asks(frames, Arriving(signed, groups))
            && (|frames| == |Written(groups)| <==> OneByOne(signed, groups))
            && (OneByOne(signed, groups) ==> Asks(frames, Written(groups)))
  {
    var ms := Arriving(signed, groups);
    ForwardedIsWire(signed, groups);
    ClientDelivery(Payloads(ms), chunks);
    ArrivingCount(signed, groups);
    forall i | 0 <= i < |ms| ensures RequestIn(WireFrames(Payloads(ms))[i]) == RequestOf(ms[i].text) {
      WholeFrameRequest(ms[i].text);
    }
    if OneByOne(signed, groups) {
      OneByOneArrives(signed, groups);
    }
  }

  /** These frames carry the requests in these messages. */
  ghost predicate Asks(frames: seq<seq<byte>>, ms: seq<Outgoing>) {
    |frames| == |ms| && forall i :: 0 <= i < |ms| ==> RequestIn(frames[i]) == RequestOf(ms[i].text)
  }
}
