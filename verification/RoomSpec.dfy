/** The turn engine as functions on room values: each function takes the room
    before a call of server/game/game_logic.c to the room after it. The methods
    of class Room are proved against these functions, and the properties of
    whole games are proved about them. `now` is the clock in milliseconds and
    `word` is the word drawn from the word list if the call starts a round. */
module RoomSpec {
  import opened Protocol

  // ----- Seats -----

  function Undrawn(seats: seq<Seat>): (n: nat)
    ensures n <= |seats|
  {
    if seats == [] then 0
    else
      var last := |seats| - 1;
      Undrawn(seats[..last]) + if seats[last].hasDrawn then 0 else 1
  }

  predicate AllSettled(seats: seq<Seat>) {
    forall i :: 0 <= i < |seats| ==> seats[i].hasGuessed || seats[i].isDrawing
  }

  /** The lowest seat taken by p, or -1. */
  function SeatOf(seats: seq<Seat>, p: Player): (k: int)
    ensures -1 <= k < |seats|
    ensures k == -1 <==> forall i :: 0 <= i < |seats| ==> seats[i].who != p
    ensures k >= 0 ==> seats[k].who == p && forall i :: 0 <= i < k ==> seats[i].who != p
  {
    if seats == [] then -1
    else
      var last := |seats| - 1;
      var k := SeatOf(seats[..last], p);
      if k >= 0 then k
      else if seats[last].who == p then last
      else -1
  }

  ghost predicate DistinctSeats(seats: seq<Seat>) {
    forall i, j :: 0 <= i < j < |seats| ==> seats[i].who != seats[j].who
  }

  function RemoveAt<T>(s: seq<T>, k: nat): (r: seq<T>)
    requires k < |s|
    ensures |r| == |s| - 1
    ensures forall i :: 0 <= i < k ==> r[i] == s[i]
    ensures forall i :: k <= i < |r| ==> r[i] == s[i + 1]
  {
    s[..k] + s[k + 1..]
  }

  lemma RemovedSeatGone(seats: seq<Seat>, k: nat)
    requires k < |seats| && DistinctSeats(seats)
    ensures DistinctSeats(RemoveAt(seats, k))
    ensures forall i :: 0 <= i < |seats| - 1 ==> RemoveAt(seats, k)[i].who != seats[k].who
  {
  }

  /** A slot of the room table after memset. */
  function EmptySlot(): RoomView {
    RoomView(0, false, [], Waiting, 0, "", 0, 0, 0, 0, 0, 0, 0, false, [])
  }

  /** A slot of the room table as init_room leaves it. */
  function FreshRoom(id: nat, isPrivate: bool, now: nat): RoomView {
    EmptySlot().(id := id, isPrivate := isPrivate, createdAt := now, drawer := -1)
  }

  // ----- Rounds -----

  function Send(r: RoomView, m: Message): RoomView {
    r.(sent := r.sent + [m])
  }

  /** The word goes to whoever sits at the drawer index, if anyone does. */
  function SendWord(r: RoomView): RoomView {
    if 0 <= r.drawer < |r.seats| then Send(r, WordToDraw(r.seats[r.drawer].who, r.word)) else r
  }

  function EndGame(r: RoomView): RoomView {
    Send(r.(phase := Ended), Announce(GameEnd))
  }

  /** The search for the next drawer: step to the following seat, give up once
      more steps were taken than there are seats. */
  function Search(seats: seq<Seat>, idx: int, attempts: nat): (res: (bool, nat))
    requires -1 <= idx && 0 < |seats|
    requires attempts <= |seats|
    ensures res.1 < |seats|
    decreases |seats| - attempts
  {
    var next := (idx + 1) % |seats|;
    if attempts + 1 > |seats| then (false, next)
    else if seats[next].hasDrawn then Search(seats, next, attempts + 1)
    else (true, next)
  }

  function TurnSeat(s: Seat, drawing: bool): Seat {
    s.(hasDrawn := s.hasDrawn || drawing,
       isDrawing := drawing,
       hasGuessed := false,
       state := if drawing then Drawing else Guessing)
  }

  function TurnSeats(seats: seq<Seat>, d: nat): (r: seq<Seat>)
    ensures |r| == |seats|
    ensures forall i :: 0 <= i < |seats| ==> r[i] == TurnSeat(seats[i], i == d)
  {
    seq(|seats|, i requires 0 <= i < |seats| => TurnSeat(seats[i], i == d))
  }

  // A turn's flags are set in two passes: first the drawer is marked, then
  // every seat's flags are reset.

  function MarkSeat(seats: seq<Seat>, d: nat): seq<Seat>
    requires d < |seats|
  {
    seats[d := seats[d].(hasDrawn := true)]
  }

  function FlagSeat(s: Seat, drawing: bool): Seat {
    s.(isDrawing := drawing, hasGuessed := false, state := if drawing then Drawing else Guessing)
  }

  function FlagSeats(seats: seq<Seat>, d: int): (r: seq<Seat>)
    ensures |r| == |seats|
    ensures forall i :: 0 <= i < |seats| ==> r[i] == FlagSeat(seats[i], i == d)
  {
    seq(|seats|, i requires 0 <= i < |seats| => FlagSeat(seats[i], i == d))
  }

  lemma TurnIsMarkThenFlag(seats: seq<Seat>, d: nat)
    requires d < |seats|
    ensures FlagSeats(MarkSeat(seats, d), d) == TurnSeats(seats, d)
  {
  }

  /** The word buffer keeps at most MAX_WORD_LEN - 1 characters. */
  function Clip(word: string): (w: string)
    ensures w <= word && |w| == if |word| < MAX_WORD_LEN then |word| else MAX_WORD_LEN - 1
  {
    if |word| < MAX_WORD_LEN then word else word[..MAX_WORD_LEN - 1]
  }

  function BeginTurn(r: RoomView, d: nat, now: nat, word: string): RoomView {
    r.(drawer := d,
       seats := TurnSeats(r.seats, d),
       word := Clip(word),
       timeLeft := ROUND_TIME,
       roundStart := now,
       strokes := 0)
  }

  function TakeTurn(r: RoomView, now: nat, word: string): (after: RoomView)
    requires -1 <= r.drawer && 0 < |r.seats|
    ensures after.phase == r.phase || after.phase == Ended
  {
    var (found, d) := Search(r.seats, r.drawer, 0);
    if found then BeginTurn(r, d, now, word) else EndGame(r.(drawer := d))
  }

  function StartNextRound(r: RoomView, now: nat, word: string): (after: RoomView)
    requires -1 <= r.drawer
    ensures after.phase == r.phase || after.phase == Ended
  {
    var s := r.(round := r.round + 1);
    if Undrawn(s.seats) == 0 || s.round > s.total then EndGame(s) else TakeTurn(s, now, word)
  }

  function EndRound(r: RoomView, now: nat, word: string): (after: RoomView)
    requires -1 <= r.drawer
    ensures after.phase == r.phase || after.phase == Ended
  {
    var s := StartNextRound(Send(r, Announce(RoundEnd)), now, word);
    SendWord(Send(s, Announce(RoundStart)))
  }

  function ResetSeats(seats: seq<Seat>): (r: seq<Seat>)
    ensures |r| == |seats|
    ensures forall i :: 0 <= i < |seats| ==> r[i] == seats[i].(score := 0, state := InGame, hasDrawn := false)
  {
    seq(|seats|, i requires 0 <= i < |seats| => seats[i].(score := 0, state := InGame, hasDrawn := false))
  }

  function StartGame(r: RoomView, now: nat, word: string): RoomView
    requires -1 <= r.drawer
  {
    if |r.seats| < 2 then r
    else
      StartNextRound(r.(phase := Playing, round := 0, total := |r.seats|, seats := ResetSeats(r.seats)), now, word)
  }

  /** start_game as both of its callers use it, with the two messages after it. */
  function Launch(r: RoomView, now: nat, word: string): RoomView
    requires -1 <= r.drawer
  {
    SendWord(Send(StartGame(r.(countdownActive := false), now, word), Announce(GameStart)))
  }

  // ----- Seating -----

  function AddPlayer(r: RoomView, s: Seat): (RoomView, bool) {
    if |r.seats| >= MAX_PLAYERS then (r, false)
    else (r.(seats := r.seats + [s.(state := InRoom)]), true)
  }

  function StartCountdown(r: RoomView, now: nat): RoomView {
    if |r.seats| == 2 && !r.countdownActive then r.(countdownActive := true, countdownStart := now) else r
  }

  /** What join_matchmaking does with the room it settled on: seat the player,
      start the countdown at the second seat, start the game at the last. */
  function Admit(r: RoomView, s: Seat, now: nat, word: string): RoomView
    requires -1 <= r.drawer
  {
    var a := StartCountdown(AddPlayer(r, s).0, now);
    if |a.seats| == MAX_PLAYERS && a.phase == Waiting then Launch(a, now, word) else a
  }

  /** A reconnecting player takes the first empty seat, if there is one. */
  function Reseat(r: RoomView, s: Seat): (RoomView, bool) {
    if |r.seats| < MAX_PLAYERS then (r.(seats := r.seats + [s]), true) else (r, false)
  }

  /** The drawer index after seat k closed, leaving `count` seats. */
  function RepairedDrawer(drawer: int, k: nat, wasDrawing: bool, count: nat): int {
    if wasDrawing then (if drawer > 0 then drawer - 1 else count - 1)
    else if drawer > k then drawer - 1
    else drawer
  }

  /** The room once seat k is vacated, before any consequence for the round. */
  function Vacate(r: RoomView, k: nat): RoomView
    requires k < |r.seats|
  {
    var seats := RemoveAt(r.seats, k);
    if r.phase == Playing && |seats| >= 2 then
      r.(seats := seats,
         total := r.round + Undrawn(seats),
         drawer := RepairedDrawer(r.drawer, k, r.seats[k].isDrawing, |seats|))
    else r.(seats := seats)
  }

  function RemoveSeat(r: RoomView, k: nat, now: nat, word: string): (after: RoomView)
    requires k < |r.seats|
    requires r.phase == Playing ==> 0 <= r.drawer
    ensures after.phase == r.phase || after.phase == Ended
  {
    var s := Vacate(r, k);
    if r.phase != Playing then s
    else if |s.seats| < 2 then EndGame(s)
    else if r.seats[k].isDrawing then EndRound(s, now, word)
    else s
  }

  function RemovePlayer(r: RoomView, p: Player, now: nat, word: string): RoomView
    requires r.phase == Playing ==> 0 <= r.drawer
  {
    var k := SeatOf(r.seats, p);
    if k == -1 then r else RemoveSeat(r, k, now, word)
  }

  // ----- Registration -----

  /** A player who registers gets a new identity, loses the points and is back
      in the lobby, seated or not. */
  function Enrol(s: Seat, id: nat, token: string): Seat {
    s.(playerId := id, state := Lobby, score := 0, token := token)
  }

  function RegisterSeat(r: RoomView, k: nat, id: nat, token: string): RoomView
    requires k < |r.seats|
  {
    r.(seats := r.seats[k := Enrol(r.seats[k], id, token)])
  }

  // ----- Guesses -----

  function LowerChar(c: char): char {
    if 'A' <= c <= 'Z' then c + 32 as char else c
  }

  function Lower(s: string): (r: string)
    ensures |r| == |s|
    ensures forall i :: 0 <= i < |s| ==> r[i] == LowerChar(s[i])
  {
    seq(|s|, i requires 0 <= i < |s| => LowerChar(s[i]))
  }

  function Points(timeLeft: nat): nat {
    10 + timeLeft * 90 / ROUND_TIME
  }

  function Award(s: Seat, points: int): Seat {
    s.(hasGuessed := true, score := s.score + points)
  }

  function CloseIfSettled(r: RoomView, now: nat, word: string): (after: RoomView)
    requires -1 <= r.drawer
    ensures after.phase == r.phase || after.phase == Ended
  {
    if AllSettled(r.seats) then EndRound(r, now, word) else r
  }

  function ScoreGuess(r: RoomView, k: nat): RoomView
    requires k < |r.seats| && 0 <= r.timeLeft
  {
    Send(r.(seats := r.seats[k := Award(r.seats[k], Points(r.timeLeft))]), Announce(ScoreUpdate))
  }

  /** A correct guess: the award, then the end of the round if nobody is left
      to guess. */
  function AcceptGuess(r: RoomView, k: nat, now: nat, word: string): (after: RoomView)
    requires k < |r.seats|
    requires -1 <= r.drawer && 0 <= r.timeLeft
    ensures after.phase == r.phase || after.phase == Ended
  {
    CloseIfSettled(ScoreGuess(r, k), now, word)
  }

  /** The guess of the player on seat k, and whether it is reported as correct. */
  function ProcessGuess(r: RoomView, k: nat, guess: string, now: nat, word: string): (RoomView, bool)
    requires k < |r.seats|
    requires -1 <= r.drawer && 0 <= r.timeLeft
  {
    if r.seats[k].isDrawing || r.seats[k].hasGuessed || Lower(guess) != Lower(r.word) then (r, false)
    else (AcceptGuess(r, k, now, word), true)
  }

  /** handle_chat: a message is a guess only while the game runs and from a
      player who is not drawing; a correct guess is never shown as chat. */
  function Chat(r: RoomView, k: nat, text: string, now: nat, word: string): (after: RoomView)
    requires k < |r.seats|
    requires r.phase == Playing ==> 0 <= r.drawer && 0 <= r.timeLeft
    ensures after.phase == r.phase || after.phase == Ended
  {
    if r.phase == Playing && !r.seats[k].isDrawing then
      var (s, correct) := ProcessGuess(r, k, text, now, word);
      if correct then Send(Send(s, Announce(GuessCorrect)), Announce(ScoreUpdate))
      else Send(s, Announce(ChatBroadcast))
    else Send(r, Announce(ChatBroadcast))
  }

  // ----- Ticks -----

  function UpdateTimer(r: RoomView, now: nat, word: string): (after: RoomView)
    requires r.phase == Playing ==> 0 <= r.drawer && r.roundStart <= now
    ensures after.phase == r.phase || after.phase == Ended
  {
    if r.phase != Playing then r
    else
      var left := ROUND_TIME - (now - r.roundStart) / 1000;
      if left <= 0 then EndRound(r.(timeLeft := 0), now, word) else r.(timeLeft := left)
  }

  function CheckCountdown(r: RoomView, now: nat, word: string): RoomView
    requires r.phase == Waiting && r.countdownActive ==> -1 <= r.drawer && r.countdownStart <= now
  {
    if !r.countdownActive || r.phase != Waiting then r
    else
      var elapsed := (now - r.countdownStart) / 1000;
      var s := if elapsed < 15 then Send(r, Announce(CountdownUpdate(15 - elapsed))) else r;
      if elapsed >= 15 && |s.seats| >= 2 then Launch(s, now, word) else s
  }

  /** What a tick needs of a room: its clocks lie in the past and the drawer
      index of a running game is a seat index. */
  ghost predicate TickReady(r: RoomView, now: nat) {
    && (r.phase == Waiting && r.countdownActive ==> r.drawer == -1 && r.countdownStart <= now)
    && (r.phase == Playing ==> 0 <= r.drawer < |r.seats| && r.roundStart <= now)
  }

  /** timer_update_callback: countdown first, then the round timer. */
  function Tick(r: RoomView, now: nat, word: string): RoomView
    requires TickReady(r, now)
  {
    var s := CheckCountdown(r, now, word);
    var t := UpdateTimer(s, now, word);
    Send(t, Announce(TimerUpdate(t.timeLeft)))
  }

  /** The timer visits only occupied rooms that have not ended. */
  function Ticked(r: RoomView, now: nat, word: string): RoomView
    requires r.seats != [] ==> TickReady(r, now)
  {
    if r.seats == [] || r.phase == Ended then r else Tick(r, now, word)
  }
}
