/** The room as server/game/game_logic.c keeps it: a record whose fields and
    seat array are updated in place. Every method is proved to take the room
    value to what RoomSpec says. */
module RoomEngine {
  import opened Protocol
  import Spec = RoomSpec

  class Room {
    var roomId: nat
    var isPrivate: bool
    const players: array<Player?>
    var playerCount: nat
    var phase: Phase
    var currentDrawerIdx: int
    var currentWord: string
    var roundNumber: int
    var totalRounds: int
    var roundStartTime: nat
    var timeRemaining: int
    var strokeCount: nat
    var createdAt: nat
    var gameStartCountdown: nat
    var countdownActive: bool
    var sent: seq<Message>

    // The value of the room and the players on its seats.
    ghost var view: RoomView
    ghost var seated: set<Player>

    /** The fields agree with the value; seats [0, playerCount) hold pairwise
        distinct players and the rest are empty. */
    ghost predicate Valid()
      reads this, players, seated
    {
      && players.Length == MAX_PLAYERS
      && playerCount <= MAX_PLAYERS
      && |view.seats| == playerCount
      && view == RoomView(roomId, isPrivate, view.seats, phase, currentDrawerIdx, currentWord, roundNumber, totalRounds,
                          roundStartTime, timeRemaining, strokeCount, createdAt, gameStartCountdown, countdownActive,
                          sent)
      && (forall i :: 0 <= i < playerCount ==>
            players[i] == view.seats[i].who && view.seats[i].who in seated &&
            view.seats[i].who.Snapshot() == view.seats[i])
      && (forall i :: playerCount <= i < MAX_PLAYERS ==> players[i] == null)
      && Spec.DistinctSeats(view.seats)
    }

    /** The fields would agree with the value v. */
    ghost predicate ValidWith(v: RoomView)
      reads this, players, seated
    {
      && players.Length == MAX_PLAYERS
      && playerCount <= MAX_PLAYERS
      && |v.seats| == playerCount
      && v == RoomView(roomId, isPrivate, v.seats, phase, currentDrawerIdx, currentWord, roundNumber, totalRounds,
                       roundStartTime, timeRemaining, strokeCount, createdAt, gameStartCountdown, countdownActive, sent)
      && (forall i :: 0 <= i < playerCount ==>
            players[i] == v.seats[i].who && v.seats[i].who in seated && v.seats[i].who.Snapshot() == v.seats[i])
      && (forall i :: playerCount <= i < MAX_PLAYERS ==> players[i] == null)
      && Spec.DistinctSeats(v.seats)
    }

    /** A seated player's fields were written without the room: it sees them
        through its pointer. */
    ghost method Notice(v: RoomView)
      requires ValidWith(v)
      modifies this`view
      ensures Valid() && view == v
    {
      view := v;
    }

    /** An unused slot of the room table: zeroed memory. */
    constructor ()
      ensures Valid() && fresh(players) && seated == {} && view == Spec.EmptySlot()
    {
      players := new Player?[MAX_PLAYERS](_ => null);
      roomId, isPrivate, playerCount, phase := 0, false, 0, Waiting;
      currentDrawerIdx, currentWord, roundNumber, totalRounds := 0, "", 0, 0;
      roundStartTime, timeRemaining, strokeCount, createdAt := 0, 0, 0, 0;
      gameStartCountdown, countdownActive, sent := 0, false, [];
      view, seated := Spec.EmptySlot(), {};
    }

    method AddPlayer(p: Player) returns (ok: bool)
      requires Valid() && p !in seated
      modifies this, players, p
      ensures Valid()
      ensures (view, ok) == Spec.AddPlayer(old(view), old(p.Snapshot()))
      ensures seated == old(seated) + (if ok then {p} else {})
    {
      if playerCount >= MAX_PLAYERS {
        return false;
      }
      players[playerCount] := p;
      playerCount := playerCount + 1;
      p.state := InRoom;
      view := Spec.AddPlayer(view, old(p.Snapshot())).0;
      seated := seated + {p};
      return true;
    }

    method CountUndrawn() returns (n: nat)
      requires Valid()
      ensures n == Spec.Undrawn(view.seats)
    {
      n := 0;
      for i := 0 to playerCount
        invariant n == Spec.Undrawn(view.seats[..i])
      {
        assert view.seats[..i + 1][..i] == view.seats[..i];
        if !players[i].hasDrawn {
          n := n + 1;
        }
      }
      assert view.seats[..playerCount] == view.seats;
    }

    method EndGame()
      requires Valid()
      modifies this
      ensures Valid() && seated == old(seated)
      ensures view == Spec.EndGame(old(view))
    {
      phase := Ended;
      sent := sent + [Announce(GameEnd)];
      view := Spec.EndGame(view);
    }

    /** The do/while search. `found` is false when it gave up. */
    method FindNextDrawer() returns (found: bool)
      requires Valid() && 0 < playerCount && -1 <= currentDrawerIdx
      modifies this`currentDrawerIdx, this`view
      ensures Valid()
      ensures (found, currentDrawerIdx) == Spec.Search(view.seats, old(currentDrawerIdx), 0)
      ensures view == old(view).(drawer := currentDrawerIdx)
    {
      var attempts := 0;
      var searching := true;
      found := false;
      while searching
        invariant attempts <= playerCount + 1 && -1 <= currentDrawerIdx
        invariant view == old(view)
        invariant searching ==> !found && attempts <= playerCount
        invariant if searching
                  then Spec.Search(view.seats, currentDrawerIdx, attempts) ==
                       Spec.Search(view.seats, old(currentDrawerIdx), 0)
                  else (found, currentDrawerIdx) == Spec.Search(view.seats, old(currentDrawerIdx), 0)
        decreases playerCount + 1 - attempts
      {
        currentDrawerIdx := (currentDrawerIdx + 1) % playerCount;
        attempts := attempts + 1;
        if attempts > playerCount {
          searching := false;
        } else {
          found := !players[currentDrawerIdx].hasDrawn;
          searching := !found;
        }
      }
      view := view.(drawer := currentDrawerIdx);
    }

    method MarkDrawn()
      requires Valid() && 0 <= currentDrawerIdx < playerCount
      modifies this`view, players[currentDrawerIdx]
      ensures Valid()
      ensures view == old(view).(seats := Spec.MarkSeat(old(view).seats, currentDrawerIdx))
    {
      players[currentDrawerIdx].hasDrawn := true;
      view := view.(seats := Spec.MarkSeat(view.seats, currentDrawerIdx));
    }

    method ResetTurnFlags()
      requires Valid()
      modifies this`view, seated
      ensures Valid()
      ensures view == old(view).(seats := Spec.FlagSeats(old(view).seats, currentDrawerIdx))
    {
      for i := 0 to playerCount
        invariant view == old(view)
        invariant forall j :: 0 <= j < i ==>
          view.seats[j].who.Snapshot() == Spec.FlagSeat(view.seats[j], j == currentDrawerIdx)
        invariant forall j :: i <= j < playerCount ==> view.seats[j].who.Snapshot() == view.seats[j]
      {
        var p := players[i];
        p.isDrawing := i == currentDrawerIdx;
        p.hasGuessed := false;
        p.state := if p.isDrawing then Drawing else Guessing;
      }
      view := view.(seats := Spec.FlagSeats(view.seats, currentDrawerIdx));
    }

    method BeginTurn(now: nat, word: string)
      requires Valid() && 0 <= currentDrawerIdx < playerCount
      modifies this, seated
      ensures Valid() && seated == old(seated)
      ensures view == Spec.BeginTurn(old(view), old(currentDrawerIdx), now, word)
    {
      MarkDrawn();
      currentWord := Spec.Clip(word);
      timeRemaining := ROUND_TIME;
      roundStartTime := now;
      strokeCount := 0;
      view := view.(word := currentWord, timeLeft := timeRemaining, roundStart := now, strokes := 0);
      ResetTurnFlags();
      Spec.TurnIsMarkThenFlag(old(view).seats, currentDrawerIdx);
    }

    method TakeTurn(now: nat, word: string)
      requires Valid() && -1 <= currentDrawerIdx && 0 < playerCount
      modifies this, seated
      ensures Valid() && seated == old(seated)
      ensures view == Spec.TakeTurn(old(view), now, word)
    {
      var found := FindNextDrawer();
      if found {
        BeginTurn(now, word);
      } else {
        EndGame();
      }
    }

    method StartNextRound(now: nat, word: string)
      requires Valid() && -1 <= currentDrawerIdx
      modifies this, seated
      ensures Valid() && seated == old(seated)
      ensures view == Spec.StartNextRound(old(view), now, word)
    {
      roundNumber := roundNumber + 1;
      view := view.(round := roundNumber);
      var undrawn := CountUndrawn();
      if undrawn == 0 || roundNumber > totalRounds {
        EndGame();
      } else {
        TakeTurn(now, word);
      }
    }

    method SendWord()
      requires Valid() && 0 <= currentDrawerIdx < MAX_PLAYERS
      modifies this`sent, this`view
      ensures Valid()
      ensures view == Spec.SendWord(old(view))
    {
      if players[currentDrawerIdx] != null {
        sent := sent + [WordToDraw(players[currentDrawerIdx], currentWord)];
      }
      view := Spec.SendWord(view);
    }

    method Broadcast(k: Kind)
      requires Valid()
      modifies this`sent, this`view
      ensures Valid()
      ensures view == Spec.Send(old(view), Announce(k))
    {
      sent := sent + [Announce(k)];
      view := Spec.Send(view, Announce(k));
    }

    method EndRound(now: nat, word: string)
      requires Valid() && 0 <= currentDrawerIdx < MAX_PLAYERS
      modifies this, seated
      ensures Valid() && seated == old(seated)
      ensures view == Spec.EndRound(old(view), now, word)
    {
      Broadcast(RoundEnd);
      StartNextRound(now, word);
      Broadcast(RoundStart);
      SendWord();
    }

    method ResetForGame()
      requires Valid()
      modifies this`view, seated
      ensures Valid()
      ensures view == old(view).(seats := Spec.ResetSeats(old(view).seats))
    {
      for i := 0 to playerCount
        invariant view == old(view)
        invariant forall j :: 0 <= j < i ==>
          view.seats[j].who.Snapshot() == view.seats[j].(score := 0, state := InGame, hasDrawn := false)
        invariant forall j :: i <= j < playerCount ==> view.seats[j].who.Snapshot() == view.seats[j]
      {
        var p := players[i];
        p.score := 0;
        p.state := InGame;
        p.hasDrawn := false;
      }
      view := view.(seats := Spec.ResetSeats(view.seats));
    }

    method StartGame(now: nat, word: string)
      requires Valid() && -1 <= currentDrawerIdx
      modifies this, seated
      ensures Valid() && seated == old(seated)
      ensures view == Spec.StartGame(old(view), now, word)
    {
      if playerCount < 2 {
        return;
      }
      phase := Playing;
      roundNumber := 0;
      totalRounds := playerCount;
      view := view.(phase := Playing, round := 0, total := playerCount);
      ResetForGame();
      StartNextRound(now, word);
    }

    method Launch(now: nat, word: string)
      requires Valid() && currentDrawerIdx == -1 && 2 <= playerCount
      modifies this, seated
      ensures Valid() && seated == old(seated)
      ensures view == Spec.Launch(old(view), now, word)
    {
      countdownActive := false;
      view := view.(countdownActive := false);
      StartGame(now, word);
      Broadcast(GameStart);
      if 0 <= currentDrawerIdx {
        SendWord();
      }
    }

    method FindSeat(p: Player) returns (k: int)
      requires Valid()
      ensures k == Spec.SeatOf(view.seats, p)
    {
      for i := 0 to playerCount
        invariant forall j :: 0 <= j < i ==> players[j] != p
      {
        if players[i] == p {
          return i;
        }
      }
      return -1;
    }

    /** Closes the gap at seat k by shifting the later seats down. */
    method CloseGap(k: nat)
      requires players.Length == MAX_PLAYERS && k < playerCount <= MAX_PLAYERS
      modifies players
      ensures forall i :: 0 <= i < k || playerCount <= i < MAX_PLAYERS ==> players[i] == old(players[i])
      ensures forall i :: k <= i < playerCount - 1 ==> players[i] == old(players[i + 1])
      ensures players[playerCount - 1] == null
    {
      for j := k to playerCount - 1
        invariant forall i :: 0 <= i < k || j <= i < MAX_PLAYERS ==> players[i] == old(players[i])
        invariant forall i :: k <= i < j ==> players[i] == old(players[i + 1])
      {
        players[j] := players[j + 1];
      }
      players[playerCount - 1] := null;
    }

    method ShiftOut(k: nat)
      requires Valid() && k < playerCount
      modifies this`playerCount, this`view, this`seated, players
      ensures Valid()
      ensures view == old(view).(seats := Spec.RemoveAt(old(view).seats, k))
      ensures seated == old(seated) - {old(view).seats[k].who}
    {
      CloseGap(k);
      playerCount := playerCount - 1;
      Spec.RemovedSeatGone(view.seats, k);
      seated := seated - {view.seats[k].who};
      view := view.(seats := Spec.RemoveAt(view.seats, k));
    }

    /** Recounts the rounds and repairs the drawer index after seat k closed. */
    method RepairTurn(k: nat, wasDrawing: bool)
      requires Valid() && phase == Playing && playerCount >= 2
      modifies this`totalRounds, this`currentDrawerIdx, this`view
      ensures Valid()
      ensures view == old(view).(total := roundNumber + Spec.Undrawn(old(view).seats),
                                 drawer := Spec.RepairedDrawer(old(currentDrawerIdx), k, wasDrawing, playerCount))
    {
      var remaining := CountUndrawn();
      totalRounds := roundNumber + remaining;
      if wasDrawing {
        if currentDrawerIdx > 0 {
          currentDrawerIdx := currentDrawerIdx - 1;
        } else {
          currentDrawerIdx := playerCount - 1;
        }
      } else if currentDrawerIdx > k {
        currentDrawerIdx := currentDrawerIdx - 1;
      }
      view := view.(total := totalRounds, drawer := currentDrawerIdx);
    }

    method Vacate(k: nat)
      requires Valid() && k < playerCount
      modifies this, players
      ensures Valid()
      ensures view == Spec.Vacate(old(view), k)
      ensures seated == old(seated) - {old(view).seats[k].who}
    {
      var wasDrawing := players[k].isDrawing;
      ShiftOut(k);
      if phase == Playing && playerCount >= 2 {
        RepairTurn(k, wasDrawing);
      }
    }

    method RemoveSeat(k: nat, now: nat, word: string)
      requires Valid() && k < playerCount
      requires phase == Playing ==> 0 <= currentDrawerIdx < playerCount
      modifies this, players, seated
      ensures Valid()
      ensures view == Spec.RemoveSeat(old(view), k, now, word)
      ensures seated == old(seated) - {old(view).seats[k].who}
    {
      var wasDrawing, wasInGame := players[k].isDrawing, phase == Playing;
      Vacate(k);
      if wasInGame {
        if playerCount < 2 {
          EndGame();
        } else if wasDrawing {
          EndRound(now, word);
        }
      }
    }

    method RemovePlayer(p: Player, now: nat, word: string) returns (found: bool)
      requires Valid()
      requires phase == Playing ==> 0 <= currentDrawerIdx < playerCount
      modifies this, players, seated
      ensures Valid()
      ensures view == Spec.RemovePlayer(old(view), p, now, word)
      ensures found == (Spec.SeatOf(old(view).seats, p) >= 0)
      ensures seated == old(seated) - (if found then {p} else {})
    {
      var k := FindSeat(p);
      found := k >= 0;
      if found {
        RemoveSeat(k, now, word);
      }
    }

    /** The lowercasing loop over a NUL-terminated copy of s. */
    static method LowerCase(s: string) returns (low: string)
      requires forall i :: 0 <= i < |s| ==> s[i] != '\0'
      ensures low == Spec.Lower(s)
    {
      var buf := new char[|s| + 1](i requires 0 <= i <= |s| => if i < |s| then s[i] else '\0');
      var i := 0;
      while buf[i] != '\0'
        invariant i <= |s|
        invariant forall j :: 0 <= j < i ==> buf[j] == Spec.LowerChar(s[j])
        invariant forall j :: i <= j < |s| ==> buf[j] == s[j]
        invariant buf[|s|] == '\0'
        decreases |s| - i
      {
        if 'A' <= buf[i] <= 'Z' {
          buf[i] := buf[i] + 32 as char;
        }
        i := i + 1;
      }
      low := buf[..i];
    }

    method CountSettled() returns (n: nat)
      requires Valid()
      ensures n == playerCount <==> Spec.AllSettled(view.seats)
    {
      n := 0;
      for i := 0 to playerCount
        invariant n <= i
        invariant n == i <==> forall j :: 0 <= j < i ==> view.seats[j].hasGuessed || view.seats[j].isDrawing
      {
        if players[i].hasGuessed || players[i].isDrawing {
          n := n + 1;
        }
      }
    }

    method AwardPoints(k: nat, points: int)
      requires Valid() && k < playerCount
      modifies this`view, players[k]
      ensures Valid()
      ensures view == old(view).(seats := old(view).seats[k := Spec.Award(old(view).seats[k], points)])
    {
      var p := players[k];
      p.hasGuessed := true;
      p.score := p.score + points;
      view := view.(seats := view.seats[k := Spec.Award(view.seats[k], points)]);
    }

    method CloseIfSettled(now: nat, word: string)
      requires Valid() && 0 <= currentDrawerIdx < playerCount
      modifies this, seated
      ensures Valid() && seated == old(seated)
      ensures view == Spec.CloseIfSettled(old(view), now, word)
    {
      var settled := CountSettled();
      if settled == playerCount {
        EndRound(now, word);
      }
    }

    method Score(k: nat)
      requires Valid() && k < playerCount && 0 <= timeRemaining
      modifies this, seated
      ensures Valid() && seated == old(seated)
      ensures view == Spec.ScoreGuess(old(view), k)
    {
      AwardPoints(k, 10 + timeRemaining * 90 / ROUND_TIME);
      Broadcast(ScoreUpdate);
    }

    method AcceptGuess(k: nat, now: nat, word: string)
      requires Valid() && k < playerCount
      requires 0 <= currentDrawerIdx < playerCount && 0 <= timeRemaining
      modifies this, seated
      ensures Valid() && seated == old(seated)
      ensures view == Spec.AcceptGuess(old(view), k, now, word)
    {
      Score(k);
      CloseIfSettled(now, word);
    }

    /** Words and guesses fit their buffers with room for the terminator. */
    method ProcessGuess(k: nat, guess: string, now: nat, word: string) returns (correct: bool)
      requires Valid() && k < playerCount
      requires 0 <= currentDrawerIdx < playerCount && 0 <= timeRemaining
      requires |guess| < MAX_CHAT_LEN - 1 && '\0' !in guess
      requires |currentWord| < MAX_WORD_LEN - 1 && '\0' !in currentWord
      modifies this, seated
      ensures Valid() && seated == old(seated)
      ensures (view, correct) == Spec.ProcessGuess(old(view), k, guess, now, word)
    {
      if players[k].isDrawing || players[k].hasGuessed {
        return false;
      }
      var guessLower := LowerCase(guess);
      var wordLower := LowerCase(currentWord);
      correct := guessLower == wordLower;
      if correct {
        AcceptGuess(k, now, word);
      }
    }

    method Chat(k: nat, text: string, now: nat, word: string)
      requires Valid() && k < playerCount
      requires phase == Playing ==> 0 <= currentDrawerIdx < playerCount && 0 <= timeRemaining
      requires |text| < MAX_CHAT_LEN - 1 && '\0' !in text
      requires |currentWord| < MAX_WORD_LEN - 1 && '\0' !in currentWord
      modifies this, seated
      ensures Valid() && seated == old(seated)
      ensures view == Spec.Chat(old(view), k, text, now, word)
    {
      if phase == Playing && !players[k].isDrawing {
        var correct := ProcessGuess(k, text, now, word);
        if correct {
          Broadcast(GuessCorrect);
          Broadcast(ScoreUpdate);
          return;
        }
      }
      Broadcast(ChatBroadcast);
    }

    method UpdateTimer(now: nat, word: string)
      requires Valid()
      requires phase == Playing ==> 0 <= currentDrawerIdx < playerCount && roundStartTime <= now
      modifies this, seated
      ensures Valid() && seated == old(seated)
      ensures view == Spec.UpdateTimer(old(view), now, word)
    {
      if phase != Playing {
        return;
      }
      timeRemaining := ROUND_TIME - (now - roundStartTime) / 1000;
      if timeRemaining <= 0 {
        timeRemaining := 0;
        view := view.(timeLeft := 0);
        EndRound(now, word);
      } else {
        view := view.(timeLeft := timeRemaining);
      }
    }

    method CheckCountdown(now: nat, word: string)
      requires Valid() && Spec.TickReady(view, now)
      modifies this, seated
      ensures Valid() && seated == old(seated)
      ensures view == Spec.CheckCountdown(old(view), now, word)
    {
      if !countdownActive || phase != Waiting {
        return;
      }
      var elapsed := (now - gameStartCountdown) / 1000;
      var remaining := 15 - elapsed;
      if 0 < remaining <= 15 {
        Broadcast(CountdownUpdate(remaining));
      }
      if elapsed >= 15 && playerCount >= 2 {
        Launch(now, word);
      }
    }

    method Tick(now: nat, word: string)
      requires Valid() && Spec.TickReady(view, now)
      modifies this, seated
      ensures Valid() && seated == old(seated)
      ensures view == Spec.Tick(old(view), now, word)
    {
      CheckCountdown(now, word);
      UpdateTimer(now, word);
      Broadcast(TimerUpdate(timeRemaining));
    }

    method ClearTurn()
      requires Valid()
      modifies this
      ensures Valid() && seated == old(seated) && playerCount == old(playerCount)
      ensures view == old(view).(phase := Waiting, drawer := 0, word := "", round := 0, total := 0)
    {
      phase, currentDrawerIdx, currentWord, roundNumber, totalRounds := Waiting, 0, "", 0, 0;
      view := view.(phase := Waiting, drawer := 0, word := "", round := 0, total := 0);
    }

    method ClearClocks()
      requires Valid()
      modifies this
      ensures Valid() && seated == old(seated) && playerCount == old(playerCount)
      ensures view == old(view).(roundStart := 0, timeLeft := 0, strokes := 0, countdownStart := 0,
                                 countdownActive := false)
    {
      roundStartTime, timeRemaining, strokeCount, gameStartCountdown, countdownActive := 0, 0, 0, 0, false;
      view := view.(roundStart := 0, timeLeft := 0, strokes := 0, countdownStart := 0, countdownActive := false);
    }

    /** memset over an unoccupied room, whose seats are all empty already. */
    method Clear()
      requires Valid() && playerCount == 0
      modifies this
      ensures Valid() && seated == old(seated)
      ensures view == Spec.EmptySlot()
    {
      ClearTurn();
      ClearClocks();
      roomId, isPrivate, createdAt, sent := 0, false, 0, [];
      view := Spec.EmptySlot();
    }

    method Init(id: nat, priv: bool, now: nat)
      requires Valid() && playerCount == 0
      modifies this
      ensures Valid() && seated == old(seated)
      ensures view == Spec.FreshRoom(id, priv, now)
    {
      Clear();
      roomId := id;
      isPrivate := priv;
      createdAt := now;
      currentDrawerIdx := -1;
      view := Spec.FreshRoom(id, priv, now);
    }

    method StartCountdown(now: nat)
      requires Valid()
      modifies this`countdownActive, this`gameStartCountdown, this`view
      ensures Valid()
      ensures view == Spec.StartCountdown(old(view), now)
    {
      if playerCount == 2 && !countdownActive {
        countdownActive := true;
        gameStartCountdown := now;
        view := view.(countdownActive := true, countdownStart := now);
      }
    }

    /** The tail of join_matchmaking for the room it settled on. */
    method Admit(p: Player, now: nat, word: string)
      requires Valid() && p !in seated && playerCount < MAX_PLAYERS && currentDrawerIdx == -1
      modifies this, players, seated, p
      ensures Valid() && seated == old(seated) + {p}
      ensures view == Spec.Admit(old(view), old(p.Snapshot()), now, word)
    {
      var ok := AddPlayer(p);
      StartCountdown(now);
      if playerCount == MAX_PLAYERS && phase == Waiting {
        Launch(now, word);
      }
    }

    /** The seat search of a reconnection: the first empty place of the array. */
    method Reseat(p: Player) returns (added: bool)
      requires Valid() && p !in seated
      modifies this, players
      ensures Valid()
      ensures (view, added) == Spec.Reseat(old(view), p.Snapshot())
      ensures seated == old(seated) + (if added then {p} else {})
    {
      var i := 0;
      while i < MAX_PLAYERS && players[i] != null
        invariant i <= playerCount
      {
        i := i + 1;
      }
      added := i < MAX_PLAYERS;
      if added {
        players[i] := p;
        playerCount := playerCount + 1;
        view := Spec.Reseat(view, p.Snapshot()).0;
        seated := seated + {p};
      }
    }
  }
}
