# Scribble server, verified

A Dafny model of the Scribble drawing game: the C game server (rooms, turns,
scores, matchmaking, reconnection), the byte stream and message envelope it
talks, and the client proxy that carries messages between that stream and a
browser's WebSocket. The code updates its records in place, and so does the
model: players, rooms, the room table, the table of disconnected players, the
server, the receive buffer and the codecs are classes and methods over arrays.
Each method is proved against a function on values, and the promises of the
game are theorems about those functions, over single calls, whole runs, and the
path of a message from one end to the other.

`dafny verify dfyconfig.toml` checks everything.

## Layout

- Players and constants: `Protocol`. Concatenation facts: `Sequences`.
- The turn engine: `RoomSpec` (room values), `Room` (the class, module
  `RoomEngine`), `TurnOrder` (the queue of players still to draw),
  `RoomInvariant`, `RoomEffects` (what each step does), `Runs`, `TurnHistory`,
  `Returns` and `TurnForecast` (games with reconnections), `Termination`,
  `Scores`, `Messages`, `Guessing`, `Scenarios` (runs that show what the theorems
  leave open).
- Matchmaking: `MatchSpec`, `Matchmaking` (class `Lobby`), `LatencySpread`,
  `SpreadRuns`.
- Reconnection: `LedgerSpec`, `Reconnection` (class `Ledger`), `LedgerRuns`.
- The whole server: `ServerSpec`, `Server` (the handlers), `ServerRuns`,
  `ServerGames`, `ServerLedger`, `ServerCapacity`, `ServerComeback`, `TwoSaves`
  (a player saved twice), `ServerWords`, `PrivateRooms`.
- The byte stream and the envelope: `Framing`, `Stream` (class `Connection`),
  `Envelope`, `Parser`.
- The proxy: `Base64`, `WebSocket`, `Relay`, `Transport` (end to end).
- `Dispatch`: from the bytes of a message to the handler it reaches.

Every handler call and every timer round is one atomic step. The clock, the
word drawn from the word list and the bytes a recv delivers are inputs of the
step; the clock does not run backwards. A player is an object with identity, as
in the code, and a step reads the clock once.

## Main results

- Turn order. For every pattern of has-drawn flags and every position of the
  leaver, the queue of players still to draw survives a departure as it was,
  without the leaver, and if the drawer leaves its head becomes the drawer
  (`TurnHistory.LeaveHandsOn`). In whole games without reconnections nobody
  draws twice, the turns follow the seating, and everyone who stays draws
  exactly once (`TurnHistory.TurnOrderOfGames`). With reconnections, as
  many players are left without a turn at the end as there were returns that the
  last planning of rounds did not cover (`Returns.RoundsOwed`,
  `Returns.EndOwes`), and from any point on it is known who draws and who is left
  out, until somebody leaves or returns (`TurnForecast.Forecast`,
  `TurnForecast.ReturnerDraws`, `TurnForecast.LeftOutAtEnd`).
  The search for a drawer never gives up (`TurnHistory.SearchNeverGivesUp`).
- Every step of a room is described whole, in terms of seats, turn and messages: a
  message is a guess that counts or is shown as chat (`RoomEffects.SayEffect`),
  and likewise joins, ticks and departures (`RoomEffects.JoinEffect`,
  `RoomEffects.TickEffect`, `RoomEffects.LeaveEffect`).
- Games end after 91 ticks per player and reconnection
  (`Termination.GamesEnd`), with scores of at most 100 (n - 1)
  (`Scores.ScoresOfGames`), and GAME_END is announced exactly once
  (`Messages.RunInforms`).
- The server as a whole keeps its rooms apart (`ServerRuns.StepKeepsInv`), and a
  room in the server behaves exactly as a room alone
  (`ServerRuns.RoomRunsAlone`, `ServerGames.GamesInServer`).
- Matchmaking picks the nearest room, uniquely (`MatchSpec.BestRoomIsNearest`);
  over every run of the server, players in a room that nobody left are within
  103 ms (`SpreadRuns.SpreadOverRuns`), and 103 is reached
  (`SpreadRuns.SpreadReached`). A created room is private, and nobody but its
  creator ever sits in it (`PrivateRooms.CreatedRoomsArePrivate`).
- Every saved state is accounted for and used at most once
  (`ServerLedger.ServerSavesAccounted`), there is always a seat for whoever
  returns (`ServerCapacity.RoomForEveryone`), and after any run in between a player
  gets back what was saved if he is in time, was not evicted and no earlier entry
  has his token, and exactly then if his token was not saved already
  (`ServerComeback.ComebackRestores`).
- However a stream is cut into pieces, the server sees the same messages
  (`Stream.ChunkingDoesNotMatter`) and keeps the connection
  (`Stream.NoOverflow`); the proxy's relay does not share this: it delivers all
  messages exactly when no piece ends inside one (`Relay.RelayExact`).
- The WebSocket decoder meets RFC 6455 exactly where it does not misread a
  length through a signed `char` (`WebSocket.DecodeMeetsRfc`), and the Base64
  loop meets RFC 4648. From server to browser all messages arrive that fit, if
  no piece ends inside one (`Transport.ServerToBrowser`). From browser to server,
  as long as every recv of the proxy holds whole frames, all texts arrive exactly
  if each recv holds one frame, and one whose length is read right
  (`Transport.BrowserToServer`, `Dispatch.BrowserRequests`); each message that
  arrives takes the server one step between sound states
  (`Dispatch.HandleMessage`), and which one is said by its number
  (`Dispatch.MessageEffect`).

## Where the code does not do what one expects

- The repository's README says players are grouped within 50 ms. The 50 ms are
  measured against the mean of the players already seated, and two players of
  one room can be 103 ms apart (`SpreadRuns.SpreadReached`). Nothing in the
  server writes a round-trip time, so in the program as it stands all of them
  are 0; the model lets every player have any.
- The repository's README promises reconnection with the state restored. A
  returning player's has-drawn flag is not restored, so he may draw again
  (`Scenarios.DrawsTwice`), and as a return adds no round, the rounds can run out
  before everyone had a turn (`Scenarios.LeftOut`). `Returns.EndOwes` says how
  many are left out. Until somebody leaves or returns, a returner draws exactly if
  fewer players still to draw sit behind the drawer than rounds are left
  (`TurnForecast.ReturnerDraws`), and who is left out in the end says
  `TurnForecast.LeftOutAtEnd`; a departure plans a round for everyone in the queue
  (`TurnHistory.LeaveHandsOn`, `Returns.RoundsOwed`), which is why the player of
  `DrawsTwice` gets his turn when a third one leaves. The drawing flag is
  restored even when it is out of date: such a player ends the real drawer's turn
  when he leaves
  (`TurnHistory.FlagEndsTurn`, `Scenarios.StaleFlagEndsTurn`), and this is the
  one case in which the drawer index is moved wrongly
  (`TurnOrder.RotationSurvivesLeave`), although the queue of players still to
  draw is right all the same.
- The guessed flag is restored too, and not renewed: who returns in a later round
  with it cannot guess until the next turn, and counts as settled
  (`Guessing.FlagLastsRound`, `Guessing.ReturnLive`, `Scenarios.OldGuessCounts`).
- A disconnect request saves the player and keeps his connection, so he can be
  saved twice under one token. A return uses the entry in the lowest slot, which
  may be the older one, and the token then works a second time
  (`ServerComeback.ReturnUsesFirst`, `TwoSaves.TokenWorksTwice`).
- Registering again in the middle of a game takes away the points and the
  identity, and nothing else; no bound on scores or turns breaks.
- When the rounds run out, by the timer, the last guess or the drawer's departure,
  ROUND_START and the old word are still sent after GAME_END
  (`Messages.EndingSends`).
- The branch of a reconnection that finds the room full is never taken
  (`ServerCapacity.RoomForEveryone`).
- A departure does not look at who has guessed, so a round can go on with
  nobody left to guess until its time is up (`Guessing.LeaveLive`,
  `Scenarios.StalledRound`).
- A browser message of 126 bytes or more one of whose two length bytes is 128 or
  more (128 to 255 bytes, 384 to 511, and so on) is not read where `char` is
  signed (`WebSocket.ClientFrameComesBack`). It is dropped, or, from 249 modulo 256
  on, has no defined outcome (`Relay.MisreadOutcome`).
- The server sends messages of up to 4092 bytes; the relay drops those above
  4086 (`Relay.RelayAtFrames`). Of several frames that one recv delivers from the
  browser only the first goes on (`Relay.OnlyFirstForwarded`), and a frame of more
  than 4096 bytes never does (`Relay.OversizeLost`).

## Model

| member | source | states |
|---|---|---|
| Protocol.Player.constructor | server/protocol.h:95-111 | a new connection starts with a score of 0, in the lobby, neither drawing nor guessed nor drawn |
| Protocol.Player.CopyBack | server/game/reconnection.c:112-118 | a returning player gets back identity, score, state, drawing and guessed flags and token; whether he has drawn and his round-trip time stay those of the new connection |
| Protocol.Player.Register | server/tcp/tcp_handler.c:56-62 | a registration gives the player a new identity and token, takes the points and sends him to the lobby, and leaves the turn flags alone |
| RoomEngine.Room.constructor | server/game/matchmaking.c:19-23 | an unused slot is the all-zero room with five empty seats |
| RoomEngine.Room.Init | server/game/game_logic.c:56-75 | a slot is initialised to an empty waiting room with the given id, drawer index -1 and no countdown, whatever it held before |
| RoomEngine.Room.Clear | server/game/matchmaking.c:189-192 | an emptied room becomes an unused slot again |
| RoomEngine.Room.AddPlayer | server/game/game_logic.c:77-89 | the player goes to the first seat behind the occupied ones, or nothing changes because the room is full; the seats stay gap-free and distinct |
| RoomEngine.Room.CountUndrawn | server/game/game_logic.c:181-187 | the counting loop returns the number of seated players who have not drawn |
| RoomEngine.Room.FindNextDrawer | server/game/game_logic.c:195-208 | the do/while search performs the cyclic search that TurnOrder.SearchFindsHead characterises, from any start index down to -1, and changes only the drawer index |
| RoomEngine.Room.ResetTurnFlags | server/game/game_logic.c:226-237 | after the loop exactly the seat at the drawer index is drawing, nobody has guessed, and every other field of every player is unchanged |
| RoomEngine.Room.BeginTurn | server/game/game_logic.c:210-240 | the new drawer is marked, the word is stored cut to its buffer, the round gets its full time and start time and no strokes |
| RoomEngine.Room.StartNextRound | server/game/game_logic.c:178-240 | counts the round up and either ends the game or hands the turn to the player found, exactly as the room value says; the seated players stay the same objects |
| RoomEngine.Room.EndRound | server/game/game_logic.c:242-272 | ROUND_END, the next round, then ROUND_START and the word to whoever sits at the drawer index, also when the game has just ended |
| RoomEngine.Room.EndGame | server/game/game_logic.c:274-298 | the room is ended and GAME_END is announced |
| RoomEngine.Room.ResetForGame | server/game/game_logic.c:163-170 | every seated player starts the game with score 0 and the turn still to come; flags not reset by the code stay |
| RoomEngine.Room.StartGame | server/game/game_logic.c:156-176 | with fewer than two players nothing happens; otherwise as many rounds as players are planned and the first begins |
| RoomEngine.Room.Launch | server/game/game_logic.c:389-416 | the countdown stops, the game starts, GAME_START goes to all and the word to the drawer |
| RoomEngine.Room.FindSeat | server/game/game_logic.c:94-102 | the lowest seat of the player, or -1 exactly when he is not seated |
| RoomEngine.Room.CloseGap | server/game/game_logic.c:107-111 | the shifting loop closes the gap and frees the last seat without losing or reordering anyone |
| RoomEngine.Room.RepairTurn | server/game/game_logic.c:117-145 | recomputes the planned rounds and moves the drawer index for the closed seat |
| RoomEngine.Room.RemoveSeat | server/game/game_logic.c:104-154 | the whole cascade of a departure: gap, repaired turn, early end of the round or of the game, in place and for every position of the leaver |
| RoomEngine.Room.RemovePlayer | server/game/game_logic.c:91-154 | a player who is not seated changes nothing; otherwise the cascade runs and exactly this player is no longer seated |
| RoomEngine.Room.LowerCase | server/game/game_logic.c:312-322 | the in-place loop lowers exactly the letters A to Z |
| RoomEngine.Room.CountSettled | server/game/game_logic.c:340-347 | the count equals the number of players exactly when everyone has guessed or is drawing |
| RoomEngine.Room.ProcessGuess | server/game/game_logic.c:300-359 | ignores the drawer and those who guessed, compares without regard to case, awards points, and ends the round in the same call when nobody is left to guess |
| RoomEngine.Room.Chat | server/tcp/tcp_handler.c:138-172 | a message is a guess only while the game runs and the speaker is not drawing; a correct guess is not shown as chat |
| RoomEngine.Room.UpdateTimer | server/game/game_logic.c:361-373 | the remaining time follows the clock and the round ends when it is used up |
| RoomEngine.Room.CheckCountdown | server/game/game_logic.c:375-418 | announces the seconds left and launches the game once 15 s have passed with two players |
| RoomEngine.Room.Tick | server/main.c:23-32 | countdown first, then the round timer, then the timer announcement |
| RoomEngine.Room.Admit | server/game/matchmaking.c:146-175 | seats the player, starts the countdown at the second seat, launches the game at the fifth |
| RoomEngine.Room.Reseat | server/game/reconnection.c:120-129 | the first empty seat is always the one behind the occupied seats, and a full room is left alone |
| TurnOrder.SearchFindsHead | server/game/game_logic.c:195-208 | the search succeeds exactly when someone has not drawn, and then it finds the first such player in cyclic order after the drawer index |
| TurnOrder.TurnPopsHead | server/game/game_logic.c:195-237 | a turn takes the head of the queue of players still to draw and leaves its tail |
| TurnOrder.RotationSurvivesLeave | server/game/game_logic.c:107-145 | the cyclic order of all seats after a departure is the old one without the leaver, except exactly when the leaver sits behind the drawer and carries a drawing flag left over from a reconnection |
| TurnOrder.QueueSurvivesLeave | server/game/game_logic.c:107-145 | for arbitrary has-drawn flags and every position of the leaver, the repaired index leaves the queue of players still to draw as it was, without the leaver |
| TurnHistory.LeaveHandsOn | server/game/game_logic.c:91-154 | after the whole cascade of a departure from a running game of three or more: if the leaver was not drawing, turn and round go on and the queue is the old one without him; if he was, the head of that queue becomes the drawer and its tail the queue, or the game is over exactly when the queue is empty |
| TurnHistory.FlagEndsTurn | server/game/game_logic.c:104-145 | a departure ends the round exactly when the leaver carries the drawing flag, whoever really draws |
| RoomInvariant.StepKeepsInv | server/game/game_logic.c:77-418 | every join, message, tick, departure and reconnection keeps: at most five distinct seats, a running game has at least two players, a drawer index on a seat that is drawing, has drawn and has not guessed, planned rounds at most rounds played plus players undrawn, and public waiting rooms of two or more have a countdown |
| RoomInvariant.NextRound | server/game/game_logic.c:178-240 | the next round ends the game or begins a turn and lowers the number of players still to draw by one; the give-up branch of the search is never taken |
| RoomInvariant.StepStarted | server/game/game_logic.c:156-176 | a room that has started never goes back to waiting |
| RoomInvariant.StepSeats | server/game/game_logic.c:77-154 | a step seats nobody but the arriving player, only a departure lowers the number of players, and the room keeps its id |
| RoomInvariant.SeatedOnce | server/game/matchmaking.c:146-175 | an arrival keeps the seats distinct exactly when the player was not seated yet; the code does not check it |
| Runs.RunKeepsInv | server/game/game_logic.c:77-418 | the room invariant holds after every run, for every interleaving and every clock that does not run backwards |
| Runs.FreshRoomInv | server/game/game_logic.c:56-75 | an initialised room satisfies the invariant |
| Runs.EndedForGood | server/game/game_logic.c:274-298 | no run leaves the ended state while the room has players |
| Runs.LastSeatLaunches | server/game/matchmaking.c:157-175 | a join that fills the room leaves it in the state of a launched game |
| Runs.CountdownLaunches | server/game/game_logic.c:388-417 | a tick that starts a game does so by a launch from a startable room with the full time on the clock |
| Runs.StartLaunches | server/game/game_logic.c:156-176 | every step that starts a game, the last free seat or the countdown tick, is a launch of a room in which a game can start, with the same players on the same seats |
| Runs.StartedByGame | server/game/game_logic.c:156-176 | every run that gets a waiting room beyond waiting is a part that waits followed by a game |
| Runs.CountdownProgress | server/game/matchmaking.c:148-160 | a reachable public waiting room is not full; with two or more players its countdown runs, and any tick 15 s after the countdown began starts the game |
| Runs.RoundLasts | server/game/game_logic.c:361-371 | a tick ends the round exactly when 90 s have passed since it began, and otherwise shows the whole seconds left and changes no player |
| RoomEffects.TickEffect | server/main.c:23-42 | the whole effect of a tick: nothing on an unoccupied or ended room; a waiting room announces 15 minus the whole seconds since the countdown began, or from 15 s and two players on starts the game; a running round shows the whole seconds left, or after 90 s ends |
| RoomEffects.JoinEffect | server/game/matchmaking.c:146-175 | the whole effect of a join: the player takes the next seat and is in the room; the second seat starts the countdown now, unless it runs already, the third and fourth leave it alone, and the fifth starts the game |
| RoomEffects.LeaveEffect | server/game/game_logic.c:91-154 | the whole effect of a departure: the seat closes; a running game of two is over with GAME_END alone; in a larger one the rounds are planned anew, the round ends if the leaver carries the drawing flag, and otherwise drawer, word, clock and everything else stay |
| RoomEffects.RegisterEffect | server/tcp/tcp_handler.c:56-62 | the whole effect of a registration on the room: exactly the player's identity, token, points and state change |
| RoomEffects.EndRoundOver | server/game/game_logic.c:210-272 | the end of a round: ROUND_END, then GAME_END if the rounds ran out, ROUND_START and the word to whoever sits at the drawer index; if the game goes on, a new turn begins now: the drawer alone is drawing, nobody has guessed, the new word is shown cut to 31 characters, 90 s are on the clock and nothing is drawn; nobody's points, identity or place changes |
| RoomEffects.LaunchBegins | server/game/game_logic.c:156-240 | the start of a game: the first seat draws the first of as many rounds as players, all points are zero, the countdown is off, and GAME_START and the word to the drawer are sent |
| TurnHistory.RunGood | server/game/game_logic.c:91-240 | over every run without reconnections: the players who drew so far, followed by the queue, are an excerpt of the seating at the start, in that order |
| TurnHistory.TurnOrderOfGames | server/game/game_logic.c:156-240 | in every game without reconnections, started by the last free seat or by the countdown: nobody draws twice, turns follow the seating, exactly the seat at the drawer index is drawing, those up to it have drawn and those behind it are the queue, planned rounds equal rounds played plus players undrawn, and when the rounds run out everyone still seated has drawn exactly once |
| TurnHistory.GuardsCoincide | server/game/game_logic.c:189-193 | without reconnections the two conditions for the end of the game are the same condition |
| TurnHistory.SearchNeverGivesUp | server/game/game_logic.c:195-208 | in every reachable running game, reconnections included, a round that starts finds its drawer |
| TurnHistory.ReturnKeepsBalance | server/game/reconnection.c:112-129 | a single return keeps planned rounds equal to rounds played plus players undrawn exactly when the new connection counts as having drawn; what this comes to over a run is Returns.RoundsOwed |
| Returns.RoundsOwed | server/game/reconnection.c:112-129 | throughout every game, reconnections included, rounds played plus players undrawn exceed the planned rounds by exactly the number of accepted returns of players not counting as having drawn since the last departure from the running game |
| Returns.EndOwes | server/game/game_logic.c:189-193 | when a game ends with two or more players, those who do not count as having drawn are exactly that many, whichever step ends it |
| Returns.FlagsAreExact | server/game/game_logic.c:195-231 | in games whose returns are on new connections, no connection draws twice, and a seated player counts as having drawn exactly if a turn was his |
| Returns.EveryoneHadTurn | server/game/game_logic.c:189-193 | so when such a game ends with two or more players, each of them has had a turn on this connection exactly if no return is uncovered by the plan |
| TurnForecast.Forecast | server/game/game_logic.c:178-240 | from any point of any running game, reconnections before it included, until the next departure or return: the drawers are the front of the queue of players still to draw, in its order, as many as rounds are left, and once the game is over the queue is exactly the rest |
| TurnForecast.ReturnerInQueue | server/game/reconnection.c:112-129 | a returner who does not count as having drawn enters the queue behind the undrawn players on the seats after the drawer and in front of those on the seats up to him |
| TurnForecast.QueueMembers | server/game/game_logic.c:195-208 | the queue holds exactly the seated players who do not count as having drawn, each of them once |
| TurnForecast.ReturnerDraws | server/game/reconnection.c:112-129 | a player who returns to a running game draws on the new connection, before the next departure or return, exactly if fewer undrawn players sit behind the drawer than rounds are left |
| TurnForecast.LeftOutAtEnd | server/game/game_logic.c:189-193 | those who never come to draw before such a game ends are exactly the members of the queue behind the first as many as rounds were left |
| Scenarios.LeftOut | server/game/reconnection.c:112-129 | a run from a new room: a player leaves before his turn, returns, and the rounds run out without him having drawn on either connection |
| Scenarios.DrawsTwice | server/game/reconnection.c:112-129 | a run from a new room in which the player with one identity draws, leaves, returns and draws again |
| Scenarios.StaleFlagEndsTurn | server/game/reconnection.c:112-118 | a run from a new room: a player who left while drawing returns with the drawing flag, leaves again, and ends the turn of the real drawer, who stays |
| Termination.GamesEnd | server/game/game_logic.c:361-371 | with ticks a second apart, a game of n players, however started, is over 91 n ticks after its start, and 91 more for each reconnection, under any interleaving of guesses, registrations and departures |
| Termination.TickCost | server/main.c:23-42 | each tick of a running game uses up at least one of the ticks left |
| Scores.AwardRange | server/game/game_logic.c:328-330 | an award is ten points and one for each second left, so it lies between 10 and 100 and is 100 only at the start of the round |
| Scores.ScoresOfGames | server/game/game_logic.c:300-355 | without reconnections, in a game started either way, a score is at most 100 per round in which the player could already guess; a game of n players ends with every score between 0 and 100 (n - 1) |
| Messages.RunInforms | server/game/game_logic.c:242-298 | over every run GAME_END is announced exactly once if the game has ended and never before, and in a running game the last word handed out is the current one, to the current drawer |
| Messages.RunHandsWords | server/game/game_logic.c:257-271 | over every run, ended games included, the words actually sent are those of its steps in order: the word of each turn that starts, and the last word once more when the rounds run out |
| Messages.WordsGoToDrawers | server/game/game_logic.c:257-271 | the words actually sent over a run from a new room: one per turn, to the player whose turn it is and to nobody else, and one more exactly if the rounds ran out |
| Messages.EndingSends | server/game/game_logic.c:242-272 | exactly what every step that ends a running game sends: GAME_END alone if a departure leaves one player, and otherwise ROUND_END before it and ROUND_START and the old word after it, then what the guess or the tick adds |
| Messages.EndIsLastMessage | server/game/game_logic.c:242-272 | whichever step ends a running game, GAME_END is the last message exactly when it is a departure that leaves one player |
| Guessing.GuessIsCaseInsensitive | server/game/game_logic.c:300-324 | a guess counts exactly when its author is neither drawing nor done and it equals the word letter by letter up to case |
| Guessing.GuessPays | server/game/game_logic.c:324-354 | a correct guess pays its author ten points and the seconds left, pays nobody else, and ends the round exactly when everyone else has guessed or is drawing |
| RoomEffects.SayEffect | server/tcp/tcp_handler.c:145-172 | the whole effect of a message on the room of its author, said without the functions that compute it: while the game runs, from a player who neither draws nor has guessed, and if it is the word letter by letter up to case, it pays him ten points and one for each second left, pays nobody else, is answered by SCORE_UPDATE, GUESS_CORRECT and SCORE_UPDATE and not shown as chat, and ends the round exactly when everyone else has guessed or draws; any other message, whatever the state of the room, is shown as chat and changes nothing else |
| Guessing.RunLive | server/game/game_logic.c:340-352 | in runs without departures a running round always has someone who can still guess |
| Guessing.LeaveLive | server/game/game_logic.c:91-154 | a departure leaves a running round with nobody left to guess exactly when the leaver was not drawing, two or more players remain, and every one of them has guessed or is drawing |
| Scenarios.StalledRound | server/game/game_logic.c:140-145 | a run from a new room, three joins, the countdown, a guess and a departure, after which the round goes on with nobody left to guess |
| Guessing.FlagLastsRound | server/game/game_logic.c:300-347 | a seated player whose guess counts as made gains no points while the round lasts, whenever the guess was made; so a returner who brings the flag from an earlier round waits for the next turn |
| Guessing.ReturnLive | server/game/game_logic.c:340-347 | a return gives a round somebody to wait for exactly if the returner brings neither the guessed nor the drawing flag |
| Scenarios.OldGuessCounts | server/game/reconnection.c:112-118 | a run from a new room: a player guesses, leaves and returns in the next round; he says the new word, and it is only shown as chat |
| MatchSpec.BestRoomIsNearest | server/game/matchmaking.c:105-128 | the room chosen is the lowest-numbered of those nearest to the player among all eligible rooms nearer than 50 ms, and it is the only such room |
| MatchSpec.JoinChoosesNearest | server/game/matchmaking.c:98-179 | a join seats the player in the nearest eligible room, opens the first free slot exactly when there is none, fails exactly when there is no slot either, and changes no other room |
| MatchSpec.LatencyDiffExact | server/game/matchmaking.c:119-121 | the int arithmetic of the latency difference is exact exactly when the true difference fits an int |
| Matchmaking.Lobby.constructor | server/game/matchmaking.c:19-23 | all slots start unused, with distinct rooms |
| Matchmaking.Lobby.MeanRtt | server/game/matchmaking.c:112-119 | the loop computes the floored mean over the seated players |
| Matchmaking.Lobby.FindBest | server/game/matchmaking.c:102-128 | the search loop returns the room that BestRoomIsNearest characterises |
| Matchmaking.Lobby.FindFree | server/game/matchmaking.c:132-138 | the first slot without players, or -1 exactly when every slot has some |
| Matchmaking.Lobby.GetPlayerRoom | server/game/matchmaking.c:203-212 | the lowest room that seats the player, or -1 exactly when none does |
| Matchmaking.Lobby.FindRoomById | server/game/matchmaking.c:25-32 | an occupied room with this id, or -1 exactly when there is none |
| Matchmaking.Lobby.JoinMatchmaking | server/game/matchmaking.c:98-179 | the table in place becomes what JoinChoosesNearest describes |
| Matchmaking.Lobby.CreateRoom | server/tcp/tcp_handler.c:112-125 | a private room is opened in the first free slot with the creator as its only player |
| Matchmaking.Lobby.LeaveRoom | server/game/matchmaking.c:181-201 | the player leaves the room he sits in, the slot is cleared when that empties it, and no other room changes; afterwards no room seats him |
| Matchmaking.Lobby.Register | server/tcp/tcp_handler.c:56-62 | writing the fields of a player changes the room that seats him, in exactly his seat, and nothing else |
| Matchmaking.Lobby.IterateActiveRooms | server/game/matchmaking.c:34-43 | every occupied room that has not ended gets exactly one tick, and no other room changes |
| LatencySpread.JoinKeepsMatched | server/game/matchmaking.c:101-146 | every join keeps each room's players within 50 ms of the mean of those seated before them |
| LatencySpread.TickKeepsMatched | server/main.c:23-32 | ticks and the games they run keep it too |
| LatencySpread.SpreadBound | server/game/matchmaking.c:112-126 | in a room of at most five filled that way any two round-trip times differ by at most 49, 74, 90 and 103 ms for the second to fifth seat |
| SpreadRuns.SpreadOverRuns | server/game/matchmaking.c:98-179 | in every run of the whole server, any two players sharing a room are within 103 ms, as long as nobody has left that room or returned to it since it was opened; other rooms may see anything |
| SpreadRuns.SpreadReached | server/game/matchmaking.c:98-179 | a run from the start of the server: five different players join one after the other and end up in one room in which the bounds 49, 74, 90 and 103 ms are all met; the input needs round-trip times other than 0, which nothing in the server sets |
| LedgerSpec.SaveEvictsOldest | server/game/reconnection.c:38-57 | a save takes the first unused slot; only a full table loses an entry, and it is the first of those disconnected longest ago |
| LedgerSpec.LowestSlotFound | server/game/reconnection.c:79-92 | of several valid entries with one token, the one in the lowest slot is found, and no other |
| Reconnection.Ledger.constructor | server/game/reconnection.c:26-28 | the table starts with all entries unused |
| Reconnection.Ledger.FindFree | server/game/reconnection.c:38-45 | the first unused slot, or -1 exactly when all are in use |
| Reconnection.Ledger.FindOldest | server/game/reconnection.c:48-56 | the first entry with the least disconnect time |
| Reconnection.Ledger.Save | server/game/reconnection.c:35-73 | exactly the chosen slot is overwritten with the player's state, room and the time |
| Reconnection.Ledger.FindToken | server/game/reconnection.c:79-92 | the lowest valid entry with this token, or -1 exactly when there is none |
| Reconnection.Ledger.Cleanup | server/game/reconnection.c:146-160 | exactly the valid entries older than the timeout are invalidated |
| LedgerRuns.EverySaveAccounted | server/game/reconnection.c:35-160 | over every run: saves equal valid entries plus restores plus expired plus room-gone plus evicted; no save is restored twice, and none once 301 s have passed |
| ServerLedger.LedgerRunsAlone | server/tcp/tcp_handler.c:174-222 | a run of the server is, in the table of saved states, exactly a run of that table alone |
| ServerLedger.ServerSavesAccounted | server/tcp/tcp_handler.c:174-222 | so the same account holds for every run of the server from its start |
| ServerSpec.InvFacts | server/tcp/tcp_handler.c:84-222 | in every reachable state of the server all handlers and the timer may run: what the room engine needs of its rooms holds |
| ServerRuns.StepProjects | server/tcp/tcp_handler.c:84-222 | a step of the server is, in each occupied room, one step of that room that can happen there, or nothing |
| ServerRuns.StepOpens | server/game/matchmaking.c:130-139 | an unused slot changes only when a newcomer opens it, with the next room id |
| PrivateRooms.CreateOpensPrivate | server/game/matchmaking.c:56-71 | a create request opens the first free slot with the next room number: a private waiting room with the creator alone, and nothing else changes; without a free slot nothing changes at all |
| PrivateRooms.JoinOpensPublic | server/game/matchmaking.c:130-139 | a join request that opens a slot opens a public waiting room, likewise |
| PrivateRooms.CreatorStaysAlone | server/game/matchmaking.c:105-112 | over every run of the server in which a private waiting room with one player keeps having players, no join and no return seats anybody in it: he stays alone and no game starts |
| PrivateRooms.CreatedRoomsArePrivate | server/tcp/tcp_handler.c:112-125 | so it is from the create request on, in every reachable state of the server |
| ServerRuns.StepKeepsInv | server/tcp/tcp_handler.c:84-222 | every handler and every timer round keeps: each room satisfies its invariant, no player sits in two rooms, no two rooms share an id, saved states refer only to rooms that have started |
| ServerRuns.RunKeepsInv | server/tcp/tcp_handler.c:84-222 | the same over every run of the server, which keeps its 100 slots for rooms and 100 for saved states |
| ServerRuns.RoomRunsAlone | server/tcp/tcp_handler.c:84-222 | while a room has players, a run of the server is in that room exactly a run of the room alone, so every theorem about room runs holds in the server |
| ServerGames.GamesInServer | server/tcp/tcp_handler.c:84-222 | turn order and score bounds for every game in every room of every run of the server, if nobody returns to that room |
| ServerGames.GamesEndInServer | server/main.c:34-42 | and every such game ends within 91 timer rounds for each player and each return |
| ServerCapacity.RunKeepsRoomy | server/game/reconnection.c:120-135 | in a run from any state in which they do, the players of a room and the saved states that name it never exceed its seats |
| ServerCapacity.NeverFull | server/game/reconnection.c:131-135 | in such a state no reconnection finds its room full |
| ServerCapacity.RoomForEveryone | server/game/reconnection.c:131-135 | after every run of the server from its start, players and saved states fit the seats, and no reconnection at any later time finds its room full: the branch for it is never taken |
| ServerComeback.EvictsOldest | server/game/reconnection.c:47-57 | a step evicts a saved state exactly when a player leaves a running game, every entry is in use, none is older, and none as old stands in front |
| ServerComeback.RunKeepsEntry | server/game/reconnection.c:35-160 | over every run in which the token is neither used nor saved again, the first valid entry with it is lost exactly by eviction, if it has not timed out |
| ServerComeback.ComebackRestores | server/game/reconnection.c:35-144 | a player cut off during a game comes back after any run of the server in which his room keeps having players and his token is neither used nor saved again. If no valid entry with his token stands before the slot his state was saved in, he gets identity, score and flags back on the last seat of the same room when less than 301 s have passed and his saved state was not evicted; if no valid entry had his token at all, exactly then, otherwise no room changes, and the token works once |
| ServerComeback.ReturnUsesFirst | server/game/reconnection.c:79-144 | a return uses the lowest valid entry with the token, even if the same player was saved again in a later slot: its state goes to the room it names, or no room changes if it is too late or that room is gone; no other entry is used up |
| ServerComeback.FirstEntryReturns | server/game/reconnection.c:35-144 | over every run in between in which the token is neither used nor saved again: what the lowest entry saved is what comes back, if it is in time and was not evicted, whoever was saved later |
| TwoSaves.TokenWorksTwice | server/tcp/tcp_handler.c:352-354 | a run of the server from its start in which a player disconnects from two games on one connection and is saved twice under one token; the return brings him back to the first game, and then the token brings another connection back to the second |
| Server.Server.constructor | server/main.c:34-48 | the server starts with no rooms and no saved states |
| Server.Server.HandleJoin | server/tcp/tcp_handler.c:84-110 | the join handler changes the room table as matchmaking says and not the table of saved states |
| Server.Server.HandleCreate | server/tcp/tcp_handler.c:112-125 | the create handler opens a private room or reports failure |
| Server.Server.HandleRegister | server/tcp/tcp_handler.c:47-73 | a registration changes the player and, if he is seated, his seat, and no other state |
| Server.Server.HandleChat | server/tcp/tcp_handler.c:138-172 | a message reaches the room of its author, and only that room |
| Server.Server.HandleDisconnect | server/tcp/tcp_handler.c:205-222 | the state is saved exactly while the game runs, before the player leaves |
| Server.Server.HandleReconnect | server/tcp/tcp_handler.c:174-203 | succeeds exactly when the token is known, recent, its room exists and has a seat; the entry is used up unless the room is full |
| Server.Server.TimerRound | server/main.c:34-48 | one tick for every active room, then expiry of saved states |
| ServerWords.StepKeepsWordsFit | server/game/game_logic.c:210-220 | with short words in the list, every step of the server leaves words that fit their buffers with the terminator |
| ServerWords.RunKeepsWordsFit | server/game/game_logic.c:210-220 | so do all runs from the start, which is what the comparison of a guess asks for |
| Framing.ParseResumes | server/tcp/tcp_server.c:117-148 | parsing on from what was left over equals parsing everything at once |
| Framing.WireParses | server/tcp/tcp_server.c:117-137 | the bytes of any list of messages parse into exactly these messages, with nothing left over |
| Framing.NetworkOrder | server/tcp/tcp_server.c:126-126 | the length prefix is in network byte order: numbers compare as their bytes do from the first one on, and below 256 only the last byte counts |
| Framing.ShortWire | server/tcp/tcp_parser.c:16-18 | a payload of less than 256 bytes goes out behind 0, 0, 0 and its length, and is read as one frame |
| Framing.PartParses | server/tcp/tcp_server.c:117-148 | any front part of such a stream parses into the first messages, whole, and a proper part of the next |
| Stream.Connection.Append | server/tcp/tcp_server.c:98-115 | received bytes go behind those already in the buffer |
| Stream.Connection.Process | server/tcp/tcp_server.c:117-137 | the cursor loop hands on exactly the whole frames at the front, in order, and stops at what is left |
| Stream.Connection.Compact | server/tcp/tcp_server.c:139-148 | what is left moves to the front of the buffer unchanged |
| Stream.Connection.Receive | server/tcp/tcp_server.c:83-148 | one receive event hands on the frames completed by it and keeps exactly the unconsumed bytes; the connection is cut exactly when the buffer was full |
| Stream.ReceiveEach | server/tcp/tcp_server.c:82-148 | one receive event after the other hands on the messages, leaves the buffer and keeps or cuts the connection exactly as the run of the stream says |
| Stream.ChunkingDoesNotMatter | server/tcp/tcp_server.c:82-148 | for every way the stream is cut into recv results, the messages are those of parsing it whole, in order, and the buffer holds the unconsumed suffix |
| Stream.OnlyOversizeFills | server/tcp/tcp_server.c:85-96 | the buffer fills up only with the front of a frame longer than the buffer |
| Stream.NoOverflow | server/tcp/tcp_server.c:85-96 | a client whose frames each fit the buffer is never cut off, at any point of its stream and however it is cut |
| Stream.ClientDelivery | server/tcp/tcp_server.c:82-148 | the whole stream of such a client arrives as exactly its frames |
| Envelope.AtoiOfShow | server/utils/json.c:11-11 | printing an integer with %d and reading it with atoi gives it back, whatever non-digit follows |
| Envelope.DecIsDecimal | server/utils/json.c:11-11 | %d writes the decimal digits, the last place last and no zero in front |
| Envelope.AtoiReads | server/utils/json.c:111-123 | atoi skips spaces, takes one sign, and gives 0 without digits |
| Envelope.TypeComesBack | server/utils/json.c:7-13 | the type read from a message is the one it was created with, even if the data contains a type key |
| Envelope.DataFound | server/utils/json.c:137-144 | the data key is found where the envelope puts it |
| Envelope.StringComesBack | server/utils/json.c:92-145 | a quote-free first field of the data comes back, cut to the size of the output buffer |
| Envelope.FlatStringComesBack | server/utils/json.c:135-145 | in a message without a data key the field is found in the message itself |
| Parser.SerializeTcpMessage | server/tcp/tcp_parser.c:7-21 | writes length and text exactly when both fit, touching nothing behind them, and otherwise changes nothing |
| Parser.DeserializeTcpMessage | server/tcp/tcp_parser.c:23-42 | returns the text of the frame at the front exactly when all of it is there |
| Parser.NothingCutIsSent | server/utils/json.c:7-13 | a message is cut to 4095 characters when it is created, and one that was cut never fits the socket buffer |
| Parser.MessageComesBack | server/tcp/tcp_parser.c:7-42 | create, serialize, parse, read: text and type come back for every message that fits |
| Parser.FieldComesBack | server/utils/json.c:135-145 | so does a quote-free string of the data |
| Dispatch.Perform | server/tcp/tcp_handler.c:330-362 | every request a client can make, registration included, takes the whole server exactly the step of its event, from a sound state to a sound state, with words short enough for the next request if the list supplies a short one; a request that is not understood changes nothing |
| Dispatch.HandleMessage | server/tcp/tcp_handler.c:319-365 | the same from the bytes of a message in the buffer: an incomplete frame changes nothing |
| Dispatch.MessageEffect | server/tcp/tcp_handler.c:319-365 | what a message of each type number does to the whole server, for any data: 2 registers, 4 joins, 5 creates, 14 says the text of the field message (at most 255 characters), 25 returns with the token of the field session_token (at most 63), 29 saves and leaves; any other number, or a missing field, changes nothing |
| Dispatch.TextOfMessage | server/tcp/tcp_handler.c:127-134 | the text is the quote-free text written first in the data, cut to 255 characters |
| Dispatch.TokenOfMessage | server/tcp/tcp_handler.c:174-182 | the token likewise, cut to 63 characters |
| Dispatch.GuessComesBack | server/tcp/tcp_handler.c:127-134 | a chat message is dispatched as a guess with the quote-free text that was written, cut to the guess buffer |
| Dispatch.TokenComesBack | server/tcp/tcp_handler.c:174-182 | a reconnect request is dispatched with the token that was written, cut to its buffer |
| Dispatch.PlainComesBack | server/tcp/tcp_handler.c:330-362 | register, join, create and disconnect requests are dispatched as such, whatever data they carry |
| Dispatch.BrowserRequests | client_proxy/threads/ws_thread.c:371-399 | if every recv of the proxy holds whole frames and its outcome is defined, the handlers get the request in the first readable frame of each recv, in order, however the stream behind the proxy is cut; they get as many as the browser wrote exactly when each recv holds one readable frame, and then they get all of them |
| Base64.EncodeInto | client_proxy/threads/ws_thread.c:79-114 | the three-byte accumulator loop writes exactly the encoding of section 4 of RFC 4648, and the terminator behind it |
| Base64.EmitGroup | client_proxy/threads/ws_thread.c:86-95 | a full group of three bytes becomes the four characters of its 24 bits |
| Base64.EmitRest | client_proxy/threads/ws_thread.c:98-112 | one or two bytes left over become two or three characters and padding |
| Base64.SextetsAreGroup | client_proxy/threads/ws_thread.c:87-90 | the masks and shifts of the code pick out the four sextets of the 24-bit group |
| Base64.AlphabetTable | client_proxy/threads/ws_thread.c:74-77 | the alphabet is table 1 of RFC 4648: capital letters, small letters, digits, plus and slash, in order |
| Base64.EncodeLength | client_proxy/threads/ws_thread.c:79-114 | the encoding of n bytes has 4 ceil(n / 3) characters |
| Base64.PaddingOnlyAtEnd | client_proxy/threads/ws_thread.c:98-112 | padding fills the last group up, and no other character is '=' |
| Base64.DecodeEncode | client_proxy/threads/ws_thread.c:79-114 | a decoder gives the bytes back, for every input |
| WebSocket.MaskUndone | client_proxy/threads/ws_thread.c:204-206 | masking twice with the same key gives the payload back |
| WebSocket.XorIsExclusive | client_proxy/threads/ws_thread.c:204-206 | the masking operation is exclusive or: each of the eight bits is set exactly if it is set in one of the two bytes and not in the other |
| WebSocket.ZeroKey | client_proxy/threads/ws_thread.c:204-206 | masking with the zero key changes nothing |
| WebSocket.KeyRepeats | client_proxy/threads/ws_thread.c:204-206 | over zero bytes the key appears from its first byte on, again and again |
| WebSocket.FrameBytes | client_proxy/threads/ws_thread.c:219-237 | the layout of section 5.2 of RFC 6455 byte by byte: final text frame, mask bit and length, the two bytes of a longer length from the higher one on, the key, and the payload, readable under the zero key |
| WebSocket.DecodeMeetsRfc | client_proxy/threads/ws_thread.c:167-216 | on every buffer whose length field has at most 16 bits the decoder agrees with sections 5.2 and 5.3 of RFC 6455 exactly when it does not read a length byte of 128 or more through a signed char; then it reads a negative length |
| WebSocket.ClientFrameComesBack | client_proxy/threads/ws_thread.c:167-216 | a masked text frame of a browser, with any key and anything behind it, is read back whole exactly when char is unsigned, its length is below 126, or both its length bytes are below 128 |
| WebSocket.ServerFrameComesBack | client_proxy/threads/ws_thread.c:219-237 | the encoder's own frames are read back by the decoder under the same condition |
| WebSocket.PartIgnored | client_proxy/threads/ws_thread.c:167-216 | any proper part of a readable frame is ignored |
| WebSocket.FirstByte | client_proxy/threads/ws_thread.c:167-184 | of the first byte only the opcode is looked at, and only text and continuation frames are taken |
| WebSocket.LongIgnored | client_proxy/threads/ws_thread.c:192-195 | a frame with a 64-bit length field is ignored, whatever it holds |
| WebSocket.RfcReadsClient | client_proxy/threads/ws_thread.c:197-206 | a decoder by the standard reads every masked text frame back |
| WebSocket.RfcReadsServer | client_proxy/threads/ws_thread.c:219-237 | a decoder by the standard reads every encoded frame back |
| WebSocket.DecodeInto | client_proxy/threads/ws_thread.c:167-216 | the decoder fills the payload buffer and returns the frame size as the decoding function says, -1 when it ignores the bytes |
| WebSocket.Unmask | client_proxy/threads/ws_thread.c:204-206 | the unmasking loop writes the payload of section 5.3 and nothing behind it |
| WebSocket.EncodeInto | client_proxy/threads/ws_thread.c:219-237 | writes the standard's text frame, or returns -1 exactly when ten spare bytes are missing or the length does not fit 16 bits |
| Relay.RelayChunk | client_proxy/threads/ws_thread.c:412-439 | the offset loop sends one standard frame, in order, for each complete server message whose payload is at most BUFFER_SIZE - 10 bytes |
| Relay.RelayAtFrames | client_proxy/threads/ws_thread.c:412-439 | while no recv ends inside a message the browser gets exactly the messages that fit, in order |
| Relay.RelayExact | client_proxy/threads/ws_thread.c:412-439 | when all messages fit, the browser gets all of them, in order and nothing else, exactly if no recv ends inside one; every recv starts with bytes that the loop can read as a length below 2^31 - 4, or with fewer than four |
| Relay.ForwardChunk | client_proxy/threads/ws_thread.c:371-399 | one recv of at most BUFFER_SIZE bytes from the browser yields at most one length-prefixed message to the server, whenever its outcome is defined |
| Relay.OnlyFirstForwarded | client_proxy/threads/ws_thread.c:371-399 | a text in a readable frame goes on as one message, and nothing behind it in the same recv of at most BUFFER_SIZE bytes does |
| Relay.UnreadableLost | client_proxy/threads/ws_thread.c:184-216 | a text in a frame whose length is misread does not go on |
| Relay.MisreadOutcome | client_proxy/threads/ws_thread.c:371-399 | what happens to it: nothing, exactly if its length modulo 256 is below 249; otherwise the outcome is not defined |
| Relay.TextAlwaysFits | client_proxy/threads/ws_thread.c:371-399 | a text that one recv delivers in a frame always fits the message to the server, so it goes on |
| Relay.OversizeLost | client_proxy/threads/ws_thread.c:371-375 | no part that one recv can deliver of a readable frame larger than the receive buffer goes on |
| Transport.ServerToBrowser | client_proxy/threads/ws_thread.c:412-439 | from the server's messages to what a standard browser reads: the same texts in the same order, while they fit and no recv ends inside one |
| Transport.ProxyForwardsAll | client_proxy/threads/ws_thread.c:371-399 | if every recv of the proxy holds whole frames, at most BUFFER_SIZE bytes, then what leaves the proxy is all that the browser wrote exactly if each recv holds one frame whose length is read right |
| Transport.BrowserToServer | client_proxy/threads/ws_thread.c:371-399 | under that condition on the recvs, and if their outcome is defined, the server reads the first readable text of each recv, in order, however the stream behind the proxy is cut; these are all the texts exactly if each recv holds one readable frame |

## Left out

- RoomEngine.Room.ProcessGuess: requires guesses below 255 and words below 31 characters; at these lengths strncpy leaves the copies without a terminator and the comparison reads uninitialised bytes.
- RoomEngine.Room.Chat: the same limits on guess and word.
- Server.Server.HandleChat: the same limits; starts from the text that was extracted from the message, which is Envelope.StringComesBack.
- Dispatch.HandleMessage: the same limits; requires players who join, create or return not to be seated; a message without a type key is taken as unknown, where the code switches on an uninitialised type. Ping, strokes and clearing the canvas are taken as requests that change no room.
- RoomEngine.Room.AddPlayer: requires a player who is not seated yet; the code does not check this and would seat him twice (RoomInvariant.SeatedOnce).
- RoomEngine.Room.Admit: the same.
- RoomEngine.Room.Reseat: the same.
- Matchmaking.Lobby.JoinMatchmaking: the same; does not model the wrap-around of the 32-bit room counter.
- Matchmaking.Lobby.CreateRoom: the same.
- Server.Server.HandleJoin: the same; the handler does not check it.
- Server.Server.HandleCreate: the same.
- Server.Server.HandleReconnect: the same; tokens are taken to be shorter than their 64-byte buffers and copied whole.
- RoomEngine.Room.UpdateTimer: does not model the narrowing of the elapsed seconds to int, which needs a round that is 68 years old.
- Matchmaking.Lobby.MeanRtt: does not model the wrap-around of a 64-bit sum of at most four round-trip times.
- Stream.Connection.Process: requires declared lengths below 2^31 - 4, above which the int arithmetic of the loop overflows.
- Stream.Connection.Receive: the same.
- Stream.ReceiveEach: the same.
- Parser.DeserializeTcpMessage: the same, and memory for the copy.
- Relay.RelayChunk: the same; a stream of the server that is cut at messages satisfies it.
- Relay.RelayExact: the same, for every recv.
- Relay.ForwardChunk: requires a defined outcome; if a length misread as negative gives a result above zero, or the frame is not masked, what the code then does is not defined by the C language.
- Transport.BrowserToServer: requires recvs that hold whole frames; of a frame that is cut, the first part is ignored (WebSocket.PartIgnored), and what the later parts decode to depends on the masked bytes.
- Dispatch.BrowserRequests: the same.
- WebSocket.DecodeInto: for a negative length in an unmasked frame the code calls memcpy with a size no buffer has; the model returns the length and leaves the payload alone.
- WebSocket.DecodeMeetsRfc: requires a length field of at most 16 bits; the decoder ignores every frame with a 64-bit length, and no such frame in shortest form fits its buffer.
- ServerComeback.ComebackRestores: requires that the room keeps having players, as a room that empties is gone, and that no valid entry with the token stands before the slot of the save; what a return does then is ServerComeback.ReturnUsesFirst, and TwoSaves.TokenWorksTwice is a run that gets there.
- Sockets, select loops, accept and close, the HTTP server, logging, the web UI: input and output.
- The WebSocket handshake: the SHA-1 routine is not part of this model, only the Base64 encoder is.
- Room codes and join_private_room: nothing calls the latter, so nobody joins a private room.
- The sliding of player records when a client is dropped: records are moved while rooms still point to them. Players are objects with identity here.
- Data races between the timer thread and the network threads: steps are atomic.
- The JSON of room states, the word mask, the broadcasts that handlers add around a step (room joined, player joined, player left): the log of a room holds what the engine itself sends and the score and chat broadcasts.
- Drawing: strokes, the brace scan of the stroke handler, clearing the canvas, the UDP path and byte-order helpers.
- The proxy's queues, dispatcher, state cache and TCP and UDP threads: browser traffic does not pass through them.
- Word list loading and random choices: the word of a round is an input.
