# Mastermind-PRS in Dafny

A model of a networked, multi-player Mastermind game written in C. The
server draws a secret code of four symbols from the six-colour palette
`R G B C Y M`. Each player has up to twelve rounds. In each round the
player sends a guess and gets feedback: how many symbols are in the right
place and how many are the right colour in the wrong place. The server
also sends the player the latest feedback of every other player. The
first player to place all four symbols wins, and every player is then
told the verdict and the secret.

The model follows the program's own files:

| module | models |
|---|---|
| `Config` | the constants and record shapes of `serverData.h` / `clientData.h` |
| `Wire` | the byte conventions both ends share: C strings, `v + '0'` in a signed `char`, `%d` formatting and scanning |
| `Scoring` | the scoring of `checkChoice`, both as a functional definition and as the program's tally loops |
| `ServerState` | the server's game record and `serverInit` / `_playerInit` |
| `ServerComm` | `getPlayerChoice`, `sendResult`, and the registration window (listener, readiness watchers, gate) as a state machine |
| `ServerGame` | `createCombinations`, `checkChoice`, one player's round loop (`clientThreadHandler`), `endGame` |
| `ClientState` | the client's game record and `initGame` |
| `ClientComm` | `getUserInput`, `sendCombination`, `getResult`, `fetchOtherClientsData`, `connexionWithServer` |
| `Client` | the client's `main` loop, `isGameOver` and `endGame` |
| `Protocol` | both ends together: every message the server sends decodes, on the client, to the value the server meant |

Concurrency is made sequential. A player's session on the server is a
loop over an input sequence of guesses. The other sessions act only
through input sequences of rival win claims: one before each loop test,
and one in each round while the session waits for the player's guess.
Registration is a sequence of events: a connection, a message on a
player's connection, and the main thread's start signal. The random
draws, the typed lines and the received messages are parameters.

The losing status is `loose:<winner>`, with -1 when nobody won. The win
claim is an unguarded test-then-write of `gameWinner`; made sequential,
the first claim is kept.

## Model

| member | source | states |
|---|---|---|
| Wire.CString | libUtils/utils.c:35-60 | what the transport delivers for a buffer is a prefix of it containing no NUL; the buffer's next byte is a NUL; a buffer without NUL travels whole |
| Wire.TerminatedReadsBack | libUtils/utils.c:35-60 | a buffer holding a NUL-free message and then a NUL is read back as exactly that message |
| Wire.ReceivedReadsBack | libUtils/utils.c:53-56 | the receive buffer after `strcpy` of a NUL-free message, up to its terminator, reads back as the message |
| Wire.ZeroedReadsBack | client/src/clientCommunication.c:103-104 | a zero-filled buffer that received a shorter NUL-free message reads back as the message |
| Wire.SignedByte | client/src/clientCommunication.c:50-53 | a `char` read as a signed 8-bit value lies in -128 .. 127 and is congruent to the byte modulo 256 |
| Wire.ToByte | server/src/serverCommunication.c:43-48 | storing an `int` into a `char` keeps it modulo 256 |
| Wire.ToByteRoundTrip | server/src/serverCommunication.c:43-48 | a value survives storage into a `char` and a signed read exactly when it lies in -128 .. 127 (both directions) |
| Wire.EncodeValue | server/src/serverCommunication.c:79-81 | `v + '0'` stored in a `char` is congruent to it modulo 256, and every count 0 .. 12 becomes one of the printable chars '0' .. '<' |
| Wire.DecodeValue | client/src/clientCommunication.c:106 | `c - '0'` on a signed `char` lies in -176 .. 79, and the server's encoding of it gives back the byte (encoding undoes decoding on every byte) |
| Wire.DecodeEncodeValue | server/src/serverCommunication.c:79-81 | the client's `c - '0'` undoes the server's `v + '0'` exactly when -176 <= v < 80 (both directions) |
| Wire.EncodeGameValue | server/src/serverCommunication.c:95-98 | every count the game sends, 0 .. 12 with round numbers included, encodes to a non-NUL char '0' .. '<' that decodes back to itself |
| Wire.FormatInt | server/src/server.c:127 | `%d` prints a minus sign exactly for negative numbers, then at least one digit, with a leading zero only for zero itself |
| Wire.ScanInt | client/src/client.c:71 | `%d` fails on a string without any digit and succeeds, with a non-negative value, on one that starts with a digit |
| Wire.DigitsValueOfDigits | server/src/server.c:127 | the decimal digits `%d` prints for a natural number denote that number |
| Wire.ScanFormatInt | client/src/client.c:71 | `sscanf` with `%d` on what `sprintf` with `%d` printed gives back the same integer, negative ones included |
| Scoring.CountIsMultiplicity | server/src/server.c:87-95 | the tally of a symbol is its multiplicity in the multiset of the code |
| Scoring.Matches | server/src/server.c:96-100 | there are at most as many well-placed symbols as the code is wide, and all positions match exactly when guess and secret are equal |
| Scoring.MatchesSubMultiset | server/src/server.c:96-100 | the well-placed symbols, taken as a multiset, are part of both the secret and the guess |
| Scoring.AddScore | server/src/server.c:96-106 | from a result row of (0, 0) the update leaves exactly the score; in general the first cell grows by the well-placed count |
| Scoring.ScoreBounds | server/src/server.c:87-106 | for a secret over the palette both counts are non-negative, the well-placed count is at most the width, and the two counts add up to at most the width |
| Scoring.ScoreOfSecret | server/src/server.c:87-106 | guessing the secret scores every symbol well placed and none misplaced |
| Scoring.ScoreOfDisjoint | server/src/server.c:87-106 | a guess sharing no symbol with the secret scores (0, 0) |
| Scoring.DisjointCommonTotal | server/src/server.c:102-105 | codes with no symbol in common have a palette-wide sum of minima of 0 |
| Scoring.ScoreSymmetric | server/src/server.c:87-106 | the feedback does not change when guess and secret swap roles |
| Scoring.PaletteOrderIrrelevant | server/src/server.c:84 | summing the minima over the scoring palette "RBGCYM" equals summing them over the drawing palette "RGBCYM" |
| Scoring.TallyPosition | server/src/server.c:88-95 | one pass of the inner loop adds 1 to symbol j's tally exactly when the position's symbol is symbol j, and changes nothing else |
| Scoring.TallyCell | server/src/server.c:87-100 | one pass of the outer loop extends both tallies from the first i positions to the first i+1 |
| Scoring.TallyBoard | server/src/server.c:87-101 | after the outer loop each tally is the symbol's count in the code and the first result cell has grown by the well-placed count |
| Scoring.SumMinima | server/src/server.c:102-105 | summing the per-symbol minima of the tallies gives the number of symbols the codes share as multisets |
| Scoring.TallyScore | server/src/server.c:87-106 | the program's loops leave exactly the functional update `AddScore` of the row |
| ServerState.PlayerInit | server/src/serverInit.c:33-44 | a reset slot is not ready, at round 0, has every board cell `EMPTY` and every result (0, 0), and keeps its socket |
| ServerState.ServerInit | server/src/serverInit.c:14-25 | the reset game has no players, no winner, every slot reset, an `EMPTY` secret, and every slot's rows fresh for scoring |
| ServerState.ServerInitIdempotent | server/src/serverInit.c:14-25 | resetting twice is resetting once, and every slot's socket survives the reset |
| ServerComm.GetPlayerChoice | server/src/serverCommunication.c:60-65 | the received guess becomes board row `nbRound` of the player; every other row, the results, the counters and the other players are unchanged |
| ServerComm.OwnReport | server/src/serverCommunication.c:79-83 | the player's own feedback is at most two bytes, and for counts 0 .. 12 exactly two bytes that decode to the place and colour counts |
| ServerComm.PeerReport | server/src/serverCommunication.c:88-100 | a peer report is at most three bytes; before the peer's first round it decodes to three zeros, afterwards to the peer's latest place and colour counts and its round count |
| ServerComm.PeerIndices | server/src/serverCommunication.c:86-87 | the peer loop visits every index below the cohort size except the player's own, each once, in increasing order |
| ServerComm.SendResult | server/src/serverCommunication.c:74-105 | one message per registered player: the player's own feedback first, then the report of the k-th other player in index order |
| ServerComm.OpenGate | server/src/serverCommunication.c:19-28 | registration starts with the game not started and the listener accepting exactly when the cohort is not full |
| ServerComm.Accept | server/src/serverCommunication.c:120-136 | a listening gate appends the connection at index `nbPlayers` and stops listening once the cohort is full; a closed gate ignores it; only sockets, the cohort size and the listener change: readiness, the secret, the winner, boards, results and round counters are untouched |
| ServerComm.Hear | server/src/serverCommunication.c:155-160 | a message changes the gate only when it is the literal "ready" for a registered, unready player, and then only that player's ready flag; readiness is never lost |
| ServerComm.Start | server/src/serverCommunication.c:30-41 | the game starts exactly when at least one player is registered and all of them are ready; the start stops the listener without registering anyone, and changes nothing of the game but one unregistered slot's socket |
| ServerComm.CohortFrozen | server/src/serverCommunication.c:120-127 | after the start, a connection changes nothing |
| ServerComm.RunRegistration | server/src/serverCommunication.c:116-143 | over any run of events the cohort stays within `MAX_PLAYERS`, registrations are only appended, and nothing is appended after the start |
| ServerComm.RunKeepsPlay | server/src/serverCommunication.c:116-163 | over any run of registration events the secret, the winner, and every slot's boards, results and round counter are as they were, so fresh rows stay fresh |
| ServerComm.RegisteredGameFresh | server/src/serverInit.c:14-25 | a game reset by `serverInit` and run through registration enters play valid, with no winner and every slot at round 0 with fresh rows, as a session's record of its rounds assumes |
| ServerComm.ReadyIsWriteOnce | server/src/serverCommunication.c:151-163 | once a player is ready, no later registration event makes it unready |
| ServerComm.WatchReady | server/src/serverCommunication.c:155-160 | the watcher stops exactly at the first "ready" message and consumes everything when there is none |
| ServerComm.HeardReady | server/src/serverCommunication.c:155-160 | feeding a registered, unready player's messages to the gate one at a time makes the player ready exactly when "ready" is among them, which is when the watcher reports it ready |
| ServerComm.RegistrationMessages | server/src/serverCommunication.c:43-50 | each registered player is sent exactly two messages after the start |
| ServerGame.CreateCombinations | server/src/server.c:33-46 | the secret is a code over the palette whose cell i is `"RGBCYM"[draws[i] % 6]`; the players and the winner are unchanged |
| ServerGame.EveryCodeCanBeDrawn | server/src/server.c:35-39 | every code over the palette is the secret for some outcome of the draws |
| ServerGame.ClaimWin | server/src/server.c:107-109 | a winner already set is kept; otherwise the player becomes the winner exactly when all four symbols are well placed |
| ServerGame.CheckChoice | server/src/server.c:82-112 | result row `nbRound` gets the score of board row `nbRound` against the secret; nothing else of the player changes, and the winner follows `ClaimWin` |
| ServerGame.PlayRound | server/src/server.c:145-150 | one round stores the guess, scores it into the fresh result row and advances the round counter by one |
| ServerGame.RoundStep | server/src/server.c:145-150 | one pass of the session loop changes only the player's slot and the winner, and sends one message per registered player, the encoded feedback first |
| ServerGame.RoundWinner | server/src/server.c:107-109 | the first claim is kept: a winner already known stays, a rival's claim while the guess is awaited beats the player's full match, and the player wins the round exactly when nobody had claimed before its check and its feedback places all four (both directions) |
| ServerGame.Replay | server/src/server.c:145-150 | replaying n guesses advances the round counter by n and keeps the socket and readiness |
| ServerGame.ReplayRecords | server/src/server.c:145-150 | after replaying guesses, each replayed round holds its guess and that guess's score, the earlier rows are kept and the later rows stay fresh |
| ServerGame.PlayFrom | server/src/server.c:145-150 | the loop plays at most the rounds the player has left, and none once a winner is known |
| ServerGame.PlayFromKeeps | server/src/server.c:145-150 | the loop's exit state is the entry slot with the first `played` guesses replayed, and a win for the player was earned by its last round |
| ServerGame.PlayFromExits | server/src/server.c:145 | the loop exits only with the rounds used up or a winner known |
| ServerGame.PlayerSession | server/src/server.c:143-153 | a session changes only the player's slot and the winner; the slot is the entry slot with the played guesses replayed; it never passes round 12; it ends with the rounds used up or a winner known; a win for the player was earned by its last feedback |
| ServerGame.SessionRecords | server/src/server.c:145-150 | every round a session plays holds its guess and that guess's score against the secret, and the rows before the session are untouched |
| ServerGame.EndGame | server/src/server.c:120-135 | every registered player gets its status and then the secret; the status is "win" exactly for the winner and "loose:<winner>" for everyone else, "loose:-1" when nobody won |
| ClientState.InitBoard | client/src/clientInit.c:16-22 | twelve board rows of four `EMPTY` cells |
| ClientState.InitResult | client/src/clientInit.c:30-36 | twelve result rows holding `EMPTY_SCORE` in both cells |
| ClientState.InitOtherPlayers | client/src/clientInit.c:44-50 | three other-player slots with round, place and colour counts 0 |
| ClientState.InitGame | client/src/clientInit.c:59-65 | no players known, round 0, the three arrays initialised; the index and the connection are left alone |
| ClientComm.UserInput | libUtils/utils.c:10-16 | the buffer is the typed line when it fits, its prefix of size-1 chars when it does not, and a lone newline when the line is empty |
| ClientComm.ToUpperPalette | client/src/clientCommunication.c:74-76 | upper-casing is idempotent, and it takes a char into the palette exactly when the char is a palette letter of either case |
| ClientComm.CheckGuess | client/src/clientCommunication.c:70-88 | a buffer is accepted exactly when it holds four chars whose upper-case forms are palette symbols, and then yields the upper-cased code |
| ClientComm.CodeAccepted | client/src/clientCommunication.c:74-88 | every code over the palette is accepted as itself |
| ClientComm.LowerCaseAccepted | client/src/clientCommunication.c:74-76 | a code typed in lower case is accepted as the upper-case code |
| ClientComm.GuessLineAccepted | client/src/clientCommunication.c:73-88 | a typed line is accepted exactly when it has four chars, each a palette symbol in either case |
| ClientComm.ReadGuess | client/src/clientCommunication.c:70-88 | the prompt loop returns the code of the first acceptable line, having rejected every line before it, or reads all lines when none is acceptable |
| ClientComm.SendCombination | client/src/clientCommunication.c:90-93 | the accepted code becomes board row `nbRound`, nothing else changes, and the code itself is sent |
| ClientComm.GetResult | client/src/clientCommunication.c:102-108 | result row `nbRound` gets the two decoded bytes of the zero-filled buffer; nothing else changes |
| ClientComm.DecodePeer | client/src/clientCommunication.c:120-122 | the server's encoding of each decoded count gives back its byte; a two-byte report reads its terminator as round -48 |
| ClientComm.FetchOtherClientsData | client/src/clientCommunication.c:116-124 | slot k gets the k-th report decoded as place, colour and round; the other slots and the rest of the state are unchanged |
| ClientComm.ReadyLine | client/src/clientCommunication.c:43-45 | the ready prompt's buffer reads "ready" exactly when the typed line is "ready" |
| ClientComm.WaitReady | client/src/clientCommunication.c:43-45 | the ready prompt stops at the first line that reads "ready" and reads every line when none does |
| ClientComm.Registration | client/src/clientCommunication.c:49-53 | the cohort size and the index are byte 0 of the two registration messages, read as signed chars; only those and the connection change |
| ClientComm.ConnexionWithServer | client/src/clientCommunication.c:43-53 | "ready" is sent exactly when the user typed "ready", and only then are the registration messages decoded |
| Client.PeerWon | client/src/client.c:45-49 | the loop finds a winner exactly when one of the first n other-player slots reports four well placed |
| Client.IsGameOverAsWritten | client/src/client.c:39-52 | the test as written reads a result row that does not exist exactly when the round is 0 |
| Client.IsGameOver | client/src/client.c:39-52 | the game is over exactly when the last feedback places all four, the rounds are used up, or another player reports four well placed |
| Client.FirstTestReadsBeforeResults | client/src/client.c:17-21 | the loop's first test, on the freshly connected state, performs the out-of-range read |
| Client.AsWrittenAgrees | client/src/client.c:39-52 | once a round has been played, the test as written and the corrected test agree |
| Client.FreshGameNotOver | client/src/client.c:17-21 | a freshly connected client is not over under the corrected test |
| Client.ClientRound | client/src/client.c:21-26 | one round stores the code, the decoded feedback and the decoded peer reports, advances the round by one and keeps the other rows |
| Client.PlayClient | client/src/client.c:21-27 | with the corrected `Client.IsGameOver` as the loop test (the same as the test as written from round 1 on, `Client.AsWrittenAgrees`): the final state is the inputs played in order, no state before it was over, so the loop stops at the first game-over state (and plays nothing when the game is over on entry) or when the inputs run out; it never passes round 12, each played round's rows hold its guess and its decoded feedback, and the earlier rows are kept |
| Client.ScanLoose | client/src/client.c:71 | the scan succeeds only on a status that starts with "loose:" followed by something, and succeeds with a non-negative value when a digit follows the prefix |
| Client.EndGameVerdict | client/src/client.c:67-77 | "win" reads as a win; otherwise the scanned winner is shown as winner+1, or as nobody when the scan fails or gives `EMPTY` |
| Protocol.PairTravels | server/src/serverCommunication.c:79-83 | two encoded game counts travel intact as a C string |
| Protocol.FeedbackReachesClient | server/src/serverCommunication.c:79-83 | the feedback the server sends for a guess fits the client's buffer and decodes to the guess's score |
| Protocol.PeerReportTravels | server/src/serverCommunication.c:88-100 | one peer report is three bytes that decode to the peer's round count and latest feedback, or to zeros before its first round |
| Protocol.PeerReportsReachClient | server/src/serverCommunication.c:86-103 | decoding everything after the own feedback fills slot k with the view of the k-th other player |
| Protocol.RegistrationReachesClient | server/src/serverCommunication.c:43-50 | every player decodes the cohort size and its own index; index 0 travels as the empty string and is read from the terminator |
| Protocol.VerdictReachesClient | server/src/server.c:123-128 | every player reads its status as a win exactly when it is the winner, otherwise as a loss to winner+1 or to nobody |
| Protocol.EndGameReachesClients | server/src/server.c:120-135 | every registered player reads its verdict correctly and is sent the secret |

## Left out

- Message transport: `sendData` / `receiveData` (libUtils/utils.c) travel over message queues with an acknowledgement code. The model keeps only what a message carries: the C string up to its first NUL.
- Threads: sessions, the listener and the readiness watchers run one at a time. The unsynchronised reads and writes of `gameWinner` and `nbPlayers` are not modelled.
- ServerGame.PlayerSession: the other sessions act only through the two claim sequences, one before each loop test and one while each round waits for its guess. A claim between the check at server/src/server.c:107 and the next loop test has the same effect as one at that loop test. The other players' slots are frozen during the session, so what the session sends about them is not part of its outcome. The messages of each round are stated by `ServerGame.RoundStep`.
- `startGame` (server/src/server.c:55-73): it only starts and joins one session per player; there is nothing beyond `PlayerSession` to model.
- `rand()` and `time()`: the draws are a parameter of `CreateCombinations`.
- Terminal output, `LOG` and the `show*` functions: they do not affect the game state.
- The IP and port prompts of `connexionWithServer` and `atoi`: the connection is a parameter.
- The write of 16 into `board[MAX_ROUND-1][0]` at server/src/serverCommunication.c:61: it is overwritten by the guess of round 12, or never read.
- The server copies a received guess with its terminator, five bytes, into a four-byte row. The terminator lands in the next board row, or in `result[0][0]` for the last row; neither byte is read again. The overflow is not modelled; the guess is the row.
- ServerGame.EndGame: the secret is a four-byte array without a terminator. The model sends it as four chars. What the C string carries past it, and the client's display of it, are not modelled.
- ServerComm.Hear: each readiness watcher is modelled with its own player index. In C every watcher gets the address of one loop-local record (server/src/serverCommunication.c:128-133), which the next accepted connection overwrites, and the watcher re-reads the index on every pass (server/src/serverCommunication.c:155-157); a watcher can thus end up watching a later player.
- The main thread's self-connect (server/src/serverCommunication.c:40) after the listener has stopped at `MAX_PLAYERS`: by then the listener has closed its socket (server/src/serverCommunication.c:140-141), so the `connect` has nothing to reach and fails inside `CHECK` (libSocket/socketSession.c:94). `CHECK` is not part of this model, so its failure path is not modelled; the model treats the connect as a no-op.
- ClientComm.FetchOtherClientsData: it requires every report to be two or three chars long. A shorter one would leave stale bytes in the buffer, which is not zeroed.
- Wire.ScanInt: `%d` overflow past the `int` range is not modelled. Every winner index printed fits.
- End of input on stdin: `fgets` failing is not modelled. The typed lines are a finite sequence, and running out of them means the program is still waiting.
- The signedness of `char`: the model assumes a signed 8-bit `char`.
- ClientComm.GetResult: result cells are `char` in the C record and are held as unbounded ints here. A decoded value below -128 would wrap in C. Such a value only comes from a byte 0x80 .. 0xAF, which the server never sends.
- ServerGame.CheckChoice: result cells are `char` on the server and ints here. A row that was not (0, 0) could in principle leave the `char` range. From the fresh rows every session starts with, the values stay within 0 .. 4.
- The `endGame` buffer of ten chars: "loose:" plus any winner index fits.

## Findings

| source | as written | input that shows it | evidently intended | confidence | as-written member | corrected member |
|---|---|---|---|---|---|---|
| client/src/client.c:40 | `isGameOver` reads `result[nbRound - 1][0]` before testing anything else, and `main` calls it at client/src/client.c:21 while `nbRound` is still 0 | any freshly connected client: round 0, so the read is `result[-1]`, outside the array | no own feedback is tested before the first round; the round limit and the other players' reports decide alone | not executed | Client.IsGameOverAsWritten (with Client.FirstTestReadsBeforeResults) | Client.IsGameOver (with Client.AsWrittenAgrees and Client.FreshGameNotOver) |
