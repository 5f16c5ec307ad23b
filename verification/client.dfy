/**
 * The client's main loop (client/src/client.c): the game-over test, one
 * round of play, and reading the end-of-game verdict.
 */
module Client {
  import opened Wrappers
  import opened Config
  import opened Wire
  import opened ClientState
  import opened ClientComm

  /* ---------- is the game over? ---------- */

  /** The `for` loop of `isGameOver`: does one of the first `n` other players report a full match? */
  function PeerWon(others: seq<OtherPlayer>, n: int): (won: bool)
    requires n <= |others|
    ensures won <==> exists i :: 0 <= i < n && others[i].place == BoardWidth
    decreases n
  {
    if n <= 0 then false
    else PeerWon(others, n - 1) || others[n - 1].place == BoardWidth
  }

  /**
   * `isGameOver` as written: it reads result row `nbRound - 1` first, which
   * does not exist while `nbRound` is 0; that read is `None` here.
   */
  function IsGameOverAsWritten(c: ClientGame): (over: Option<bool>)
    requires ClientShaped(c) && 0 <= c.nbRound <= MaxRound && c.nbPlayers <= MaxPlayers
    ensures over.None? <==> c.nbRound == 0
  {
    if c.nbRound - 1 < 0 then None
    else if c.result[c.nbRound - 1].place == BoardWidth then Some(true)
    else if c.nbRound == MaxRound then Some(true)
    else Some(PeerWon(c.others, c.nbPlayers - 1))
  }

  /**
   * The game-over test as intended: the player's last feedback is a full
   * match, or its rounds are used up, or another player reports a full
   * match. Before the first round there is no own feedback to test.
   */
  function IsGameOver(c: ClientGame): (over: bool)
    requires ClientShaped(c) && 0 <= c.nbRound <= MaxRound && c.nbPlayers <= MaxPlayers
    ensures over <==>
      || (c.nbRound >= 1 && c.result[c.nbRound - 1].place == BoardWidth)
      || c.nbRound == MaxRound
      || exists i :: 0 <= i < c.nbPlayers - 1 && c.others[i].place == BoardWidth
  {
    if c.nbRound >= 1 && c.result[c.nbRound - 1].place == BoardWidth then true
    else if c.nbRound == MaxRound then true
    else PeerWon(c.others, c.nbPlayers - 1)
  }

  /** The loop's first test runs on the freshly initialised and connected state, whose round is 0: the read is out of bounds. */
  lemma FirstTestReadsBeforeResults(c: ClientGame, conn: Socket, countMsg: string, indexMsg: string)
    requires |countMsg| < ReadyBuffer && |indexMsg| < ReadyBuffer
    requires SignedByte(BufferAt(countMsg, 0)) <= MaxPlayers
    ensures IsGameOverAsWritten(Registration(InitGame(c), conn, countMsg, indexMsg)) == None
  {
  }

  /** Once a round has been played, the code as written and the intended test agree. */
  lemma AsWrittenAgrees(c: ClientGame)
    requires ClientShaped(c) && 1 <= c.nbRound <= MaxRound && c.nbPlayers <= MaxPlayers
    ensures IsGameOverAsWritten(c) == Some(IsGameOver(c))
  {
  }

  /** A freshly connected client is not over: no round played, no other player reported. */
  lemma FreshGameNotOver(c: ClientGame, conn: Socket, countMsg: string, indexMsg: string)
    requires |countMsg| < ReadyBuffer && |indexMsg| < ReadyBuffer
    requires SignedByte(BufferAt(countMsg, 0)) <= MaxPlayers
    ensures !IsGameOver(Registration(InitGame(c), conn, countMsg, indexMsg))
  {
    var d := Registration(InitGame(c), conn, countMsg, indexMsg);
    assert forall i :: 0 <= i < MaxPlayers - 1 ==> d.others[i] == Unreported;
  }

  /* ---------- one round ---------- */

  /** What one round reads: the accepted code, the server's feedback, and one report per other player. */
  datatype RoundInput = RoundInput(guess: seq<char>, own: string, peers: seq<string>)

  /** The inputs a round can be given in state `c`. */
  predicate RoundInputFits(c: ClientGame, x: RoundInput) {
    && IsCode(x.guess)
    && |x.own| <= ResultWidth
    && |x.peers| == (if c.nbPlayers >= 1 then c.nbPlayers - 1 else 0)
    && forall k :: 0 <= k < |x.peers| ==> 2 <= |x.peers[k]| <= ResultWidth + 1
  }

  /**
   * One pass of `main`'s loop: send the code, decode the feedback, decode
   * the other players' reports, and advance the round counter.
   */
  function ClientRound(c: ClientGame, x: RoundInput): (d: ClientGame)
    requires ClientShaped(c) && 0 <= c.nbRound < MaxRound && c.nbPlayers <= MaxPlayers
    requires RoundInputFits(c, x)
    ensures ClientShaped(d) && d.nbRound == c.nbRound + 1
    ensures d.board[c.nbRound] == x.guess
    ensures d.result[c.nbRound] == Feedback(DecodeValue(ZeroedAt(x.own, 0)), DecodeValue(ZeroedAt(x.own, 1)))
    ensures forall r :: 0 <= r < MaxRound && r != c.nbRound ==> d.board[r] == c.board[r] && d.result[r] == c.result[r]
    ensures forall k :: 0 <= k < |x.peers| ==> d.others[k] == DecodePeer(x.peers[k])
    ensures d.nbPlayers == c.nbPlayers && d.playerIndex == c.playerIndex && d.socket == c.socket
  {
    var s := SendCombination(c, x.guess);
    var e := GetResult(s.game, x.own);
    var f := FetchOtherClientsData(e, x.peers);
    f.(nbRound := f.nbRound + 1)
  }

  /** The state after playing the first `n` of the rounds `xs` in order from `c`. */
  function Rounds(c: ClientGame, xs: seq<RoundInput>, n: nat): (d: ClientGame)
    requires ClientShaped(c) && 0 <= c.nbRound && c.nbRound + n <= MaxRound && c.nbPlayers <= MaxPlayers
    requires n <= |xs| && forall k :: 0 <= k < |xs| ==> RoundInputFits(c, xs[k])
    ensures ClientShaped(d) && d.nbRound == c.nbRound + n
    ensures d.nbPlayers == c.nbPlayers && d.playerIndex == c.playerIndex && d.socket == c.socket
  {
    if n == 0 then c
    else
      var d := Rounds(c, xs, n - 1);
      assert RoundInputFits(c, xs[n - 1]);
      ClientRound(d, xs[n - 1])
  }

  /** The feedback a round's input decodes to, as `getResult` reads its zero-filled buffer. */
  function OwnFeedback(x: RoundInput): Feedback {
    Feedback(DecodeValue(ZeroedAt(x.own, 0)), DecodeValue(ZeroedAt(x.own, 1)))
  }

  /**
   * Where `main`'s loop stands after `played` rounds from state `c`: the
   * counters advanced together, each round's rows hold its guess and its
   * decoded feedback, the rows before are untouched and the cohort and
   * connection are unchanged.
   */
  predicate Played(c: ClientGame, rounds: seq<RoundInput>, d: ClientGame, played: nat)
    requires ClientShaped(c) && 0 <= c.nbRound <= MaxRound
  {
    && ClientShaped(d) && d.nbRound == c.nbRound + played <= MaxRound
    && played <= |rounds|
    && (forall j :: c.nbRound <= j < d.nbRound ==>
          d.board[j] == rounds[j - c.nbRound].guess && d.result[j] == OwnFeedback(rounds[j - c.nbRound]))
    && (forall r :: 0 <= r < c.nbRound ==> d.board[r] == c.board[r] && d.result[r] == c.result[r])
    && d.nbPlayers == c.nbPlayers && d.playerIndex == c.playerIndex && d.socket == c.socket
  }

  /** One more round keeps `Played`. */
  lemma PlayedStep(c: ClientGame, rounds: seq<RoundInput>, d: ClientGame, played: nat)
    requires ClientShaped(c) && 0 <= c.nbRound <= MaxRound && c.nbPlayers <= MaxPlayers
    requires forall k :: 0 <= k < |rounds| ==> RoundInputFits(c, rounds[k])
    requires Played(c, rounds, d, played) && d.nbRound < MaxRound && played < |rounds|
    ensures RoundInputFits(d, rounds[played])
    ensures Played(c, rounds, ClientRound(d, rounds[played]), played + 1)
  {
    var e := ClientRound(d, rounds[played]);
    forall j | c.nbRound <= j < e.nbRound
      ensures e.board[j] == rounds[j - c.nbRound].guess && e.result[j] == OwnFeedback(rounds[j - c.nbRound])
    {
      if j < d.nbRound {
        assert e.board[j] == d.board[j] && e.result[j] == d.result[j];
      }
    }
  }

  /** No state the loop tested before round `played` was over. */
  predicate NotOverBefore(c: ClientGame, rounds: seq<RoundInput>, played: nat)
    requires ClientShaped(c) && 0 <= c.nbRound && c.nbRound + played <= MaxRound && c.nbPlayers <= MaxPlayers
    requires played <= |rounds| && forall k :: 0 <= k < |rounds| ==> RoundInputFits(c, rounds[k])
  {
    forall k :: 0 <= k < played ==> !IsGameOver(Rounds(c, rounds, k))
  }

  /** A tested state that is not over extends `NotOverBefore` by one round. */
  lemma NotOverStep(c: ClientGame, rounds: seq<RoundInput>, played: nat)
    requires ClientShaped(c) && 0 <= c.nbRound && c.nbRound + played < MaxRound && c.nbPlayers <= MaxPlayers
    requires played < |rounds| && forall k :: 0 <= k < |rounds| ==> RoundInputFits(c, rounds[k])
    requires NotOverBefore(c, rounds, played) && !IsGameOver(Rounds(c, rounds, played))
    ensures NotOverBefore(c, rounds, played + 1)
  {
  }

  /**
   * `main`'s loop from a connected state, tested with the corrected
   * `IsGameOver` (which agrees with the test as written from round 1 on,
   * `AsWrittenAgrees`): play rounds with the given inputs while the game is
   * not over. The state is the inputs played in order; no state before the
   * last was over, so the loop stops at the first game-over state or when
   * the inputs run out, and never plays past round 12.
   */
  method PlayClient(c: ClientGame, rounds: seq<RoundInput>) returns (d: ClientGame, played: nat)
    requires ClientShaped(c) && 0 <= c.nbRound <= MaxRound && c.nbPlayers <= MaxPlayers
    requires forall k :: 0 <= k < |rounds| ==> RoundInputFits(c, rounds[k])
    ensures ClientShaped(d) && d.nbRound == c.nbRound + played <= MaxRound
    ensures d.nbPlayers == c.nbPlayers && d.playerIndex == c.playerIndex && d.socket == c.socket
    ensures played <= |rounds|
    ensures IsGameOver(c) ==> played == 0
    ensures IsGameOver(d) || played == |rounds|
    ensures forall j :: c.nbRound <= j < d.nbRound ==>
      d.board[j] == rounds[j - c.nbRound].guess && d.result[j] == OwnFeedback(rounds[j - c.nbRound])
    ensures forall r :: 0 <= r < c.nbRound ==> d.board[r] == c.board[r] && d.result[r] == c.result[r]
    ensures NotOverBefore(c, rounds, played)
    ensures d == Rounds(c, rounds, played)
  {
    d := c;
    played := 0;
    while !IsGameOver(d) && played < |rounds|
      invariant Played(c, rounds, d, played)
      invariant d == Rounds(c, rounds, played)
      invariant NotOverBefore(c, rounds, played)
      invariant IsGameOver(c) ==> played == 0
      decreases |rounds| - played
    {
      PlayedStep(c, rounds, d, played);
      NotOverStep(c, rounds, played);
      d := ClientRound(d, rounds[played]);
      played := played + 1;
    }
  }

  /* ---------- the end of the game ---------- */

  /** How the client reads the end of the game. */
  datatype Verdict = Won | LostTo(player: int) | NobodyWon

  /** `sscanf(status, "loose:%d", &winner)`: the literal prefix must match, then `%d` scans. */
  function ScanLoose(status: string): (r: Option<int>)
    ensures r.Some? ==> |status| > 6 && status[..6] == "loose:"
    ensures |status| > 6 && status[..6] == "loose:" && IsDigit(status[6]) ==> r.Some? && r.value >= 0
  {
    if |status| >= 6 && status[..6] == "loose:" then ScanInt(status[6..]) else None
  }

  /**
   * `endGame`'s reading of the status message: "win" is a win; otherwise
   * the winner scanned from "loose:<winner>" (left at `EMPTY` when the scan
   * fails) is shown as player winner+1, or as nobody when it is `EMPTY`.
   */
  function EndGameVerdict(status: string): (v: Verdict)
    ensures v == Won <==> status == "win"
    ensures v.LostTo? <==> status != "win" && ScanLoose(status).Some? && ScanLoose(status).value != Empty
    ensures v.LostTo? ==> v.player == ScanLoose(status).value + 1
  {
    if status == "win" then Won
    else
      var winner := match ScanLoose(status) case Some(w) => w case None => Empty;
      if winner == Empty then NobodyWon else LostTo(winner + 1)
  }

}
