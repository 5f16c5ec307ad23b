/**
 * The client's game record (clientData.h) and its initialisation
 * (client/src/clientInit.c).
 */
module ClientState {
  import opened Config

  /** What the client knows about another player: its round count and latest feedback. */
  datatype OtherPlayer = OtherPlayer(nbRound: int, place: int, color: int)

  /**
   * The client's view of the game: its own guesses and feedback by round,
   * the round counter, the other players, the cohort size, its own index
   * and its connection.
   */
  datatype ClientGame = ClientGame(
    board: seq<seq<char>>,
    result: seq<Feedback>,
    nbRound: int,
    others: seq<OtherPlayer>,
    nbPlayers: int,
    playerIndex: int,
    socket: Socket)

  /** The array shapes the C types fix: 12 board rows, 12 result rows, 3 other-player slots. */
  predicate ClientShaped(c: ClientGame) {
    && |c.board| == MaxRound
    && |c.result| == MaxRound
    && |c.others| == MaxPlayers - 1
  }

  /** An other-player slot nobody has reported on yet. */
  const Unreported: OtherPlayer := OtherPlayer(0, 0, 0)

  /** `_initBoard`: every cell of every row `EMPTY`. */
  function InitBoard(): (board: seq<seq<char>>)
    ensures |board| == MaxRound
    ensures forall r :: 0 <= r < MaxRound ==> |board[r]| == BoardWidth
    ensures forall r, k :: 0 <= r < MaxRound && 0 <= k < BoardWidth ==> board[r][k] == EmptyCell
  {
    seq(MaxRound, _ => EmptyRow())
  }

  /** `_initResult`: every result cell `EMPTY_SCORE`. */
  function InitResult(): (result: seq<Feedback>)
    ensures |result| == MaxRound
    ensures forall r :: 0 <= r < MaxRound ==> result[r].place == EmptyScore && result[r].color == EmptyScore
  {
    seq(MaxRound, _ => Feedback(EmptyScore, EmptyScore))
  }

  /** `_initOtherPlayers`: every slot's round, place and colour counts 0. */
  function InitOtherPlayers(): (others: seq<OtherPlayer>)
    ensures |others| == MaxPlayers - 1
    ensures forall i :: 0 <= i < MaxPlayers - 1 ==>
      others[i].nbRound == 0 && others[i].place == 0 && others[i].color == 0
  {
    seq(MaxPlayers - 1, _ => Unreported)
  }

  /**
   * `initGame`: no players known, round 0, and the three arrays
   * initialised; the player index and the connection are left as they were.
   */
  function InitGame(c: ClientGame): (d: ClientGame)
    ensures ClientShaped(d)
    ensures d.nbPlayers == 0 && d.nbRound == 0
    ensures forall r :: 0 <= r < MaxRound ==> d.board[r] == EmptyRow()
    ensures forall r :: 0 <= r < MaxRound ==> d.result[r] == Feedback(EmptyScore, EmptyScore)
    ensures forall i :: 0 <= i < MaxPlayers - 1 ==> d.others[i] == Unreported
    ensures d.playerIndex == c.playerIndex && d.socket == c.socket
  {
    c.(nbPlayers := 0, nbRound := 0, board := InitBoard(), result := InitResult(), others := InitOtherPlayers())
  }

}
