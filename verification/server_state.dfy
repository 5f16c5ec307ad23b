/**
 * The server's game record (serverData.h) and its initialisation
 * (server/src/serverInit.c).
 */
module ServerState {
  import opened Config

  /** One player slot: guesses and feedback indexed by round, the round counter, connection and readiness. */
  datatype Player = Player(
    board: seq<seq<char>>,
    result: seq<Feedback>,
    nbRound: int,
    socket: Socket,
    ready: bool)

  /** The whole game: the fixed array of player slots, how many are used, the secret and the winner. */
  datatype GameData = GameData(
    players: seq<Player>,
    nbPlayers: int,
    secret: seq<char>,
    winner: int)

  /**
   * The array shapes the C types fix: 12 board rows and 12 result rows. A
   * row's width is whatever was last written into it (4 cells by
   * initialisation and by every received guess).
   */
  predicate PlayerShaped(p: Player) {
    && |p.board| == MaxRound
    && |p.result| == MaxRound
  }

  predicate Shaped(g: GameData) {
    && |g.players| == MaxPlayers
    && (forall i :: 0 <= i < MaxPlayers ==> PlayerShaped(g.players[i]))
    && |g.secret| == BoardWidth
  }

  /** Result rows the player has not reached yet still hold (0, 0), which the scoring accumulates onto. */
  predicate RowsFresh(p: Player)
    requires PlayerShaped(p)
  {
    forall r :: 0 <= p.nbRound <= r < MaxRound ==> p.result[r] == Feedback(0, 0)
  }

  /** The state every step of play keeps: array shapes and counters within their arrays. */
  predicate Valid(g: GameData) {
    && Shaped(g)
    && 0 <= g.nbPlayers <= MaxPlayers
    && (forall i :: 0 <= i < MaxPlayers ==> 0 <= g.players[i].nbRound <= MaxRound)
  }

  /** `_playerInit`: not ready, round 0, every cell `EMPTY`, every result 0; the socket is kept. */
  function PlayerInit(p: Player): (q: Player)
    ensures PlayerShaped(q) && RowsFresh(q)
    ensures !q.ready && q.nbRound == 0
    ensures forall r :: 0 <= r < MaxRound ==> q.board[r] == EmptyRow()
    ensures forall r :: 0 <= r < MaxRound ==> q.result[r] == Feedback(0, 0)
    ensures q.socket == p.socket
  {
    Player(seq(MaxRound, _ => EmptyRow()), seq(MaxRound, _ => Feedback(0, 0)), 0, p.socket, false)
  }

  /**
   * `serverInit`: no players, no winner, every slot reinitialised, every
   * secret cell `EMPTY`.
   */
  function ServerInit(g: GameData): (h: GameData)
    requires |g.players| == MaxPlayers
    ensures Valid(h)
    ensures forall i :: 0 <= i < MaxPlayers ==> RowsFresh(h.players[i])
    ensures h.nbPlayers == 0 && h.winner == Empty
    ensures forall i :: 0 <= i < MaxPlayers ==> h.players[i] == PlayerInit(g.players[i])
    ensures forall c :: 0 <= c < BoardWidth ==> h.secret[c] == EmptyCell
  {
    GameData(
      seq(MaxPlayers, i requires 0 <= i < MaxPlayers => PlayerInit(g.players[i])),
      0,
      EmptyRow(),
      Empty)
  }

  /** Reinitialising an initialised game changes nothing; in particular every socket survives. */
  lemma ServerInitIdempotent(g: GameData)
    requires |g.players| == MaxPlayers
    ensures ServerInit(ServerInit(g)) == ServerInit(g)
    ensures forall i :: 0 <= i < MaxPlayers ==> ServerInit(g).players[i].socket == g.players[i].socket
  {
    var h := ServerInit(g);
    assert ServerInit(h).players == h.players;
  }

  /** Replace player `i`'s record. */
  function SetPlayer(g: GameData, i: nat, p: Player): (h: GameData)
    requires i < |g.players|
    ensures h.players == g.players[i := p]
    ensures h.nbPlayers == g.nbPlayers && h.secret == g.secret && h.winner == g.winner
  {
    g.(players := g.players[i := p])
  }

  /** Replacing one slot by a shaped slot whose round counter is in range, and changing the winner, keeps `Valid`. */
  lemma SetKeepsValid(g: GameData, i: nat, p: Player, winner: int)
    requires Valid(g) && i < |g.players|
    requires PlayerShaped(p) && 0 <= p.nbRound <= MaxRound
    ensures Valid(SetPlayer(g, i, p).(winner := winner))
  {
  }

}
