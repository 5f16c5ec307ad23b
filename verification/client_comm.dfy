/**
 * The client side of the conversation (client/src/clientCommunication.c):
 * reading and validating a guess from the terminal, decoding the round's
 * feedback and the other players' reports, and the connection handshake.
 * Terminal lines and received messages are parameters.
 */
module ClientComm {
  import opened Wrappers
  import opened Config
  import opened Wire
  import opened ClientState

  /* ---------- terminal input ---------- */

  /** A line as the user typed it: no newline, no NUL. */
  predicate IsLine(line: string) {
    '\n' !in line && Nul !in line
  }

  /** The size of the guess buffer (`BOARD_WIDTH + 2`). */
  const GuessBuffer: nat := BoardWidth + 2
  /** The size of the buffer the ready prompt reads into. */
  const ReadyBuffer: nat := 16

  /**
   * `getUserInput(buffer, size)` on one typed line: `fgets` keeps at most
   * `size - 1` chars and the rest of a long line is discarded; `strtok`
   * then cuts the newline, except on an empty line, where it finds no token
   * and the lone newline stays in the buffer.
   */
  function UserInput(line: string, size: nat): (buf: string)
    requires size >= 2
    ensures 1 <= |buf| <= size - 1
    ensures |line| > 0 ==> buf <= line
    ensures buf == line <==> 1 <= |line| <= size - 1
    ensures |line| >= size - 1 ==> buf == line[..size - 1]
    ensures |line| == 0 ==> buf == "\n"
  {
    if |line| == 0 then "\n"
    else if |line| <= size - 2 then line
    else line[..size - 1]
  }

  /** The C locale's `toupper`: only 'a' .. 'z' change. */
  function ToUpper(ch: char): (u: char)
    ensures 'a' <= ch <= 'z' ==> 'A' <= u <= 'Z' && u as int == ch as int - 32
    ensures !('a' <= ch <= 'z') ==> u == ch
  {
    if 'a' <= ch <= 'z' then (ch as int - 32) as char else ch
  }

  /** Upper-casing is idempotent, and it takes exactly the palette letters of either case into the palette. */
  lemma ToUpperPalette(ch: char)
    ensures ToUpper(ToUpper(ch)) == ToUpper(ch)
    ensures ToUpper(ch) in Colors <==> ch in Colors || ch in "rgbcym"
  {
  }

  /**
   * `sendCombination`'s check of one input buffer: the first four chars are
   * upper-cased, the buffer must hold exactly four chars, and each must be
   * a palette symbol. An accepted buffer yields the upper-cased code.
   */
  function CheckGuess(buf: string): (r: Option<seq<char>>)
    ensures r.Some? <==> |buf| == BoardWidth && forall i :: 0 <= i < BoardWidth ==> ToUpper(buf[i]) in Colors
    ensures r.Some? ==> IsCode(r.value) && forall i :: 0 <= i < BoardWidth ==> r.value[i] == ToUpper(buf[i])
  {
    var up := seq(|buf|, i requires 0 <= i < |buf| => if i < BoardWidth then ToUpper(buf[i]) else buf[i]);
    assert forall i :: 0 <= i < |buf| && i < BoardWidth ==> up[i] == ToUpper(buf[i]);
    if |up| == BoardWidth && forall i :: 0 <= i < BoardWidth ==> up[i] in Colors then Some(up)
    else None
  }

  /** Every code is accepted as itself. */
  lemma CodeAccepted(code: seq<char>)
    requires IsCode(code)
    ensures CheckGuess(code) == Some(code)
  {
    forall i | 0 <= i < BoardWidth
      ensures ToUpper(code[i]) == code[i]
    {
      assert code[i] in Colors;
    }
    assert CheckGuess(code).value == code;
  }

  /** The lower-case spelling of a code. */
  function Lower(code: seq<char>): (s: seq<char>)
    requires IsCode(code)
    ensures |s| == |code|
  {
    seq(|code|, i requires 0 <= i < |code| => (code[i] as int + 32) as char)
  }

  /** A code typed in lower case is accepted as the upper-case code. */
  lemma LowerCaseAccepted(code: seq<char>)
    requires IsCode(code)
    ensures CheckGuess(Lower(code)) == Some(code)
  {
    var low := Lower(code);
    forall i | 0 <= i < BoardWidth
      ensures ToUpper(low[i]) == code[i]
    {
      assert code[i] in Colors;
    }
    assert forall i :: 0 <= i < BoardWidth ==> ToUpper(low[i]) in Colors;
    assert CheckGuess(low).value == code;
  }

  /**
   * On a typed line the check amounts to: exactly four chars, each a
   * palette symbol in either case. Longer lines are cut to five chars by
   * the buffer and rejected; an empty line leaves "\n" and is rejected.
   */
  lemma GuessLineAccepted(line: string)
    requires IsLine(line)
    ensures CheckGuess(UserInput(line, GuessBuffer)).Some? <==>
      |line| == BoardWidth && forall i :: 0 <= i < BoardWidth ==> ToUpper(line[i]) in Colors
  {
  }

  /**
   * The prompt loop of `sendCombination`: read lines until one passes the
   * check. Returns the accepted code (`None` when the lines run out, where
   * the program would wait for more) and how many lines were read.
   */
  method ReadGuess(lines: seq<string>) returns (guess: Option<seq<char>>, used: nat)
    ensures used <= |lines|
    ensures guess.Some? ==> used >= 1 && CheckGuess(UserInput(lines[used - 1], GuessBuffer)) == guess
    ensures guess.Some? ==> IsCode(guess.value)
    ensures forall k :: 0 <= k < used && (guess.None? || k < used - 1) ==>
      CheckGuess(UserInput(lines[k], GuessBuffer)).None?
    ensures guess.None? ==> used == |lines|
  {
    guess := None;
    used := 0;
    while guess.None? && used < |lines|
      invariant used <= |lines|
      invariant guess.Some? ==> used >= 1 && CheckGuess(UserInput(lines[used - 1], GuessBuffer)) == guess
      invariant forall k :: 0 <= k < used && (guess.None? || k < used - 1) ==>
        CheckGuess(UserInput(lines[k], GuessBuffer)).None?
      decreases |lines| - used, if guess.None? then 1 else 0
    {
      guess := CheckGuess(UserInput(lines[used], GuessBuffer));
      used := used + 1;
    }
  }

  /* ---------- one round ---------- */

  /** The client's state after a step and the message it sent. */
  datatype Sent = Sent(game: ClientGame, msg: string)

  /**
   * `sendCombination` once a code is accepted: the code becomes row
   * `nbRound` of the board and is sent to the server as a C string.
   */
  function SendCombination(c: ClientGame, guess: seq<char>): (s: Sent)
    requires ClientShaped(c) && 0 <= c.nbRound < MaxRound
    requires IsCode(guess)
    ensures ClientShaped(s.game)
    ensures s.game.board[c.nbRound] == guess
    ensures forall r :: 0 <= r < MaxRound && r != c.nbRound ==> s.game.board[r] == c.board[r]
    ensures s.game.(board := c.board) == c
    ensures s.msg == guess
  {
    assert Nul !in guess by {
      forall i | 0 <= i < |guess| ensures guess[i] != Nul { assert guess[i] in Colors; }
    }
    Sent(c.(board := c.board[c.nbRound := guess]), CString(guess))
  }

  /**
   * `getResult`: the received C string is copied into a zero-filled
   * buffer of `RESULT_WIDTH + 1` bytes and each of the first two bytes,
   * read as a signed `char`, less '0' becomes result row `nbRound`.
   */
  function GetResult(c: ClientGame, m: string): (d: ClientGame)
    requires ClientShaped(c) && 0 <= c.nbRound < MaxRound
    requires |m| <= ResultWidth
    ensures ClientShaped(d)
    ensures d.result[c.nbRound] == Feedback(DecodeValue(ZeroedAt(m, 0)), DecodeValue(ZeroedAt(m, 1)))
    ensures forall r :: 0 <= r < MaxRound && r != c.nbRound ==> d.result[r] == c.result[r]
    ensures d.(result := c.result) == c
  {
    c.(result := c.result[c.nbRound := Feedback(DecodeValue(ZeroedAt(m, 0)), DecodeValue(ZeroedAt(m, 1)))])
  }

  /** A peer report decoded: place, colour, then round count. */
  function DecodePeer(m: string): (o: OtherPlayer)
    requires 2 <= |m|
    ensures m[0] as int < 256 ==> EncodeValue(o.place) == m[0]
    ensures m[1] as int < 256 ==> EncodeValue(o.color) == m[1]
    ensures |m| == 2 ==> o.nbRound == -('0' as int)
    ensures |m| > 2 && m[2] as int < 256 ==> EncodeValue(o.nbRound) == m[2]
  {
    OtherPlayer(DecodeValue(BufferAt(m, 2)), DecodeValue(m[0]), DecodeValue(m[1]))
  }

  /** The loop of `fetchOtherClientsData` from slot `i` on. */
  function FetchFrom(others: seq<OtherPlayer>, msgs: seq<string>, i: nat): (r: seq<OtherPlayer>)
    requires |msgs| <= |others| && i <= |msgs|
    requires forall k :: 0 <= k < |msgs| ==> 2 <= |msgs[k]|
    ensures |r| == |others|
    ensures forall k :: i <= k < |msgs| ==> r[k] == DecodePeer(msgs[k])
    ensures forall k :: 0 <= k < |others| && !(i <= k < |msgs|) ==> r[k] == others[k]
    decreases |msgs| - i
  {
    if i == |msgs| then others
    else FetchFrom(others[i := DecodePeer(msgs[i])], msgs, i + 1)
  }

  /**
   * `fetchOtherClientsData`: one report per other player, in order, into
   * the slots 0 .. nbPlayers-2; each report is copied into a four-byte
   * buffer and its bytes 0, 1 and 2 decoded as place, colour and round.
   */
  function FetchOtherClientsData(c: ClientGame, msgs: seq<string>): (d: ClientGame)
    requires ClientShaped(c) && c.nbPlayers <= MaxPlayers
    requires |msgs| == if c.nbPlayers >= 1 then c.nbPlayers - 1 else 0
    requires forall k :: 0 <= k < |msgs| ==> 2 <= |msgs[k]| <= ResultWidth + 1
    ensures ClientShaped(d)
    ensures forall k :: 0 <= k < |msgs| ==> d.others[k] == DecodePeer(msgs[k])
    ensures forall k :: |msgs| <= k < MaxPlayers - 1 ==> d.others[k] == c.others[k]
    ensures d.(others := c.others) == c
  {
    c.(others := FetchFrom(c.others, msgs, 0))
  }

  /* ---------- the connection handshake ---------- */

  /** On a typed line, the ready prompt's buffer reads "ready" exactly when the line is "ready". */
  lemma ReadyLine(line: string)
    requires IsLine(line)
    ensures UserInput(line, ReadyBuffer) == ReadyToken <==> line == ReadyToken
  {
  }

  /**
   * The ready prompt of `connexionWithServer`: read lines until the buffer
   * holds "ready". Returns whether that happened and how many lines were read.
   */
  method WaitReady(lines: seq<string>) returns (ready: bool, used: nat)
    ensures used <= |lines|
    ensures ready ==> used >= 1 && UserInput(lines[used - 1], ReadyBuffer) == ReadyToken
    ensures forall k :: 0 <= k < used && (!ready || k < used - 1) ==> UserInput(lines[k], ReadyBuffer) != ReadyToken
    ensures !ready ==> used == |lines|
  {
    ready := false;
    used := 0;
    while !ready && used < |lines|
      invariant used <= |lines|
      invariant ready ==> used >= 1 && UserInput(lines[used - 1], ReadyBuffer) == ReadyToken
      invariant forall k :: 0 <= k < used && (!ready || k < used - 1) ==> UserInput(lines[k], ReadyBuffer) != ReadyToken
      decreases |lines| - used, if ready then 0 else 1
    {
      ready := UserInput(lines[used], ReadyBuffer) == ReadyToken;
      used := used + 1;
    }
  }

  /**
   * The end of `connexionWithServer`: the cohort size and then the
   * player's index arrive as C strings and byte 0 of each, a signed
   * `char`, is stored (the terminator when the string is empty).
   */
  function Registration(c: ClientGame, conn: Socket, countMsg: string, indexMsg: string): (d: ClientGame)
    requires |countMsg| < ReadyBuffer && |indexMsg| < ReadyBuffer
    ensures d.socket == conn
    ensures d.nbPlayers == SignedByte(BufferAt(countMsg, 0)) && d.playerIndex == SignedByte(BufferAt(indexMsg, 0))
    ensures d.(socket := c.socket, nbPlayers := c.nbPlayers, playerIndex := c.playerIndex) == c
  {
    c.(socket := conn, nbPlayers := SignedByte(BufferAt(countMsg, 0)), playerIndex := SignedByte(BufferAt(indexMsg, 0)))
  }

  /**
   * `connexionWithServer` after connecting on `conn`: "ready" goes to the
   * server only once the user has typed "ready"; then the registration
   * messages are decoded. Without such a line the client is still waiting
   * and has sent nothing.
   */
  method ConnexionWithServer(c: ClientGame, conn: Socket, lines: seq<string>, countMsg: string, indexMsg: string)
    returns (d: ClientGame, sent: seq<string>)
    requires forall k :: 0 <= k < |lines| ==> IsLine(lines[k])
    requires |countMsg| < ReadyBuffer && |indexMsg| < ReadyBuffer
    ensures sent == [ReadyToken] || sent == []
    ensures sent == [ReadyToken] <==> ReadyToken in lines
    ensures sent == [ReadyToken] ==> d == Registration(c, conn, countMsg, indexMsg)
    ensures sent == [] ==> d == c.(socket := conn)
  {
    var ready, used := WaitReady(lines);
    if ready {
      ReadyLine(lines[used - 1]);
      sent := [ReadyToken];
      d := Registration(c, conn, countMsg, indexMsg);
    } else {
      forall k | 0 <= k < |lines|
        ensures lines[k] != ReadyToken
      {
        ReadyLine(lines[k]);
      }
      sent := [];
      d := c.(socket := conn);
    }
  }

}
