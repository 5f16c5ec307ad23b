/**
 * The two ends together: what the server sends, the client decodes back
 * into the values the server meant, for every message of the game.
 */
module Protocol {
  import opened Config
  import opened Wire
  import opened Scoring
  import opened ServerState
  import opened ServerComm
  import opened ServerGame
  import opened ClientState
  import opened ClientComm
  import opened Client

  /** Both encoded counts are printable, so the C string carries both. */
  lemma PairTravels(a: int, b: int)
    requires 0 <= a <= 12 && 0 <= b <= 12
    ensures CString([EncodeValue(a), EncodeValue(b)]) == [EncodeValue(a), EncodeValue(b)]
  {
    EncodeGameValue(a);
    EncodeGameValue(b);
  }

  /**
   * A round end to end: the feedback the server sends for a guess against
   * a palette secret fits the client's buffer and decodes to the score of
   * the guess.
   */
  lemma FeedbackReachesClient(g: GameData, p: nat, guess: seq<char>, c: ClientGame)
    requires Valid(g) && p < g.nbPlayers && g.players[p].nbRound < MaxRound && RowsFresh(g.players[p])
    requires IsCode(g.secret) && |guess| == BoardWidth
    requires ClientShaped(c) && 0 <= c.nbRound < MaxRound
    ensures var msg := RoundStep(g, p, guess).sent[0];
      && |msg| == ResultWidth
      && GetResult(c, msg).result[c.nbRound] == Score(g.secret, guess)
  {
    var x := RoundStep(g, p, guess);
    var q := PlayRound(g.players[p], g.secret, guess);
    var row := Score(g.secret, guess);
    assert x.game.players[p] == q;
    assert q.result[g.players[p].nbRound] == row;
    ScoreBounds(g.secret, guess);
    PairTravels(row.place, row.color);
    EncodeGameValue(row.place);
    EncodeGameValue(row.color);
  }

  /** What the client should hold about another player: nothing before its first round, else its latest feedback and round count. */
  function PeerView(q: Player): (o: OtherPlayer)
    requires PlayerShaped(q) && 0 <= q.nbRound <= MaxRound
  {
    if q.nbRound == 0 then Unreported
    else OtherPlayer(q.nbRound, q.result[q.nbRound - 1].place, q.result[q.nbRound - 1].color)
  }

  /** The latest feedback of a player who has played is made of counts 0 .. 12. */
  predicate Reportable(q: Player)
    requires PlayerShaped(q) && 0 <= q.nbRound <= MaxRound
  {
    q.nbRound == 0 ||
      (0 <= q.result[q.nbRound - 1].place <= 12 && 0 <= q.result[q.nbRound - 1].color <= 12)
  }

  /** One peer report: three bytes that decode to the peer's view. */
  lemma PeerReportTravels(q: Player)
    requires PlayerShaped(q) && 0 <= q.nbRound <= MaxRound && Reportable(q)
    ensures |PeerReport(q)| == 3
    ensures DecodePeer(PeerReport(q)) == PeerView(q)
  {
    if q.nbRound == 0 {
      assert PeerReport(q) == "000";
    } else {
      var row := q.result[q.nbRound - 1];
      EncodeGameValue(row.place);
      EncodeGameValue(row.color);
      EncodeGameValue(q.nbRound);
      var bytes := [EncodeValue(row.place), EncodeValue(row.color), EncodeValue(q.nbRound)];
      assert Nul !in bytes;
      assert PeerReport(q) == bytes;
    }
  }

  /**
   * The peer reports end to end: decoding everything `sendResult` sends
   * after the player's own feedback fills slot `k` with the view of the
   * `k`-th other player, in index order.
   */
  lemma PeerReportsReachClient(g: GameData, p: nat, c: ClientGame)
    requires Valid(g) && p < g.nbPlayers && g.players[p].nbRound < MaxRound
    requires forall i :: 0 <= i < g.nbPlayers ==> Reportable(g.players[i])
    requires ClientShaped(c) && c.nbPlayers == g.nbPlayers
    ensures var msgs := SendResult(g, p)[1..];
      && |msgs| == g.nbPlayers - 1
      && (forall k :: 0 <= k < |msgs| ==> 2 <= |msgs[k]| <= ResultWidth + 1)
      && forall k :: 0 <= k < g.nbPlayers - 1 ==>
           FetchOtherClientsData(c, msgs).others[k] == PeerView(g.players[PeerIndex(p, k)])
  {
    var msgs := SendResult(g, p)[1..];
    forall k | 0 <= k < |msgs|
      ensures |msgs[k]| == 3 && DecodePeer(msgs[k]) == PeerView(g.players[PeerIndex(p, k)])
    {
      PeerReportTravels(g.players[PeerIndex(p, k)]);
    }
  }

  /**
   * Registration end to end: the two raw-byte messages give the client the
   * cohort size and its own index. Index 0 travels as the empty string and
   * is read back from the terminator.
   */
  lemma RegistrationReachesClient(g: GameData, i: nat, c: ClientGame, conn: Socket)
    requires 1 <= g.nbPlayers <= MaxPlayers && i < g.nbPlayers
    ensures var m := RegistrationMessages(g)[i];
      && |m[0]| < ReadyBuffer && |m[1]| < ReadyBuffer
      && Registration(c, conn, m[0], m[1]).nbPlayers == g.nbPlayers
      && Registration(c, conn, m[0], m[1]).playerIndex == i
  {
    var m := RegistrationMessages(g)[i];
    ToByteRoundTrip(g.nbPlayers);
    ToByteRoundTrip(i);
    assert m[0] == [ToByte(g.nbPlayers)];
    if i == 0 {
      assert m[1] == [];
    } else {
      assert m[1] == [ToByte(i)];
    }
  }

  /** The verdict a status line means for player `i`. */
  function Meaning(i: nat, winner: int): Verdict {
    if i == winner then Won else if winner == Empty then NobodyWon else LostTo(winner + 1)
  }

  /**
   * The end of the game end to end: every player reads its own status line
   * as a win exactly when it is the winner, and otherwise as a loss to
   * player winner+1, or to nobody when there is no winner.
   */
  lemma VerdictReachesClient(i: nat, winner: int)
    ensures EndGameVerdict(EndStatus(i, winner)) == Meaning(i, winner)
  {
    if i != winner {
      var s := EndStatus(i, winner);
      assert s == "loose:" + FormatInt(winner);
      assert s[..6] == "loose:" && s[6..] == FormatInt(winner);
      ScanFormatInt(winner);
      assert s != "win" by {
        assert s[0] == 'l';
      }
    }
  }

  /** Every registered player reads `endGame`'s messages as its verdict, and receives the secret. */
  lemma EndGameReachesClients(g: GameData)
    requires 0 <= g.nbPlayers
    ensures forall i :: 0 <= i < g.nbPlayers ==>
      EndGameVerdict(EndGame(g)[i][0]) == Meaning(i, g.winner) && EndGame(g)[i][1] == g.secret
  {
    forall i | 0 <= i < g.nbPlayers
      ensures EndGameVerdict(EndGame(g)[i][0]) == Meaning(i, g.winner)
    {
      VerdictReachesClient(i, g.winner);
    }
  }

}
