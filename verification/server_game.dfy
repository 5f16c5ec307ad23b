/**
 * The game proper on the server (server/src/server.c): drawing the secret,
 * scoring a guess and claiming the win, one player's round loop, and the
 * end-of-game messages.
 */
module ServerGame {
  import opened Config
  import opened Wire
  import opened Scoring
  import opened ServerState
  import opened ServerComm

  /* ---------- the secret ---------- */

  /**
   * `createCombinations` with the calls to `rand()` supplied as `draws`: cell
   * `i` of the secret is `"RGBCYM"[draws[i] % 6]`.
   */
  function CreateCombinations(g: GameData, draws: seq<nat>): (h: GameData)
    requires |draws| == BoardWidth
    ensures IsCode(h.secret)
    ensures forall i :: 0 <= i < BoardWidth ==> h.secret[i] == Colors[draws[i] % |Colors|]
    ensures h.players == g.players && h.nbPlayers == g.nbPlayers && h.winner == g.winner
  {
    g.(secret := seq(BoardWidth, i requires 0 <= i < BoardWidth => Colors[draws[i] % |Colors|]))
  }

  /** Position of a palette symbol in `Colors`. */
  function ColorIndex(c: char): (k: nat)
    requires c in Colors
    ensures k < |Colors| && Colors[k] == c
  {
    if c == 'R' then 0 else if c == 'G' then 1 else if c == 'B' then 2
    else if c == 'C' then 3 else if c == 'Y' then 4 else 5
  }

  /** Every code of the palette is the secret for some outcome of the draws. */
  lemma EveryCodeCanBeDrawn(g: GameData, code: seq<char>)
    requires IsCode(code)
    ensures exists draws :: |draws| == BoardWidth && CreateCombinations(g, draws).secret == code
  {
    var draws := seq(BoardWidth, i requires 0 <= i < BoardWidth => ColorIndex(code[i]));
    assert CreateCombinations(g, draws).secret == code;
  }

  /* ---------- scoring and the win claim ---------- */

  /**
   * The win claim at the end of `checkChoice`: player `p` becomes the winner
   * only with a full exact match and only while nobody has won.
   */
  function ClaimWin(winner: int, p: nat, row: Feedback): (w: int)
    ensures winner != Empty ==> w == winner
    ensures winner == Empty ==> (w == p <==> row.place == BoardWidth)
    ensures w == winner || w == p
  {
    if row.place == BoardWidth && winner == Empty then p else winner
  }

  /**
   * `checkChoice`: scores row `nbRound` of player `p`'s board against the
   * secret into result row `nbRound`, then makes the win claim.
   */
  function CheckChoice(g: GameData, p: nat): (h: GameData)
    requires Valid(g) && p < MaxPlayers && g.players[p].nbRound < MaxRound
    requires |g.players[p].board[g.players[p].nbRound]| == BoardWidth
    ensures Valid(h)
    ensures var r := g.players[p].nbRound;
      && h.players[p].result[r] == AddScore(g.players[p].result[r], g.secret, g.players[p].board[r])
      && (g.players[p].result[r] == Feedback(0, 0) ==>
            h.players[p].result[r] == Score(g.secret, g.players[p].board[r]))
      && (forall k :: 0 <= k < MaxRound && k != r ==> h.players[p].result[k] == g.players[p].result[k])
    ensures h.players[p].board == g.players[p].board && h.players[p].nbRound == g.players[p].nbRound
    ensures h.players[p].socket == g.players[p].socket && h.players[p].ready == g.players[p].ready
    ensures h.players == g.players[p := h.players[p]]
    ensures h.nbPlayers == g.nbPlayers && h.secret == g.secret
    ensures h.winner == ClaimWin(g.winner, p, h.players[p].result[g.players[p].nbRound])
  {
    var q := g.players[p];
    var r := q.nbRound;
    var row := AddScore(q.result[r], g.secret, q.board[r]);
    var h := SetPlayer(g, p, q.(result := q.result[r := row]));
    h.(winner := ClaimWin(g.winner, p, row))
  }

  /**
   * One round on player `p`'s own record, the part of `RoundStep` that the
   * player's slot sees: the guess stored in row `nbRound`, scored into
   * result row `nbRound`, and the round counter advanced.
   */
  function PlayRound(q: Player, secret: seq<char>, guess: seq<char>): (r: Player)
    requires PlayerShaped(q) && 0 <= q.nbRound < MaxRound
    requires |secret| == BoardWidth && |guess| == BoardWidth
    ensures PlayerShaped(r) && r.nbRound == q.nbRound + 1
    ensures r.board == q.board[q.nbRound := guess]
    ensures r.result == q.result[q.nbRound := AddScore(q.result[q.nbRound], secret, guess)]
    ensures r.socket == q.socket && r.ready == q.ready
    ensures RowsFresh(q) ==> RowsFresh(r) && r.result[q.nbRound] == Score(secret, guess)
  {
    var row := AddScore(q.result[q.nbRound], secret, guess);
    q.(board := q.board[q.nbRound := guess], result := q.result[q.nbRound := row], nbRound := q.nbRound + 1)
  }

  /** A round's outcome: the game afterwards and the messages sent to the player. */
  datatype Exchange = Exchange(game: GameData, sent: seq<string>)

  /**
   * One pass of the loop in `clientThreadHandler`: receive the guess, score
   * it, send the feedback, and advance the player's round counter. Nothing
   * changes but player `p`'s slot, which becomes `PlayRound` of it, and the
   * winner, which the new feedback may claim.
   */
  function RoundStep(g: GameData, p: nat, guess: seq<char>): (x: Exchange)
    requires Valid(g) && p < g.nbPlayers && g.players[p].nbRound < MaxRound
    requires |guess| == BoardWidth
    ensures var q := PlayRound(g.players[p], g.secret, guess);
      x.game == SetPlayer(g, p, q).(winner := ClaimWin(g.winner, p, q.result[g.players[p].nbRound]))
    ensures |x.sent| == g.nbPlayers
    ensures var row := x.game.players[p].result[g.players[p].nbRound];
      x.sent[0] == CString([EncodeValue(row.place), EncodeValue(row.color)])
  {
    var chosen := GetPlayerChoice(g, p, guess);
    var scored := CheckChoice(chosen, p);
    var sent := SendResult(scored, p);
    var q := scored.players[p];
    assert q.(nbRound := q.nbRound + 1) == PlayRound(g.players[p], g.secret, guess);
    Exchange(SetPlayer(scored, p, q.(nbRound := q.nbRound + 1)), sent)
  }

  /**
   * The winner as another player's session may have left it: a rival's
   * claim `claim` (or `Empty` for none) only lands while nobody has won.
   */
  function RivalClaim(winner: int, claim: int): (w: int)
    ensures winner != Empty ==> w == winner
    ensures winner == Empty ==> w == claim
  {
    if winner == Empty then claim else winner
  }

  /**
   * The winner after a round of player `p` whose feedback is `row`: the
   * rivals may claim while the session waits for the guess (`mid`), the
   * check of the feedback claims for `p` when nobody has won, and the rivals
   * may claim again before the next loop test (`claim`). The first claim is
   * kept: `p` ends as the winner exactly when it already was, or nobody had
   * won before its check and its feedback is a full match.
   */
  function RoundWinner(w: int, p: nat, row: Feedback, mid: int, claim: int): (v: int)
    ensures w != Empty ==> v == w
    ensures mid != p && claim != p ==>
      (v == p <==> w == p || (w == Empty && mid == Empty && row.place == BoardWidth))
    ensures w == Empty && mid != Empty ==> v == mid
  {
    RivalClaim(ClaimWin(RivalClaim(w, mid), p, row), claim)
  }

  /** A guess as the session receives it: one full board row. */
  type Line = s: seq<char> | |s| == BoardWidth witness "RRRR"

  /** A claim another session of game `g` can make while `p` plays: none, or a registered player other than `p`. */
  predicate RivalOf(g: GameData, p: nat, c: int) {
    c == Empty || (0 <= c < g.nbPlayers && c != p)
  }

  /**
   * The inputs a session of player `p` in game `g` consumes: one guess per
   * round, one rival claim per loop test (`claims`), and one rival claim per
   * round while the guess is awaited (`mids`).
   */
  predicate SessionInputs(g: GameData, p: nat, guesses: seq<Line>, claims: seq<int>, mids: seq<int>)
    requires Valid(g) && p < |g.players|
  {
    && |guesses| >= MaxRound - g.players[p].nbRound
    && |claims| > MaxRound - g.players[p].nbRound
    && |mids| >= MaxRound - g.players[p].nbRound
    && (forall k :: 0 <= k < |claims| ==> RivalOf(g, p, claims[k]))
    && (forall k :: 0 <= k < |mids| ==> RivalOf(g, p, mids[k]))
  }

  /** Player slot `q0` after playing the guesses `gs` in order. */
  function Replay(q0: Player, secret: seq<char>, gs: seq<Line>): (q: Player)
    requires PlayerShaped(q0) && 0 <= q0.nbRound && q0.nbRound + |gs| <= MaxRound && |secret| == BoardWidth
    ensures PlayerShaped(q) && q.nbRound == q0.nbRound + |gs|
    ensures q.socket == q0.socket && q.ready == q0.ready
    decreases |gs|
  {
    if gs == [] then q0 else PlayRound(Replay(q0, secret, gs[..|gs| - 1]), secret, gs[|gs| - 1])
  }

  /** The rows before the first replayed round are as they were in `q0`. */
  predicate Kept(q0: Player, q: Player)
    requires PlayerShaped(q0) && PlayerShaped(q) && q0.nbRound <= MaxRound
  {
    forall r :: 0 <= r < q0.nbRound ==> q.board[r] == q0.board[r] && q.result[r] == q0.result[r]
  }

  /** The score of each guess against `secret`. */
  function Scores(secret: seq<char>, gs: seq<Line>): (rows: seq<Feedback>)
    requires |secret| == BoardWidth
    ensures |rows| == |gs|
    ensures forall k :: 0 <= k < |gs| ==> rows[k] == Score(secret, gs[k])
  {
    seq(|gs|, k requires 0 <= k < |gs| => Score(secret, gs[k]))
  }

  /** Every replayed round holds its guess and the matching row of `rows`. */
  predicate Recorded(q0: Player, gs: seq<Line>, rows: seq<Feedback>, q: Player)
    requires PlayerShaped(q) && 0 <= q0.nbRound <= q.nbRound <= MaxRound
    requires q.nbRound - q0.nbRound <= |gs| == |rows|
  {
    forall j :: q0.nbRound <= j < q.nbRound ==>
      q.board[j] == gs[j - q0.nbRound] && q.result[j] == rows[j - q0.nbRound]
  }

  lemma StepKept(q0: Player, secret: seq<char>, guess: Line, q: Player)
    requires PlayerShaped(q0) && PlayerShaped(q) && 0 <= q0.nbRound <= q.nbRound < MaxRound
    requires |secret| == BoardWidth
    requires Kept(q0, q)
    ensures Kept(q0, PlayRound(q, secret, guess))
  {
    var r := PlayRound(q, secret, guess);
    forall i | 0 <= i < q0.nbRound
      ensures r.board[i] == q0.board[i] && r.result[i] == q0.result[i]
    {
      assert r.board[i] == q.board[i] && r.result[i] == q.result[i];
    }
  }

  lemma StepRecorded(q0: Player, gs: seq<Line>, rows: seq<Feedback>, q: Player, r: Player)
    requires PlayerShaped(q) && PlayerShaped(r) && 1 <= |gs| == |rows|
    requires 0 <= q0.nbRound && q.nbRound == q0.nbRound + |gs| - 1 < MaxRound
    requires r.nbRound == q.nbRound + 1
    requires r.board == q.board[q.nbRound := gs[|gs| - 1]] && r.result == q.result[q.nbRound := rows[|rows| - 1]]
    requires Recorded(q0, gs[..|gs| - 1], rows[..|rows| - 1], q)
    ensures Recorded(q0, gs, rows, r)
  {
    forall j | q0.nbRound <= j < r.nbRound
      ensures r.board[j] == gs[j - q0.nbRound] && r.result[j] == rows[j - q0.nbRound]
    {
      if j < q.nbRound {
        assert r.board[j] == q.board[j] && r.result[j] == q.result[j];
      }
    }
  }

  /** One replayed round keeps the facts `ReplayRecords` states. */
  lemma ReplayStep(q0: Player, secret: seq<char>, gs: seq<Line>, q: Player)
    requires PlayerShaped(q0) && PlayerShaped(q) && |secret| == BoardWidth && 1 <= |gs|
    requires 0 <= q0.nbRound && q.nbRound == q0.nbRound + |gs| - 1 < MaxRound
    requires RowsFresh(q) && Kept(q0, q) && Recorded(q0, gs[..|gs| - 1], Scores(secret, gs[..|gs| - 1]), q)
    ensures var r := PlayRound(q, secret, gs[|gs| - 1]);
      RowsFresh(r) && Kept(q0, r) && Recorded(q0, gs, Scores(secret, gs), r)
  {
    var n := |gs|;
    var r := PlayRound(q, secret, gs[n - 1]);
    var rows := Scores(secret, gs);
    assert rows[..n - 1] == Scores(secret, gs[..n - 1]);
    assert r.result == q.result[q.nbRound := rows[n - 1]];
    StepKept(q0, secret, gs[n - 1], q);
    StepRecorded(q0, gs, rows, q, r);
  }

  /**
   * What replaying guesses does to a slot whose rows from its round counter
   * on are fresh: each replayed round holds its guess and that guess's
   * score, the earlier rows are kept, and the rows after stay fresh.
   */
  lemma {:induction false} ReplayRecords(q0: Player, secret: seq<char>, gs: seq<Line>)
    requires PlayerShaped(q0) && 0 <= q0.nbRound && q0.nbRound + |gs| <= MaxRound && |secret| == BoardWidth
    requires RowsFresh(q0)
    ensures var q := Replay(q0, secret, gs);
      RowsFresh(q) && Kept(q0, q) && Recorded(q0, gs, Scores(secret, gs), q)
    decreases |gs|
  {
    if gs != [] {
      var q := Replay(q0, secret, gs[..|gs| - 1]);
      ReplayRecords(q0, secret, gs[..|gs| - 1]);
      assert Replay(q0, secret, gs) == PlayRound(q, secret, gs[|gs| - 1]);
      ReplayStep(q0, secret, gs, q);
    }
  }

  /**
   * The winner `w` seen by a session of player `p` that found `w0` on
   * entry, with slot `q` after `played` rounds: a winner found on entry
   * stops the loop before any round, and a win for `p` was earned by its
   * last round.
   */
  predicate WinEarned(w0: int, p: nat, q: Player, w: int, played: nat)
    requires PlayerShaped(q) && played <= q.nbRound <= MaxRound
  {
    && (w0 != Empty ==> played == 0 && w == w0)
    && (w == p ==> played >= 1 && q.result[q.nbRound - 1].place == BoardWidth)
  }

  /** The state a session loop ends in. */
  datatype SessionEnd = SessionEnd(player: Player, winner: int, played: nat)

  /** Enough guesses and rival claims for a loop entered with slot `q0`, and no claim in `p`'s name. */
  predicate LoopInputs(q0: Player, p: nat, guesses: seq<Line>, claims: seq<int>, mids: seq<int>) {
    && |guesses| >= MaxRound - q0.nbRound
    && |claims| > MaxRound - q0.nbRound
    && |mids| >= MaxRound - q0.nbRound
    && (forall k :: 0 <= k < |claims| ==> claims[k] != p)
    && (forall k :: 0 <= k < |mids| ==> mids[k] != p)
  }

  /**
   * Where the loop stands after `played` rounds: its slot `q` is the entry
   * slot `q0` with the first `played` guesses replayed, and its winner `w`
   * respects `WinEarned`.
   */
  predicate LoopAt(q0: Player, secret: seq<char>, w0: int, p: nat, guesses: seq<Line>, q: Player, w: int, played: nat)
    requires PlayerShaped(q0) && 0 <= q0.nbRound <= MaxRound && |secret| == BoardWidth
  {
    && played <= |guesses| && q0.nbRound + played <= MaxRound
    && q == Replay(q0, secret, guesses[..played])
    && WinEarned(w0, p, q, w, played)
  }

  /** One more round, with rival claims other than `p` around it, keeps `LoopAt`. */
  lemma LoopStep(q0: Player, secret: seq<char>, w0: int, p: nat, guesses: seq<Line>, q: Player, w: int, played: nat,
                 mid: int, claim: int)
    requires PlayerShaped(q0) && 0 <= q0.nbRound <= MaxRound && |secret| == BoardWidth
    requires LoopAt(q0, secret, w0, p, guesses, q, w, played)
    requires q.nbRound < MaxRound && w == Empty && played < |guesses|
    requires mid != p && claim != p
    ensures var r := PlayRound(q, secret, guesses[played]);
      LoopAt(q0, secret, w0, p, guesses, r, RoundWinner(w, p, r.result[q.nbRound], mid, claim), played + 1)
  {
    assert guesses[..played + 1][..played] == guesses[..played];
  }

  /**
   * The loop of `clientThreadHandler` from its state after `played` rounds
   * to its exit: while the player has rounds left and nobody has won, play
   * one round with the next guess, the rivals claiming around its check. It
   * plays at most the rounds the slot has left.
   */
  function PlayFrom(q0: Player, secret: seq<char>, w0: int, p: nat, guesses: seq<Line>, claims: seq<int>, mids: seq<int>,
                    q: Player, w: int, played: nat): (e: SessionEnd)
    requires PlayerShaped(q0) && 0 <= q0.nbRound <= MaxRound && |secret| == BoardWidth
    requires LoopInputs(q0, p, guesses, claims, mids)
    requires LoopAt(q0, secret, w0, p, guesses, q, w, played)
    ensures played <= e.played && e.played - played <= MaxRound - q.nbRound
    ensures w != Empty ==> e.played == played && e.winner == w
    decreases MaxRound - q.nbRound
  {
    if q.nbRound < MaxRound && w == Empty then
      LoopStep(q0, secret, w0, p, guesses, q, w, played, mids[played], claims[played + 1]);
      var r := PlayRound(q, secret, guesses[played]);
      PlayFrom(q0, secret, w0, p, guesses, claims, mids, r,
               RoundWinner(w, p, r.result[q.nbRound], mids[played], claims[played + 1]), played + 1)
    else
      SessionEnd(q, w, played)
  }

  /** The loop keeps `LoopAt`. */
  lemma {:induction false} PlayFromKeeps(q0: Player, secret: seq<char>, w0: int, p: nat, guesses: seq<Line>,
                                         claims: seq<int>, mids: seq<int>, q: Player, w: int, played: nat)
    requires PlayerShaped(q0) && 0 <= q0.nbRound <= MaxRound && |secret| == BoardWidth
    requires LoopInputs(q0, p, guesses, claims, mids)
    requires LoopAt(q0, secret, w0, p, guesses, q, w, played)
    ensures var e := PlayFrom(q0, secret, w0, p, guesses, claims, mids, q, w, played);
      LoopAt(q0, secret, w0, p, guesses, e.player, e.winner, e.played)
    decreases MaxRound - q.nbRound
  {
    var e := PlayFrom(q0, secret, w0, p, guesses, claims, mids, q, w, played);
    if q.nbRound < MaxRound && w == Empty {
      LoopStep(q0, secret, w0, p, guesses, q, w, played, mids[played], claims[played + 1]);
      var r := PlayRound(q, secret, guesses[played]);
      var v := RoundWinner(w, p, r.result[q.nbRound], mids[played], claims[played + 1]);
      assert e == PlayFrom(q0, secret, w0, p, guesses, claims, mids, r, v, played + 1);
      PlayFromKeeps(q0, secret, w0, p, guesses, claims, mids, r, v, played + 1);
    } else {
      assert e == SessionEnd(q, w, played);
    }
  }

  /** The loop ends on its exit condition: the rounds are used up or somebody has won. */
  lemma {:induction false} PlayFromExits(q0: Player, secret: seq<char>, w0: int, p: nat, guesses: seq<Line>,
                                         claims: seq<int>, mids: seq<int>, q: Player, w: int, played: nat)
    requires PlayerShaped(q0) && 0 <= q0.nbRound <= MaxRound && |secret| == BoardWidth
    requires LoopInputs(q0, p, guesses, claims, mids)
    requires LoopAt(q0, secret, w0, p, guesses, q, w, played)
    ensures var e := PlayFrom(q0, secret, w0, p, guesses, claims, mids, q, w, played);
      e.player.nbRound == MaxRound || e.winner != Empty
    decreases MaxRound - q.nbRound
  {
    var e := PlayFrom(q0, secret, w0, p, guesses, claims, mids, q, w, played);
    if q.nbRound < MaxRound && w == Empty {
      LoopStep(q0, secret, w0, p, guesses, q, w, played, mids[played], claims[played + 1]);
      var r := PlayRound(q, secret, guesses[played]);
      var v := RoundWinner(w, p, r.result[q.nbRound], mids[played], claims[played + 1]);
      assert e == PlayFrom(q0, secret, w0, p, guesses, claims, mids, r, v, played + 1);
      PlayFromExits(q0, secret, w0, p, guesses, claims, mids, r, v, played + 1);
    } else {
      assert e == SessionEnd(q, w, played);
    }
  }

  /** The loop run from its entry state: `LoopAt` holds at the exit, which is the loop's exit condition. */
  lemma LoopFromEntry(q0: Player, secret: seq<char>, w0: int, p: nat, guesses: seq<Line>, claims: seq<int>, mids: seq<int>,
                      w: int)
    requires PlayerShaped(q0) && 0 <= q0.nbRound <= MaxRound && |secret| == BoardWidth
    requires LoopInputs(q0, p, guesses, claims, mids)
    requires WinEarned(w0, p, q0, w, 0)
    ensures LoopAt(q0, secret, w0, p, guesses, q0, w, 0)
    ensures var e := PlayFrom(q0, secret, w0, p, guesses, claims, mids, q0, w, 0);
      && LoopAt(q0, secret, w0, p, guesses, e.player, e.winner, e.played)
      && (e.player.nbRound == MaxRound || e.winner != Empty)
  {
    assert guesses[..0] == [];
    PlayFromKeeps(q0, secret, w0, p, guesses, claims, mids, q0, w, 0);
    PlayFromExits(q0, secret, w0, p, guesses, claims, mids, q0, w, 0);
  }

  /** What a session hands back: the game and the number of rounds played. */
  datatype SessionOutcome = SessionOutcome(game: GameData, played: nat)

  /**
   * `clientThreadHandler` for player `p`: the round loop, entered after the
   * rivals' first claim `claims[0]`; `claims[k]` is what other sessions did
   * to the winner just before the `k`-th loop test, and `mids[k]` what they
   * did while round `k` waited for its guess. Only player `p`'s slot and the
   * winner change; the slot is the entry slot with the first `played`
   * guesses replayed; a win for `p` was earned by its last round; and the
   * loop left with its rounds used up or a winner known.
   */
  function PlayerSession(g: GameData, p: nat, guesses: seq<Line>, claims: seq<int>, mids: seq<int>): (o: SessionOutcome)
    requires Valid(g) && p < g.nbPlayers
    requires g.winner != p
    requires SessionInputs(g, p, guesses, claims, mids)
    ensures Valid(o.game)
    ensures o.game == SetPlayer(g, p, o.game.players[p]).(winner := o.game.winner)
    ensures o.played <= |guesses| && g.players[p].nbRound + o.played <= MaxRound
    ensures o.game.players[p].nbRound == g.players[p].nbRound + o.played
    ensures WinEarned(g.winner, p, o.game.players[p], o.game.winner, o.played)
    ensures o.game.players[p].nbRound == MaxRound || o.game.winner != Empty
    ensures o.game.players[p] == Replay(g.players[p], g.secret, guesses[..o.played])
  {
    var q0 := g.players[p];
    var w := RivalClaim(g.winner, claims[0]);
    assert LoopInputs(q0, p, guesses, claims, mids);
    LoopFromEntry(q0, g.secret, g.winner, p, guesses, claims, mids, w);
    var e := PlayFrom(q0, g.secret, g.winner, p, guesses, claims, mids, q0, w, 0);
    SetKeepsValid(g, p, e.player, e.winner);
    SessionOutcome(SetPlayer(g, p, e.player).(winner := e.winner), e.played)
  }

  /**
   * What a session records, for a player whose rows from its round counter
   * on are fresh: round `j` of the session holds guess `j - start` and its
   * score against the secret, and the rows before `start` are untouched.
   */
  lemma SessionRecords(g: GameData, p: nat, guesses: seq<Line>, claims: seq<int>, mids: seq<int>)
    requires Valid(g) && p < g.nbPlayers && RowsFresh(g.players[p])
    requires g.winner != p
    requires SessionInputs(g, p, guesses, claims, mids)
    ensures var o := PlayerSession(g, p, guesses, claims, mids);
      var q := o.game.players[p];
      var start := g.players[p].nbRound;
      && (forall j :: start <= j < q.nbRound ==>
            q.board[j] == guesses[j - start] && q.result[j] == Score(g.secret, guesses[j - start]))
      && (forall r :: 0 <= r < start ==> q.board[r] == g.players[p].board[r] && q.result[r] == g.players[p].result[r])
  {
    var o := PlayerSession(g, p, guesses, claims, mids);
    var gs := guesses[..o.played];
    ReplayRecords(g.players[p], g.secret, gs);
  }

  /* ---------- end of game ---------- */

  /** The status line for player `i`: "win" for the winner, "loose:<winner>" for everyone else. */
  function EndStatus(i: nat, winner: int): string {
    if i == winner then "win" else "loose:" + FormatInt(winner)
  }

  /**
   * `endGame`: every registered player gets its status and then the secret.
   */
  function EndGame(g: GameData): (out: seq<seq<string>>)
    requires 0 <= g.nbPlayers
    ensures |out| == g.nbPlayers
    ensures forall i :: 0 <= i < |out| ==> |out[i]| == 2 && out[i][1] == g.secret
    ensures forall i :: 0 <= i < |out| ==> (out[i][0] == "win" <==> i == g.winner)
    ensures forall i :: 0 <= i < |out| && i != g.winner ==> out[i][0] == "loose:" + FormatInt(g.winner)
    ensures g.winner == Empty ==> forall i :: 0 <= i < |out| ==> out[i][0] == "loose:-1"
  {
    assert FormatInt(Empty) == "-1";
    seq(g.nbPlayers, i requires 0 <= i < g.nbPlayers => [EndStatus(i, g.winner), g.secret])
  }

}
