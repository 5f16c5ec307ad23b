/**
 * The server side of the conversation (server/src/serverCommunication.c):
 * receiving a guess, sending a round's feedback, and the registration window
 * (listener, readiness watchers, gate) as a sequential state machine.
 */
module ServerComm {
  import opened Wrappers
  import opened Config
  import opened Wire
  import opened ServerState

  /* ---------- one round's exchange ---------- */

  /** `getPlayerChoice`: the received guess becomes row `nbRound` of the player's board. */
  function GetPlayerChoice(g: GameData, p: nat, guess: seq<char>): (h: GameData)
    requires Valid(g) && p < MaxPlayers && g.players[p].nbRound < MaxRound
    requires |guess| == BoardWidth
    ensures Valid(h)
    ensures h.players[p].board[g.players[p].nbRound] == guess
    ensures forall r :: 0 <= r < MaxRound && r != g.players[p].nbRound ==>
      h.players[p].board[r] == g.players[p].board[r]
    ensures h.players[p].result == g.players[p].result && h.players[p].nbRound == g.players[p].nbRound
    ensures h.players[p].socket == g.players[p].socket && h.players[p].ready == g.players[p].ready
    ensures h.players == g.players[p := h.players[p]]
    ensures h.nbPlayers == g.nbPlayers && h.secret == g.secret && h.winner == g.winner
  {
    var q := g.players[p];
    SetPlayer(g, p, q.(board := q.board[q.nbRound := guess]))
  }

  /** The player's own feedback for the current round: two encoded values. */
  function OwnReport(q: Player): (r: string)
    requires PlayerShaped(q) && 0 <= q.nbRound < MaxRound
    ensures |r| <= ResultWidth
    ensures var row := q.result[q.nbRound];
      0 <= row.place <= MaxRound && 0 <= row.color <= MaxRound ==>
        |r| == ResultWidth && DecodeValue(r[0]) == row.place && DecodeValue(r[1]) == row.color
  {
    var row := q.result[q.nbRound];
    DecodeEncodeValue(row.place);
    DecodeEncodeValue(row.color);
    CString([EncodeValue(row.place), EncodeValue(row.color)])
  }

  /**
   * What the server tells others about player `q`: "000" before its first
   * round, otherwise its latest feedback followed by its round count.
   */
  function PeerReport(q: Player): (r: string)
    requires PlayerShaped(q) && 0 <= q.nbRound <= MaxRound
    ensures |r| <= 3
    ensures q.nbRound == 0 ==> |r| == 3 && DecodeValue(r[0]) == 0 && DecodeValue(r[1]) == 0 && DecodeValue(r[2]) == 0
    ensures q.nbRound > 0 ==> var row := q.result[q.nbRound - 1];
      0 <= row.place <= MaxRound && 0 <= row.color <= MaxRound ==>
        && |r| == 3
        && DecodeValue(r[0]) == row.place && DecodeValue(r[1]) == row.color && DecodeValue(r[2]) == q.nbRound
  {
    if q.nbRound == 0 then "000"
    else
      var row := q.result[q.nbRound - 1];
      DecodeEncodeValue(row.place);
      DecodeEncodeValue(row.color);
      DecodeEncodeValue(q.nbRound);
      CString([EncodeValue(row.place), EncodeValue(row.color), EncodeValue(q.nbRound)])
  }

  /** The `k`-th peer of player `p`: indices in increasing order, skipping `p`. */
  function PeerIndex(p: nat, k: nat): nat {
    if k < p then k else k + 1
  }

  /** The `k`-th index at or after `from` that is not `p`. */
  function SkipFrom(p: nat, from: nat, k: nat): nat {
    if from <= p <= from + k then from + k + 1 else from + k
  }

  /** The indices the peer loop of `sendResult` visits from `from` on: every index below `n` except `p`. */
  function PeerIndices(p: nat, n: nat, from: nat): (ix: seq<nat>)
    requires p < n && from <= n
    ensures |ix| == n - from - (if from <= p then 1 else 0)
    ensures forall k :: 0 <= k < |ix| ==> ix[k] == SkipFrom(p, from, k) && ix[k] < n && ix[k] != p
    decreases n - from
  {
    if from == n then []
    else if from == p then PeerIndices(p, n, from + 1)
    else [from] + PeerIndices(p, n, from + 1)
  }

  /**
   * `sendResult`: the player's own feedback first, then one report for every
   * other registered player in increasing index order.
   */
  function SendResult(g: GameData, p: nat): (msgs: seq<string>)
    requires Valid(g) && p < g.nbPlayers && g.players[p].nbRound < MaxRound
    ensures |msgs| == g.nbPlayers
    ensures msgs[0] == OwnReport(g.players[p])
    ensures forall k :: 0 <= k < g.nbPlayers - 1 ==>
      msgs[1 + k] == PeerReport(g.players[PeerIndex(p, k)])
  {
    var ix := PeerIndices(p, g.nbPlayers, 0);
    [OwnReport(g.players[p])] + seq(|ix|, k requires 0 <= k < |ix| => PeerReport(g.players[ix[k]]))
  }

  /* ---------- registration ---------- */

  /**
   * The registration window: the game record, the `gameStarted` flag and
   * whether the listener is still accepting connections.
   */
  datatype Gate = Gate(game: GameData, started: bool, listening: bool)

  predicate GateValid(s: Gate) {
    && Shaped(s.game)
    && 0 <= s.game.nbPlayers <= MaxPlayers
    && (s.listening ==> s.game.nbPlayers < MaxPlayers && !s.started)
  }

  /** The connections registered so far, by index. */
  function Registered(s: Gate): seq<Socket>
    requires GateValid(s)
  {
    seq(s.game.nbPlayers, i requires 0 <= i < s.game.nbPlayers => s.game.players[i].socket)
  }

  predicate AllReady(g: GameData)
    requires 0 <= g.nbPlayers <= |g.players|
  {
    forall i :: 0 <= i < g.nbPlayers ==> g.players[i].ready
  }

  /** `clientRegistration` launches the listener with `gameStarted` = 0. */
  function OpenGate(g: GameData): (s: Gate)
    requires Shaped(g) && 0 <= g.nbPlayers <= MaxPlayers
    ensures GateValid(s) && !s.started
    ensures s.listening <==> g.nbPlayers < MaxPlayers
  {
    Gate(g, false, g.nbPlayers < MaxPlayers)
  }

  /**
   * The listener accepts connection `conn`: while it is listening, the
   * connection gets index `nbPlayers`, then `nbPlayers` grows and the
   * listener stops once the cohort is full; otherwise nothing is registered.
   */
  function Accept(s: Gate, conn: Socket): (t: Gate)
    requires GateValid(s)
    ensures GateValid(t)
    ensures t.started == s.started
    ensures s.listening ==> Registered(t) == Registered(s) + [conn]
    ensures s.listening ==> (t.listening <==> t.game.nbPlayers < MaxPlayers)
    ensures forall j :: 0 <= j < MaxPlayers ==> t.game.players[j].ready == s.game.players[j].ready
    ensures !s.listening ==> t == s
    ensures t.game.nbPlayers <= MaxPlayers
    ensures t.game.secret == s.game.secret && t.game.winner == s.game.winner
    ensures forall j :: 0 <= j < MaxPlayers ==> t.game.players[j] == s.game.players[j].(socket := t.game.players[j].socket)
  {
    if !s.listening then s
    else
      var n := s.game.nbPlayers;
      var g := SetPlayer(s.game, n, s.game.players[n].(socket := conn)).(nbPlayers := n + 1);
      assert Registered(Gate(g, false, n + 1 < MaxPlayers)) == Registered(s) + [conn];
      Gate(g, false, n + 1 < MaxPlayers)
  }

  /**
   * The readiness watcher of player `i` receives `msg`: an unready registered
   * player becomes ready exactly on the literal "ready"; a ready player's
   * watcher has already exited, so nothing changes.
   */
  function Hear(s: Gate, i: nat, msg: string): (t: Gate)
    requires GateValid(s)
    ensures GateValid(t)
    ensures t.started == s.started && t.listening == s.listening
    ensures t.game.nbPlayers == s.game.nbPlayers && Registered(t) == Registered(s)
    ensures forall j :: 0 <= j < MaxPlayers && s.game.players[j].ready ==> t.game.players[j].ready
    ensures forall j :: 0 <= j < MaxPlayers && j != i ==> t.game.players[j].ready == s.game.players[j].ready
    ensures i < MaxPlayers && t.game.players[i].ready != s.game.players[i].ready ==>
      i < s.game.nbPlayers && msg == ReadyToken
    ensures i < s.game.nbPlayers && msg == ReadyToken ==> t.game.players[i].ready
    ensures !(i < s.game.nbPlayers && !s.game.players[i].ready && msg == ReadyToken) ==> t == s
    ensures t.game.secret == s.game.secret && t.game.winner == s.game.winner
    ensures forall j :: 0 <= j < MaxPlayers ==> t.game.players[j] == s.game.players[j].(ready := t.game.players[j].ready)
  {
    if i < s.game.nbPlayers && !s.game.players[i].ready && msg == ReadyToken then
      var t := s.(game := SetPlayer(s.game, i, s.game.players[i].(ready := true)));
      assert Registered(t) == Registered(s);
      t
    else s
  }

  /**
   * The gate: it stays shut (`None`) until at least one player is registered
   * and every registered player is ready. Opening sets `gameStarted` and
   * wakes the listener with the connection `wake`, which it stores in the
   * next free slot and then discards without registering.
   */
  function Start(s: Gate, wake: Socket): (t: Option<Gate>)
    requires GateValid(s)
    ensures t.Some? <==> s.game.nbPlayers >= 1 && AllReady(s.game)
    ensures t.Some? ==> GateValid(t.value) && t.value.started && !t.value.listening
    ensures t.Some? ==> Registered(t.value) == Registered(s) && AllReady(t.value.game)
    ensures t.Some? ==> forall j :: 0 <= j < MaxPlayers ==> t.value.game.players[j].ready == s.game.players[j].ready
    ensures t.Some? ==> t.value.game.secret == s.game.secret && t.value.game.winner == s.game.winner
    ensures t.Some? ==> forall j :: 0 <= j < MaxPlayers ==>
      t.value.game.players[j] == s.game.players[j].(socket := t.value.game.players[j].socket)
  {
    if s.game.nbPlayers == 0 || !AllReady(s.game) then None
    else
      var n := s.game.nbPlayers;
      var g := if s.listening then SetPlayer(s.game, n, s.game.players[n].(socket := wake)) else s.game;
      assert Registered(Gate(g, true, false)) == Registered(s);
      Some(Gate(g, true, false))
  }

  /** Once the game has started, no connection changes the cohort. */
  lemma CohortFrozen(s: Gate, conn: Socket)
    requires GateValid(s) && s.started
    ensures Accept(s, conn) == s
  {
  }

  /** Registration events in the order the server observes them. */
  datatype Event = Connect(conn: Socket) | Message(player: nat, text: string) | Signal(wake: Socket)

  function Apply(s: Gate, e: Event): (t: Gate)
    requires GateValid(s)
    ensures GateValid(t)
  {
    match e
    case Connect(conn) => Accept(s, conn)
    case Message(i, text) => Hear(s, i, text)
    case Signal(wake) =>
      match Start(s, wake)
      case Some(t) => t
      case None => s
  }

  function Run(s: Gate, events: seq<Event>): (t: Gate)
    requires GateValid(s)
    ensures GateValid(t)
    decreases |events|
  {
    if |events| == 0 then s else Run(Apply(s, events[0]), events[1..])
  }

  /**
   * Over any run of events the cohort never exceeds `MaxPlayers`,
   * registrations are only ever appended (so indices follow connection
   * order), and after the start nothing is appended.
   */
  lemma {:induction false} RunRegistration(s: Gate, events: seq<Event>)
    requires GateValid(s)
    ensures Run(s, events).game.nbPlayers <= MaxPlayers
    ensures Registered(s) <= Registered(Run(s, events))
    ensures s.started ==> Registered(Run(s, events)) == Registered(s) && Run(s, events).started
    decreases |events|
  {
    if |events| > 0 {
      var t := Apply(s, events[0]);
      RunRegistration(t, events[1..]);
    }
  }

  /**
   * Registration touches only sockets, readiness and the cohort: over any
   * run of events the secret, the winner, and every slot's boards, results
   * and round counter are as they were. In particular the rows a freshly
   * initialised game leaves fresh for scoring are still fresh at the start.
   */
  lemma {:induction false} RunKeepsPlay(s: Gate, events: seq<Event>)
    requires GateValid(s)
    ensures var t := Run(s, events);
      && t.game.secret == s.game.secret && t.game.winner == s.game.winner
      && forall j :: 0 <= j < MaxPlayers ==>
           && t.game.players[j].board == s.game.players[j].board
           && t.game.players[j].result == s.game.players[j].result
           && t.game.players[j].nbRound == s.game.players[j].nbRound
    ensures forall j :: 0 <= j < MaxPlayers && RowsFresh(s.game.players[j]) ==> RowsFresh(Run(s, events).game.players[j])
    decreases |events|
  {
    if |events| > 0 {
      var t := Apply(s, events[0]);
      RunKeepsPlay(t, events[1..]);
      assert Run(s, events) == Run(t, events[1..]);
    }
  }

  /**
   * A game reset by `serverInit` and then run through registration enters
   * play with no winner, every slot at round 0 and every slot's rows fresh
   * for scoring, which is what a session's record of its rounds assumes.
   */
  lemma RegisteredGameFresh(g: GameData, events: seq<Event>)
    requires |g.players| == MaxPlayers
    ensures var t := Run(OpenGate(ServerInit(g)), events);
      && Valid(t.game) && t.game.winner == Empty
      && forall j :: 0 <= j < MaxPlayers ==> t.game.players[j].nbRound == 0 && RowsFresh(t.game.players[j])
  {
    var s := OpenGate(ServerInit(g));
    RunKeepsPlay(s, events);
  }

  /** Once a registered player is ready, no later event makes it unready. */
  lemma {:induction false} ReadyIsWriteOnce(s: Gate, events: seq<Event>, i: nat)
    requires GateValid(s) && i < MaxPlayers && s.game.players[i].ready
    ensures Run(s, events).game.players[i].ready
    decreases |events|
  {
    if |events| > 0 {
      var t := Apply(s, events[0]);
      assert t.game.players[i].ready;
      ReadyIsWriteOnce(t, events[1..], i);
    }
  }

  /** The messages `msgs` arriving, in order, on player `i`'s connection. */
  function Heard(i: nat, msgs: seq<string>): (events: seq<Event>)
    ensures |events| == |msgs|
    ensures forall k :: 0 <= k < |msgs| ==> events[k] == Message(i, msgs[k])
  {
    seq(|msgs|, k requires 0 <= k < |msgs| => Message(i, msgs[k]))
  }

  /**
   * The watcher's stream, fed to the gate one message at a time: a
   * registered, unready player ends ready exactly when "ready" is among the
   * messages, which is when `WatchReady` reports it ready.
   */
  lemma {:induction false} HeardReady(s: Gate, i: nat, msgs: seq<string>)
    requires GateValid(s) && i < s.game.nbPlayers && !s.game.players[i].ready
    ensures Run(s, Heard(i, msgs)).game.players[i].ready <==> ReadyToken in msgs
    decreases |msgs|
  {
    if |msgs| > 0 {
      var t := Hear(s, i, msgs[0]);
      assert Heard(i, msgs)[1..] == Heard(i, msgs[1..]);
      assert Run(s, Heard(i, msgs)) == Run(t, Heard(i, msgs[1..]));
      if msgs[0] == ReadyToken {
        ReadyIsWriteOnce(t, Heard(i, msgs[1..]), i);
      } else {
        HeardReady(t, i, msgs[1..]);
        assert msgs == [msgs[0]] + msgs[1..];
      }
    }
  }

  /**
   * The readiness watcher on one connection's message stream: it keeps
   * receiving until a message is exactly "ready", then stops. Returns whether
   * the player became ready and how many messages it consumed.
   */
  method WatchReady(msgs: seq<string>) returns (ready: bool, consumed: nat)
    ensures consumed <= |msgs|
    ensures ready <==> ReadyToken in msgs
    ensures ready ==> consumed >= 1 && msgs[consumed - 1] == ReadyToken
    ensures ReadyToken !in msgs[..if ready then consumed - 1 else consumed]
    ensures !ready ==> consumed == |msgs|
  {
    ready := false;
    consumed := 0;
    while !ready && consumed < |msgs|
      invariant consumed <= |msgs|
      invariant ready ==> consumed >= 1 && msgs[consumed - 1] == ReadyToken
      invariant ReadyToken !in msgs[..if ready then consumed - 1 else consumed]
      decreases |msgs| - consumed, !ready
    {
      var msg := msgs[consumed];
      consumed := consumed + 1;
      if msg == ReadyToken {
        ready := true;
      }
    }
    if !ready {
      assert msgs[..consumed] == msgs;
    }
  }

  /**
   * After the gate opens, each player `i` is sent the cohort size and then
   * its own index, each as one raw byte in a C string.
   */
  function RegistrationMessages(g: GameData): (out: seq<seq<string>>)
    requires 0 <= g.nbPlayers <= MaxPlayers
    ensures |out| == g.nbPlayers
    ensures forall i :: 0 <= i < |out| ==> |out[i]| == 2
  {
    seq(g.nbPlayers, i => [CString([ToByte(g.nbPlayers)]), CString([ToByte(i)])])
  }

}
