/**
 * Game constants and record shapes shared by the server (serverData.h) and
 * the client (clientData.h); both headers define the same values.
 */
module Config {

  /** Rounds a player may play (`MAX_ROUND`). */
  const MaxRound: nat := 12
  /** Symbols in a code (`BOARD_WIDTH`). */
  const BoardWidth: nat := 4
  /** Integers in one feedback row (`RESULT_WIDTH`). */
  const ResultWidth: nat := 2
  /** Largest cohort (`MAX_PLAYERS`). */
  const MaxPlayers: nat := 4
  /** "Nobody" for the winner and "no symbol yet" for cells (`EMPTY`). */
  const Empty: int := -1
  /** "No feedback yet" in the client's result rows (`EMPTY_SCORE`). */
  const EmptyScore: int := -2

  /** What a `char` board or secret cell holds once `EMPTY` (-1) is stored in it: the byte 0xFF. */
  const EmptyCell: char := 255 as char

  /** A row of `EMPTY` cells. */
  function EmptyRow(): (row: seq<char>)
    ensures |row| == BoardWidth && forall c :: 0 <= c < BoardWidth ==> row[c] == EmptyCell
  {
    seq(BoardWidth, _ => EmptyCell)
  }

  /** The palette as the secret generator and the client's validator list it. */
  const Colors: seq<char> := "RGBCYM"
  /** The palette as the scoring routine lists it: the same six symbols, G and B swapped. */
  const ScoringColors: seq<char> := "RBGCYM"

  /** A connection handle; the model never looks inside it. */
  type Socket = nat

  predicate OverPalette(s: seq<char>) {
    forall i :: 0 <= i < |s| ==> s[i] in Colors
  }

  /** A well-formed code: `BoardWidth` palette symbols. */
  predicate IsCode(s: seq<char>) {
    |s| == BoardWidth && OverPalette(s)
  }

  /** One feedback row: well-placed symbols (`result[r][0]`) and misplaced ones (`result[r][1]`). */
  datatype Feedback = Feedback(place: int, color: int)

}
