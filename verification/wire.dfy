/**
 * The byte-level conventions both ends rely on: messages travel as C strings,
 * numbers travel as `v + '0'` in one `char`, a `char` is a signed 8-bit value,
 * and the end-of-game status carries a `%d` decimal.
 */
module Wire {
  import opened Wrappers

  const Nul: char := 0 as char

  /** The literal the ready handshake waits for. */
  const ReadyToken: string := "ready"

  /**
   * What a C-string transport delivers for a buffer: everything before the
   * first NUL (the sender uses `strlen`, the receiver `strcpy`).
   */
  function CString(bytes: seq<char>): (s: seq<char>)
    ensures s <= bytes
    ensures Nul !in s
    ensures |s| < |bytes| ==> bytes[|s|] == Nul
    ensures Nul !in bytes ==> s == bytes
  {
    if |bytes| == 0 || bytes[0] == Nul then []
    else [bytes[0]] + CString(bytes[1..])
  }

  /** Byte `i` of a receive buffer after `strcpy` of message `m`: the message, then its terminator. */
  function BufferAt(m: seq<char>, i: nat): (c: char)
    requires i <= |m|
    ensures i == |m| ==> c == Nul
  {
    if i < |m| then m[i] else Nul
  }

  /** Byte `i` of a zero-filled receive buffer after `strcpy` of message `m`: the message, then NULs. */
  function ZeroedAt(m: seq<char>, i: nat): (c: char)
    ensures i >= |m| ==> c == Nul
    ensures i < |m| ==> c == m[i]
  {
    if i < |m| then m[i] else Nul
  }

  /** A buffer that holds a NUL-free message followed by a NUL reads back, as a C string, as that message. */
  lemma TerminatedReadsBack(b: seq<char>, m: seq<char>)
    requires Nul !in m && |m| < |b| && b[..|m|] == m && b[|m|] == Nul
    ensures CString(b) == m
  {
    var s := CString(b);
    assert forall i :: 0 <= i < |s| ==> b[i] == s[i] && s[i] != Nul;
    assert forall i :: 0 <= i < |m| ==> b[i] == m[i] && m[i] != Nul;
    assert s == b[..|s|];
  }

  /** The receive buffer of a NUL-free message `m`, up to its terminator, reads back as `m`. */
  lemma ReceivedReadsBack(m: seq<char>)
    requires Nul !in m
    ensures CString(seq(|m| + 1, i requires 0 <= i <= |m| => BufferAt(m, i))) == m
  {
    var b := seq(|m| + 1, i requires 0 <= i <= |m| => BufferAt(m, i));
    assert b[..|m|] == m;
    TerminatedReadsBack(b, m);
  }

  /** A zero-filled buffer of `n` bytes that received a shorter NUL-free message `m` reads back as `m`. */
  lemma ZeroedReadsBack(m: seq<char>, n: nat)
    requires Nul !in m && |m| < n
    ensures CString(seq(n, i requires 0 <= i < n => ZeroedAt(m, i))) == m
  {
    var b := seq(n, i requires 0 <= i < n => ZeroedAt(m, i));
    assert b[..|m|] == m;
    TerminatedReadsBack(b, m);
  }

  /** The value of a byte read as a signed 8-bit C `char`. */
  function SignedByte(c: char): (v: int)
    ensures -128 <= v < 128
    ensures v % 256 == c as int % 256
  {
    var b := c as int % 256;
    if b < 128 then b else b - 256
  }

  /** The byte an `int` becomes when stored into a `char`: its low 8 bits. */
  function ToByte(v: int): (c: char)
    ensures c as int < 256
    ensures c as int % 256 == v % 256
  {
    (v % 256) as char
  }

  /** A value survives a trip through a `char` exactly when it fits in a signed byte. */
  lemma ToByteRoundTrip(v: int)
    ensures SignedByte(ToByte(v)) == v <==> -128 <= v < 128
  {
    var c := ToByte(v);
    assert c as int % 256 == c as int;
    if -128 <= v < 0 {
      assert v % 256 == v + 256;
    }
  }

  /**
   * The server's number encoding: `v + '0'` stored in a `char`, so reduced
   * to a byte; every count the game sends (0 .. 12) becomes one of the
   * printable chars '0' .. '<'.
   */
  function EncodeValue(v: int): (c: char)
    ensures c as int < 256 && c as int % 256 == (v + '0' as int) % 256
    ensures 0 <= v <= 12 ==> '0' <= c <= '<'
  {
    ToByte(v + '0' as int)
  }

  /**
   * The client's number decoding: `c - '0'` on a signed `char`. Every byte
   * decodes to a value in -176 .. 79, which encodes back to that byte.
   */
  function DecodeValue(c: char): (d: int)
    ensures -176 <= d < 80
    ensures c as int < 256 ==> EncodeValue(d) == c
  {
    var b := SignedByte(c);
    assert c as int < 256 ==> c as int % 256 == c as int;
    b - '0' as int
  }

  /** Decoding undoes encoding exactly on the values for which `v + '0'` fits in a signed `char`. */
  lemma DecodeEncodeValue(v: int)
    ensures DecodeValue(EncodeValue(v)) == v <==> -176 <= v < 80
  {
    ToByteRoundTrip(v + '0' as int);
  }

  /**
   * Every count the game sends (0 .. 12, round numbers included) is encoded
   * as a printable, non-NUL char between '0' and '<' and decodes back to itself.
   */
  lemma EncodeGameValue(v: int)
    requires 0 <= v <= 12
    ensures '0' <= EncodeValue(v) <= '<'
    ensures EncodeValue(v) != Nul
    ensures DecodeValue(EncodeValue(v)) == v
  {
    DecodeEncodeValue(v);
  }

  /* ---------- `%d` formatting (sprintf) and scanning (sscanf) ---------- */

  predicate IsDigit(c: char) {
    '0' <= c <= '9'
  }

  /** The whitespace `%d` skips: space, tab, newline, vertical tab, form feed, carriage return. */
  predicate IsSpace(c: char) {
    c == ' ' || '\t' <= c <= '\r'
  }

  function DigitChar(d: nat): (c: char)
    requires d < 10
    ensures IsDigit(c)
  {
    ('0' as int + d) as char
  }

  /** Decimal digits of `n`, most significant first, without leading zeros. */
  function Digits(n: nat): (s: string)
    ensures |s| >= 1
    ensures forall i :: 0 <= i < |s| ==> IsDigit(s[i])
    ensures s[0] == '0' <==> n == 0
  {
    if n < 10 then [DigitChar(n)] else Digits(n / 10) + [DigitChar(n % 10)]
  }

  /** The number a string of digits denotes, most significant first. */
  function DigitsValue(s: string): nat
    requires forall i :: 0 <= i < |s| ==> IsDigit(s[i])
  {
    if |s| == 0 then 0
    else
      assert IsDigit(s[|s| - 1]);
      DigitsValue(s[..|s| - 1]) * 10 + (s[|s| - 1] as int - '0' as int)
  }

  /**
   * `sprintf("%d", n)`: a minus sign exactly for negative numbers, then at
   * least one digit, with a leading zero only for zero itself.
   */
  function FormatInt(n: int): (s: string)
    ensures |s| >= 1 && (s[0] == '-' <==> n < 0)
    ensures var k := if n < 0 then 1 else 0;
      |s| > k && (forall i :: k <= i < |s| ==> IsDigit(s[i])) && (s[k] == '0' <==> n == 0)
  {
    if n < 0 then "-" + Digits(-n) else Digits(n)
  }

  /** Length of the run of digits at the head of `s`. */
  function DigitRun(s: string): (k: nat)
    ensures k <= |s|
    ensures forall i :: 0 <= i < k ==> IsDigit(s[i])
    ensures k < |s| ==> !IsDigit(s[k])
  {
    if |s| == 0 || !IsDigit(s[0]) then 0 else 1 + DigitRun(s[1..])
  }

  /**
   * `sscanf(s, "%d", &v)`: skip white space, read an optional sign and the
   * longest run of digits; `None` when no digit follows (v is left alone).
   */
  function ScanInt(s: string): (r: Option<int>)
    ensures (forall i :: 0 <= i < |s| ==> !IsDigit(s[i])) ==> r.None?
    ensures |s| > 0 && IsDigit(s[0]) ==> r.Some? && r.value >= 0
  {
    if |s| > 0 && IsSpace(s[0]) then ScanInt(s[1..])
    else
      var signed := |s| > 0 && (s[0] == '-' || s[0] == '+');
      var body := if signed then s[1..] else s;
      var k := DigitRun(body);
      if k == 0 then None
      else
        var v: int := DigitsValue(body[..k]);
        Some(if signed && s[0] == '-' then -v else v)
  }

  lemma {:induction false} DigitsValueOfDigits(n: nat)
    ensures DigitsValue(Digits(n)) == n
    decreases n
  {
    if n >= 10 {
      var s := Digits(n);
      DigitsValueOfDigits(n / 10);
      assert s[..|s| - 1] == Digits(n / 10);
    }
  }

  /** Scanning what `%d` printed gives back the number printed. */
  lemma ScanFormatInt(n: int)
    ensures ScanInt(FormatInt(n)) == Some(n)
  {
    var m := if n < 0 then -n else n;
    var d := Digits(m);
    DigitsValueOfDigits(m);
    assert DigitRun(d) == |d|;
    assert d[..|d|] == d;
    if n < 0 {
      assert FormatInt(n)[1..] == d;
    }
  }

}
