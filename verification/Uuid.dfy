/** UUID text and order of generic/uuid-generic.c (RFC 4122, section 3). */
module Uuid {
  type u8 = n: nat | n < 0x100
  type u16 = n: nat | n < 0x1_0000
  type u32 = n: nat | n < 0x1_0000_0000

  datatype Uuid = Uuid(timeLow: u32, timeMid: u16, timeHiAndVersion: u16, clockSeqHi: u8, clockSeqLow: u8,
                       n0: u8, n1: u8, n2: u8, n3: u8, n4: u8, n5: u8)

  const NIL := Uuid(0, 0, 0, 0, 0, 0, 0, 0, 0, 0, 0)
  const DASH: u8 := 0x2d
  const STR_LENGTH := 37

  datatype Parsed = Ok(uuid: Uuid) | InvalidFormat

  // ----- digits -----

  /** g_achDigits. */
  function Digit(d: nat): u8
    requires d < 16
  {
    if d < 10 then 0x30 + d else 0x61 + (d - 10)
  }

  /** g_au8Digits: the value of a hex digit of either case, 0xff for anything else. */
  function DigitValue(c: u8): (v: u8)
    ensures v < 16 || v == 0xff
  {
    if 0x30 <= c <= 0x39 then c - 0x30
    else if 0x41 <= c <= 0x46 then c - 0x41 + 10
    else if 0x61 <= c <= 0x66 then c - 0x61 + 10
    else 0xff
  }

  /** The digit test of the narrow parser. */
  predicate IsXDigit(c: u16) {
    DigitValue(c % 0x100) != 0xff
  }

  /** The digit test of the UTF-16 parser, which looks at the high byte too. */
  predicate IsWideXDigit(c: u16) {
    c / 0x100 == 0 && DigitValue(c % 0x100) != 0xff
  }

  function Lower(c: u16): u16 {
    if 0x41 <= c <= 0x46 then c + 0x20 else c
  }

  // ----- numbers as digits -----

  function Pow16(n: nat): (p: nat)
    ensures p > 0
  {
    if n == 0 then 1 else 16 * Pow16(n - 1)
  }

  function Hex(n: nat, v: nat): (s: seq<u16>)
    ensures |s| == n
  {
    if n == 0 then [] else Hex(n - 1, v / 16) + [Digit(v % 16)]
  }

  function Value(s: seq<u16>): nat {
    if s == [] then 0 else 16 * Value(s[..|s| - 1]) + DigitValue(s[|s| - 1] % 0x100) % 16
  }

  lemma {:induction false} ValueBound(s: seq<u16>)
    ensures Value(s) < Pow16(|s|)
  {
    if s != [] { ValueBound(s[..|s| - 1]); }
  }

  lemma {:induction false} ValueOfHex(n: nat, v: nat)
    requires v < Pow16(n)
    ensures Value(Hex(n, v)) == v
    ensures forall i :: 0 <= i < n ==> IsWideXDigit(Hex(n, v)[i])
    decreases n
  {
    if n > 0 {
      ValueOfHex(n - 1, v / 16);
      assert Hex(n, v)[..n - 1] == Hex(n - 1, v / 16);
      assert Hex(n, v)[n - 1] == Digit(v % 16);
      DigitRoundTrip(v % 16);
      hide Digit, DigitValue, IsWideXDigit;
    }
  }

  lemma DigitRoundTrip(d: nat)
    requires d < 16
    ensures DigitValue(Digit(d)) == d && IsWideXDigit(Digit(d))
  {
  }

  function Lowered(s: seq<u16>): (r: seq<u16>)
    ensures |r| == |s| && forall i :: 0 <= i < |s| ==> r[i] == Lower(s[i])
  {
    seq(|s|, i requires 0 <= i < |s| => Lower(s[i]))
  }

  lemma {:induction false} HexOfValue(s: seq<u16>)
    requires forall i :: 0 <= i < |s| ==> IsWideXDigit(s[i])
    ensures Hex(|s|, Value(s)) == Lowered(s)
    decreases |s|
  {
    if s != [] {
      var n := |s| - 1;
      HexOfValue(s[..n]);
      assert IsWideXDigit(s[n]);
      DigitLowers(s[n]);
      var v, d: nat := Value(s[..n]), DigitValue(s[n] % 0x100) % 16;
      assert Value(s) == 16 * v + d;
      assert Lowered(s) == Lowered(s[..n]) + [Lower(s[n])];
      hide Value, Lowered, Lower, Digit, DigitValue, IsWideXDigit;
      LastDigit(v, d);
    }
  }

  lemma LastDigit(v: nat, d: nat)
    requires d < 16
    ensures (16 * v + d) / 16 == v && (16 * v + d) % 16 == d
  {
  }

  lemma DigitLowers(c: u16)
    requires IsWideXDigit(c)
    ensures DigitValue(c % 0x100) < 16 && Digit(DigitValue(c % 0x100)) == Lower(c)
  {
  }

  // ----- printing -----

  function TimeText(u: Uuid): (s: seq<u16>)
    ensures |s| == 19
  {
    Hex(8, u.timeLow) + [DASH] + Hex(4, u.timeMid) + [DASH] + Hex(4, u.timeHiAndVersion) + [DASH]
  }

  function NodeText(u: Uuid): (s: seq<u16>)
    ensures |s| == 12
  {
    Hex(2, u.n0) + Hex(2, u.n1) + Hex(2, u.n2) + Hex(2, u.n3) + Hex(2, u.n4) + Hex(2, u.n5)
  }

  /** The printed form. */
  function Text(u: Uuid): (s: seq<u16>)
    ensures |s| == 36
  {
    TimeText(u) + Hex(2, u.clockSeqHi) + Hex(2, u.clockSeqLow) + [DASH] + NodeText(u)
  }

  /** A shift right by n digits. */
  function Shr(v: nat, n: nat): nat {
    if n == 0 then v else Shr(v / 16, n - 1)
  }

  lemma {:induction false} HexAt(n: nat, v: nat, i: nat)
    requires i < n
    ensures Hex(n, v)[i] == Digit(Shr(v, n - 1 - i) % 16)
    decreases n
  {
    if i < n - 1 { HexAt(n - 1, v / 16, i); }
  }

  /** The leading digit needs no mask. */
  lemma {:induction false} ShrTop(v: nat, n: nat)
    requires v < Pow16(n + 1)
    ensures Shr(v, n) < 16
    decreases n
  {
    if n > 0 { ShrTop(v / 16, n - 1); }
  }

  // The text grows by a piece, and what comes after it is left alone.
  twostate predicate Grew(p: array<u16>, at: nat, piece: seq<u16>)
    requires at + |piece| <= p.Length
    reads p
  {
    && p[..at + |piece|] == old(p[..at]) + piece
    && forall i :: at + |piece| <= i < p.Length ==> p[i] == old(p[i])
  }

  method PutByte(p: array<u16>, at: nat, b: u8)
    requires at + 2 <= p.Length
    modifies p
    ensures Grew(p, at, Hex(2, b))
  {
    Masks(2, b);
    hide Digit, Shr, Hex;
    p[at] := Digit(Shr(b, 1));
    p[at + 1] := Digit(Shr(b, 0) % 16);
    assert p[..at + 2] == old(p[..at]) + Hex(2, b);
  }

  method PutWord(p: array<u16>, at: nat, v: u16)
    requires at + 4 <= p.Length
    modifies p
    ensures Grew(p, at, Hex(4, v))
  {
    Masks(4, v);
    hide Digit, Shr, Hex;
    p[at] := Digit(Shr(v, 3));
    p[at + 1] := Digit(Shr(v, 2) % 16);
    p[at + 2] := Digit(Shr(v, 1) % 16);
    p[at + 3] := Digit(Shr(v, 0) % 16);
    assert p[..at + 4] == old(p[..at]) + Hex(4, v);
  }

  method PutLong(p: array<u16>, at: nat, v: u32)
    requires at + 8 <= p.Length
    modifies p
    ensures Grew(p, at, Hex(8, v))
  {
    Masks(8, v);
    hide Digit, Shr, Hex;
    ghost var hex := Hex(8, v);
    assert hex[..4] + hex[4..] == hex;
    PutFour(p, at, hex[..4], Digit(Shr(v, 7)), Digit(Shr(v, 6) % 16), Digit(Shr(v, 5) % 16), Digit(Shr(v, 4) % 16));
    PutFour(p, at + 4, hex[4..],
            Digit(Shr(v, 3) % 16), Digit(Shr(v, 2) % 16), Digit(Shr(v, 1) % 16), Digit(Shr(v, 0) % 16));
  }

  method PutFour(p: array<u16>, at: nat, ghost piece: seq<u16>, c0: u16, c1: u16, c2: u16, c3: u16)
    requires at + 4 <= p.Length && piece == [c0, c1, c2, c3]
    modifies p
    ensures Grew(p, at, piece)
  {
    p[at], p[at + 1], p[at + 2], p[at + 3] := c0, c1, c2, c3;
    assert p[..at + 4] == old(p[..at]) + piece;
  }

  /** Shifts and masks give the digits; the leading one needs no mask. */
  lemma Masks(n: nat, v: nat)
    requires n > 0 && v < Pow16(n)
    ensures Shr(v, n - 1) < 16
    ensures forall i :: 0 <= i < n ==> Hex(n, v)[i] == Digit(Shr(v, n - 1 - i) % 16)
  {
  }

  method PutDash(p: array<u16>, at: nat)
    requires at < p.Length
    modifies p
    ensures Grew(p, at, [DASH])
  {
    p[at] := DASH;
    assert p[..at + 1] == old(p[..at]) + [DASH];
  }

  /** RTUuidToStr, and RTUuidToUtf16, which differs in the width of the characters only. */
  method ToStr(u: Uuid, p: array<u16>) returns (fOk: bool)
    modifies p
    ensures fOk <==> p.Length >= STR_LENGTH
    ensures fOk ==> p[..36] == Text(u) && p[36] == 0 && p[37..] == old(p[37..])
    ensures !fOk ==> p[..] == old(p[..])
  {
    hide Hex, Digit, Shr;
    if p.Length < STR_LENGTH {
      return false;
    }
    PutTime(u, p);
    PutByte(p, 19, u.clockSeqHi);
    PutByte(p, 21, u.clockSeqLow);
    PutDash(p, 23);
    PutNode(u, p);
    p[36] := 0;
    fOk := true;
  }

  method PutTime(u: Uuid, p: array<u16>)
    requires 36 <= p.Length
    modifies p
    ensures Grew(p, 0, TimeText(u))
  {
    hide Hex, Digit, Shr;
    PutLong(p, 0, u.timeLow);
    PutDash(p, 8);
    PutWord(p, 9, u.timeMid);
    PutDash(p, 13);
    PutWord(p, 14, u.timeHiAndVersion);
    PutDash(p, 18);
  }

  method PutNode(u: Uuid, p: array<u16>)
    requires 36 <= p.Length
    modifies p
    ensures Grew(p, 24, NodeText(u))
  {
    hide Hex, Digit, Shr;
    PutByte(p, 24, u.n0);
    PutByte(p, 26, u.n1);
    PutByte(p, 28, u.n2);
    PutByte(p, 30, u.n3);
    PutByte(p, 32, u.n4);
    PutByte(p, 34, u.n5);
  }

  // ----- parsing -----

  /** The character at i of a C string, given without its terminator; what follows that is not read,
      since a test on the terminator fails first. */
  function At(psz: seq<u16>, i: nat): u16 {
    if i < |psz| then psz[i] else 0
  }

  predicate XDigit(c: u16, fWide: bool) {
    if fWide then IsWideXDigit(c) else IsXDigit(c)
  }

  predicate XDigits(psz: seq<u16>, from: nat, n: nat, fWide: bool) {
    forall i :: from <= i < from + n ==> XDigit(At(psz, i), fWide)
  }

  /** The tests of RTUuidFromStr and RTUuidFromUtf16, in order. */
  predicate Accepts(psz: seq<u16>, fWide: bool) {
    && XDigits(psz, 0, 8, fWide) && At(psz, 8) == DASH
    && XDigits(psz, 9, 4, fWide) && At(psz, 13) == DASH
    && XDigits(psz, 14, 4, fWide) && At(psz, 18) == DASH
    && XDigits(psz, 19, 4, fWide) && At(psz, 23) == DASH
    && XDigits(psz, 24, 12, fWide)
    && At(psz, 36) == 0
  }

  /** n digits from a place on, as shifted and or-ed together. */
  function Number(psz: seq<u16>, from: nat, n: nat): nat
    requires from + n <= |psz|
  {
    Value(psz[from..from + n])
  }

  /** RTUuidFromStr, and RTUuidFromUtf16 when fWide. */
  function FromStr(psz: seq<u16>, fWide: bool): Parsed
    requires forall i :: 0 <= i < |psz| ==> psz[i] != 0
  {
    if !Accepts(psz, fWide) then InvalidFormat else
    AcceptedLength(psz, fWide);
    NumberBounds(psz);
    Ok(Uuid(Number(psz, 0, 8), Number(psz, 9, 4), Number(psz, 14, 4), Number(psz, 19, 2), Number(psz, 21, 2),
            Number(psz, 24, 2), Number(psz, 26, 2), Number(psz, 28, 2),
            Number(psz, 30, 2), Number(psz, 32, 2), Number(psz, 34, 2)))
  }

  /** Only a string of 36 characters passes: the terminator is no digit. */
  lemma AcceptedLength(psz: seq<u16>, fWide: bool)
    requires Accepts(psz, fWide) && forall i :: 0 <= i < |psz| ==> psz[i] != 0
    ensures |psz| == 36
  {
    assert XDigit(At(psz, 35), fWide);
  }

  lemma NumberBounds(psz: seq<u16>)
    requires |psz| == 36
    ensures Number(psz, 0, 8) < 0x1_0000_0000
    ensures forall i: nat, n: nat :: i + n <= 36 && n == 4 ==> Number(psz, i, n) < 0x1_0000
    ensures forall i: nat, n: nat :: i + n <= 36 && n == 2 ==> Number(psz, i, n) < 0x100
  {
    Powers();
    ValueBound(psz[0..8]);
    forall i: nat, n: nat | i + n <= 36 && n == 4 ensures Number(psz, i, n) < 0x1_0000 { ValueBound(psz[i..i + n]); }
    forall i: nat, n: nat | i + n <= 36 && n == 2 ensures Number(psz, i, n) < 0x100 { ValueBound(psz[i..i + n]); }
  }

  lemma Powers()
    ensures Pow16(2) == 0x100 && Pow16(4) == 0x1_0000 && Pow16(8) == 0x1_0000_0000
  {
  }

  /** Where each piece of the text stands. */
  lemma TextPieces(u: Uuid)
    ensures var s := Text(u);
      && s[0..8] == Hex(8, u.timeLow) && s[8] == DASH && s[9..13] == Hex(4, u.timeMid) && s[13] == DASH
      && s[14..18] == Hex(4, u.timeHiAndVersion) && s[18] == DASH
      && s[19..21] == Hex(2, u.clockSeqHi) && s[21..23] == Hex(2, u.clockSeqLow) && s[23] == DASH
      && s[24..36] == NodeText(u)
      && s[24..26] == Hex(2, u.n0) && s[26..28] == Hex(2, u.n1) && s[28..30] == Hex(2, u.n2)
      && s[30..32] == Hex(2, u.n3) && s[32..34] == Hex(2, u.n4) && s[34..36] == Hex(2, u.n5)
  {
  }

  lemma PieceOk(s: seq<u16>, from: nat, n: nat, v: nat, fWide: bool)
    requires from + n <= |s| && s[from..from + n] == Hex(n, v) && v < Pow16(n)
    ensures XDigits(s, from, n, fWide) && Number(s, from, n) == v
    ensures forall i :: from <= i < from + n ==> s[i] != 0
  {
    ValueOfHex(n, v);
    forall i | from <= i < from + n ensures XDigit(At(s, i), fWide) && s[i] != 0 {
      assert s[i] == s[from..from + n][i - from];
      assert IsWideXDigit(Hex(n, v)[i - from]);
    }
  }

  /** Parsing what was printed gives the same UUID, in either width. */
  lemma ParsePrinted(u: Uuid, fWide: bool)
    ensures forall i :: 0 <= i < 36 ==> Text(u)[i] != 0
    ensures FromStr(Text(u), fWide) == Ok(u)
  {
    hide Hex, Text, XDigit, Value, NodeText;
    var s := Text(u);
    TextPieces(u);
    Powers();
    PieceOk(s, 0, 8, u.timeLow, fWide);
    PieceOk(s, 9, 4, u.timeMid, fWide);
    PieceOk(s, 14, 4, u.timeHiAndVersion, fWide);
    PieceOk(s, 19, 2, u.clockSeqHi, fWide);
    PieceOk(s, 21, 2, u.clockSeqLow, fWide);
    PieceOk(s, 24, 2, u.n0, fWide);
    PieceOk(s, 26, 2, u.n1, fWide);
    PieceOk(s, 28, 2, u.n2, fWide);
    PieceOk(s, 30, 2, u.n3, fWide);
    PieceOk(s, 32, 2, u.n4, fWide);
    PieceOk(s, 34, 2, u.n5, fWide);
  }

  lemma PieceLowers(psz: seq<u16>, from: nat, n: nat)
    requires from + n <= |psz| && XDigits(psz, from, n, true)
    ensures Hex(n, Number(psz, from, n)) == Lowered(psz)[from..from + n]
  {
    var s := psz[from..from + n];
    forall i | 0 <= i < n ensures IsWideXDigit(s[i]) { assert XDigit(At(psz, from + i), true); }
    HexOfValue(s);
    assert Lowered(psz)[from..from + n] == Lowered(s);
  }

  /** A byte string is taken alike by both parsers; the wide one takes nothing else. */
  lemma WideAgrees(psz: seq<u16>)
    requires forall i :: 0 <= i < |psz| ==> psz[i] != 0
    ensures (forall i :: 0 <= i < |psz| ==> psz[i] < 0x100) ==> FromStr(psz, true) == FromStr(psz, false)
    ensures FromStr(psz, true).Ok? <==> FromStr(psz, false).Ok? && forall i :: 0 <= i < |psz| ==> psz[i] < 0x100
  {
    if Accepts(psz, true) {
      AcceptedLength(psz, true);
      forall i | 0 <= i < 36 ensures psz[i] < 0x100 {
        assert i != 8 && i != 13 && i != 18 && i != 23 ==> XDigit(At(psz, i), true);
      }
    }
  }

  /** Printing what was parsed gives the lower-cased text. */
  lemma PrintParsed(psz: seq<u16>, fWide: bool)
    requires forall i :: 0 <= i < |psz| ==> psz[i] != 0
    requires FromStr(psz, fWide).Ok? && (fWide || forall i :: 0 <= i < |psz| ==> psz[i] < 0x100)
    ensures Text(FromStr(psz, fWide).uuid) == Lowered(psz)
  {
    WideAgrees(psz);
    AcceptedLength(psz, fWide);
    var u := FromStr(psz, fWide).uuid;
    assert Accepts(psz, true);
    LowersTime(psz);
    LowersRest(psz);
    TextPieces(u);
    hide Hex, Number, Accepts, XDigits, Text, NodeText, Lowered;
    SamePieces(Text(u), Lowered(psz));
  }

  lemma LowersTime(psz: seq<u16>)
    requires |psz| == 36 && Accepts(psz, true)
    ensures var l := Lowered(psz);
      && l[0..8] == Hex(8, Number(psz, 0, 8)) && l[8] == DASH && l[9..13] == Hex(4, Number(psz, 9, 4)) && l[13] == DASH
      && l[14..18] == Hex(4, Number(psz, 14, 4)) && l[18] == DASH && l[23] == DASH
  {
    hide Hex, XDigit;
    PieceLowers(psz, 0, 8);
    PieceLowers(psz, 9, 4);
    PieceLowers(psz, 14, 4);
  }

  lemma LowersRest(psz: seq<u16>)
    requires |psz| == 36 && Accepts(psz, true)
    ensures var l := Lowered(psz);
      && l[19..21] == Hex(2, Number(psz, 19, 2)) && l[21..23] == Hex(2, Number(psz, 21, 2))
      && l[24..26] == Hex(2, Number(psz, 24, 2)) && l[26..28] == Hex(2, Number(psz, 26, 2))
      && l[28..30] == Hex(2, Number(psz, 28, 2))
      && l[30..32] == Hex(2, Number(psz, 30, 2)) && l[32..34] == Hex(2, Number(psz, 32, 2))
      && l[34..36] == Hex(2, Number(psz, 34, 2))
  {
    hide Hex, XDigit, Number, Lowered;
    PieceLowers(psz, 19, 2);
    PieceLowers(psz, 21, 2);
    PieceLowers(psz, 24, 2);
    PieceLowers(psz, 26, 2);
    PieceLowers(psz, 28, 2);
    PieceLowers(psz, 30, 2);
    PieceLowers(psz, 32, 2);
    PieceLowers(psz, 34, 2);
  }

  lemma SamePieces(s: seq<u16>, t: seq<u16>)
    requires |s| == |t| == 36
    requires s[0..8] == t[0..8] && s[8] == t[8] && s[9..13] == t[9..13] && s[13] == t[13]
    requires s[14..18] == t[14..18] && s[18] == t[18] && s[19..21] == t[19..21]
    requires s[21..23] == t[21..23] && s[23] == t[23]
    requires s[24..26] == t[24..26] && s[26..28] == t[26..28] && s[28..30] == t[28..30]
    requires s[30..32] == t[30..32] && s[32..34] == t[32..34] && s[34..36] == t[34..36]
    ensures s == t
  {
  }

  // ----- order -----

  /** A pointer to a UUID, or NULL. */
  datatype Ref = NULL | To(uuid: Uuid)

  function Target(p: Ref): Uuid {
    if p.NULL? then NIL else p.uuid
  }

  function Sign(a: int, b: int): int {
    if a < b then -1 else if a > b then 1 else 0
  }

  /** RTUuidCompare. */
  function Compare(p: Ref, q: Ref): int {
    if p == q then 0
    else if p.NULL? then (if q.uuid == NIL then 0 else -1)
    else if q.NULL? then (if p.uuid == NIL then 0 else 1)
    else
      var a, b := p.uuid, q.uuid;
      if a.timeLow != b.timeLow then (if a.timeLow < b.timeLow then -1 else 1)
      else if a.timeMid != b.timeMid then (if a.timeMid < b.timeMid then -1 else 1)
      else if a.timeHiAndVersion != b.timeHiAndVersion then (if a.timeHiAndVersion < b.timeHiAndVersion then -1 else 1)
      else if a.clockSeqHi != b.clockSeqHi then (if a.clockSeqHi < b.clockSeqHi then -1 else 1)
      else if a.clockSeqLow != b.clockSeqLow then (if a.clockSeqLow < b.clockSeqLow then -1 else 1)
      else if a.n0 != b.n0 then (if a.n0 < b.n0 then -1 else 1)
      else if a.n1 != b.n1 then (if a.n1 < b.n1 then -1 else 1)
      else if a.n2 != b.n2 then (if a.n2 < b.n2 then -1 else 1)
      else if a.n3 != b.n3 then (if a.n3 < b.n3 then -1 else 1)
      else if a.n4 != b.n4 then (if a.n4 < b.n4 then -1 else 1)
      else if a.n5 != b.n5 then (if a.n5 < b.n5 then -1 else 1)
      else 0
  }

  /** Lexicographic comparison of texts. */
  function Lex(s: seq<u16>, t: seq<u16>): int {
    if s == [] then (if t == [] then 0 else -1)
    else if t == [] then 1
    else if s[0] != t[0] then Sign(s[0], t[0])
    else Lex(s[1..], t[1..])
  }

  lemma {:induction false} LexJoin(a: seq<u16>, b: seq<u16>, c: seq<u16>, d: seq<u16>)
    requires |a| == |c|
    ensures Lex(a + b, c + d) == if a == c then Lex(b, d) else Lex(a, c)
    ensures a != c ==> Lex(a, c) != 0
    decreases |a|
  {
    if a == [] {
      assert a + b == b && c + d == d;
    } else {
      assert (a + b)[1..] == a[1..] + b && (c + d)[1..] == c[1..] + d;
      LexJoin(a[1..], b, c[1..], d);
      assert a[0] == c[0] ==> (a == c <==> a[1..] == c[1..]) by {
        assert a == [a[0]] + a[1..] && c == [c[0]] + c[1..];
      }
    }
  }

  /** Digit strings of one length order like their numbers. */
  lemma {:induction false} LexOfHex(n: nat, v: nat, w: nat)
    requires v < Pow16(n) && w < Pow16(n)
    ensures Lex(Hex(n, v), Hex(n, w)) == Sign(v, w)
    ensures Hex(n, v) == Hex(n, w) <==> v == w
    decreases n
  {
    if n > 0 {
      LexOfHex(n - 1, v / 16, w / 16);
      LexJoin(Hex(n - 1, v / 16), [Digit(v % 16)], Hex(n - 1, w / 16), [Digit(w % 16)]);
      ValueOfHex(n, v);
      ValueOfHex(n, w);
    }
  }

  /** The order of texts in pieces: the first piece that differs decides. */
  lemma LexPieces(x: seq<u16>, y: seq<u16>, n: nat, v: nat, w: nat)
    requires v < Pow16(n) && w < Pow16(n)
    ensures Lex(Hex(n, v) + x, Hex(n, w) + y) == if v == w then Lex(x, y) else Sign(v, w)
  {
    LexJoin(Hex(n, v), x, Hex(n, w), y);
    LexOfHex(n, v, w);
  }

  lemma LexDash(x: seq<u16>, y: seq<u16>)
    ensures Lex([DASH] + x, [DASH] + y) == Lex(x, y)
  {
  }

  // The text from the clock sequence, and from the node, on.
  function NodeTail(u: Uuid): seq<u16> {
    Hex(2, u.n0) + (Hex(2, u.n1) + (Hex(2, u.n2) + (Hex(2, u.n3) + (Hex(2, u.n4) + (Hex(2, u.n5) + [])))))
  }

  function ClockTail(u: Uuid): seq<u16> {
    Hex(2, u.clockSeqHi) + (Hex(2, u.clockSeqLow) + ([DASH] + NodeTail(u)))
  }

  function TimeTail(u: Uuid): seq<u16> {
    Hex(8, u.timeLow) + ([DASH] + (Hex(4, u.timeMid) + ([DASH]
      + (Hex(4, u.timeHiAndVersion) + ([DASH] + ClockTail(u))))))
  }

  lemma TextIsTails(u: Uuid)
    ensures Text(u) == TimeTail(u)
  {
  }

  lemma NodeOrder(a: Uuid, b: Uuid)
    ensures Lex(NodeTail(a), NodeTail(b)) ==
      if a.n0 != b.n0 then Sign(a.n0, b.n0) else if a.n1 != b.n1 then Sign(a.n1, b.n1)
      else if a.n2 != b.n2 then Sign(a.n2, b.n2)
      else if a.n3 != b.n3 then Sign(a.n3, b.n3) else if a.n4 != b.n4 then Sign(a.n4, b.n4) else Sign(a.n5, b.n5)
  {
    Powers();
    hide Hex, Pow16;
    LexPieces([], [], 2, a.n5, b.n5);
    var x5, y5 := Hex(2, a.n5) + [], Hex(2, b.n5) + [];
    LexPieces(x5, y5, 2, a.n4, b.n4);
    var x4, y4 := Hex(2, a.n4) + x5, Hex(2, b.n4) + y5;
    LexPieces(x4, y4, 2, a.n3, b.n3);
    var x3, y3 := Hex(2, a.n3) + x4, Hex(2, b.n3) + y4;
    LexPieces(x3, y3, 2, a.n2, b.n2);
    var x2, y2 := Hex(2, a.n2) + x3, Hex(2, b.n2) + y3;
    LexPieces(x2, y2, 2, a.n1, b.n1);
    LexPieces(Hex(2, a.n1) + x2, Hex(2, b.n1) + y2, 2, a.n0, b.n0);
  }

  lemma ClockOrder(a: Uuid, b: Uuid)
    ensures Lex(ClockTail(a), ClockTail(b)) ==
      if a.clockSeqHi != b.clockSeqHi then Sign(a.clockSeqHi, b.clockSeqHi)
      else if a.clockSeqLow != b.clockSeqLow then Sign(a.clockSeqLow, b.clockSeqLow) else Lex(NodeTail(a), NodeTail(b))
  {
    Powers();
    hide Hex, Pow16, NodeTail, Lex;
    var x, y := [DASH] + NodeTail(a), [DASH] + NodeTail(b);
    LexDash(NodeTail(a), NodeTail(b));
    LexPieces(x, y, 2, a.clockSeqLow, b.clockSeqLow);
    LexPieces(Hex(2, a.clockSeqLow) + x, Hex(2, b.clockSeqLow) + y, 2, a.clockSeqHi, b.clockSeqHi);
  }

  lemma TimeOrder(a: Uuid, b: Uuid)
    ensures Lex(TimeTail(a), TimeTail(b)) ==
      if a.timeLow != b.timeLow then Sign(a.timeLow, b.timeLow)
      else if a.timeMid != b.timeMid then Sign(a.timeMid, b.timeMid)
      else if a.timeHiAndVersion != b.timeHiAndVersion then Sign(a.timeHiAndVersion, b.timeHiAndVersion)
      else Lex(ClockTail(a), ClockTail(b))
  {
    Powers();
    hide Hex, Pow16, ClockTail, Lex;
    var x, y := [DASH] + ClockTail(a), [DASH] + ClockTail(b);
    LexDash(ClockTail(a), ClockTail(b));
    LexPieces(x, y, 4, a.timeHiAndVersion, b.timeHiAndVersion);
    var x1, y1 := Hex(4, a.timeHiAndVersion) + x, Hex(4, b.timeHiAndVersion) + y;
    LexDash(x1, y1);
    LexPieces([DASH] + x1, [DASH] + y1, 4, a.timeMid, b.timeMid);
    var x2, y2 := Hex(4, a.timeMid) + ([DASH] + x1), Hex(4, b.timeMid) + ([DASH] + y1);
    LexDash(x2, y2);
    LexPieces([DASH] + x2, [DASH] + y2, 8, a.timeLow, b.timeLow);
  }

  lemma NilIsLeast(u: Uuid)
    ensures u != NIL ==> Compare(To(NIL), To(u)) == -1 && Compare(To(u), To(NIL)) == 1
  {
  }

  /** The order of UUIDs is the lexicographic order of their texts, NULL counting as the nil UUID. */
  lemma CompareIsTextOrder(p: Ref, q: Ref)
    ensures Compare(p, q) == Lex(Text(Target(p)), Text(Target(q)))
  {
    var a, b := Target(p), Target(q);
    TextIsTails(a);
    TextIsTails(b);
    TimeOrder(a, b);
    ClockOrder(a, b);
    NodeOrder(a, b);
    NilIsLeast(a);
    NilIsLeast(b);
    hide Text, TimeTail, ClockTail, NodeTail, Lex;
    assert Compare(p, q) == Compare(To(a), To(b));
  }

  lemma {:induction false} LexTurns(s: seq<u16>, t: seq<u16>)
    ensures Lex(s, t) == -Lex(t, s)
    decreases |s|
  {
    if s != [] && t != [] { LexTurns(s[1..], t[1..]); }
  }

  lemma {:induction false} LexChains(s: seq<u16>, t: seq<u16>, u: seq<u16>)
    requires Lex(s, t) <= 0 && Lex(t, u) <= 0
    ensures Lex(s, u) <= 0
    decreases |s|
  {
    if s != [] && t != [] && u != [] && s[0] == t[0] == u[0] { LexChains(s[1..], t[1..], u[1..]); }
  }

  /** Comparison is a total preorder in which only NULL and the nil UUID are equal without being
      the same. */
  lemma CompareIsTotalPreorder(p: Ref, q: Ref, r: Ref)
    ensures Compare(p, q) == -Compare(q, p)
    ensures Compare(p, q) <= 0 && Compare(q, r) <= 0 ==> Compare(p, r) <= 0
    ensures Compare(p, q) == 0 <==> Target(p) == Target(q)
  {
  }
}
