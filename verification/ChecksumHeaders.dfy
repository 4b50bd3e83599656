/** Folding, headers, pseudo headers and whole packets, on top of the sums of module Checksum. */
module ChecksumHeaders {
  import opened Checksum

  // ----- folding -----

  /** rtNetIPv4FinalizeChecksum: high and low words, the carry, the complement. */
  function Finalize(u32Sum: nat): nat {
    var s := u32Sum / TWO16 + u32Sum % TWO16;
    ONES - (s + s / TWO16) % TWO16
  }

  /** The ones' complement value of a sum: 0 only for 0, otherwise 1 to 0xffff, modulo 0xffff. */
  function Rep(n: nat): (r: nat)
    ensures r <= ONES && (r == 0 <==> n == 0)
  {
    if n == 0 then 0 else (n - 1) % ONES + 1
  }

  lemma RepIs(n: nat, q: nat, r: nat)
    requires n == ONES * q + r && 1 <= r <= ONES
    ensures Rep(n) == r
  {
  }

  lemma RepTells(n: nat) returns (q: nat)
    requires n > 0
    ensures n == ONES * q + Rep(n)
  {
    q := (n - 1) / ONES;
  }

  /** Multiples of 0xffff do not show. */
  lemma RepShifts(a: nat, b: nat, k: nat)
    requires a == b + ONES * k && (a == 0 <==> b == 0)
    ensures Rep(a) == Rep(b)
  {
  }

  /** Folding any 32-bit sum gives the complement of its ones' complement value. */
  lemma FinalizeIsComplement(u: nat)
    requires u < TWO32
    ensures Finalize(u) == ONES - Rep(u)
  {
    var h, l := u / TWO16, u % TWO16;
    var s := h + l;
    assert u == ONES * h + s;
    if s == 0 {
    } else if s <= ONES {
      RepIs(u, h, s);
    } else {
      assert u == ONES * (h + 1) + (s - ONES);
      RepIs(u, h + 1, s - ONES);
      assert s / TWO16 == 1;
    }
  }

  // ----- byte order -----

  /** The sum of the bytes at even offsets. */
  function EvenBytes(b: seq<byte>): nat {
    if |b| == 0 then 0 else if |b| == 1 then b[0] else b[0] + EvenBytes(b[2..])
  }

  lemma {:induction false} LittleIsBigTimes256(b: seq<byte>)
    ensures 256 * Sum(Big, b) == Sum(Little, b) + ONES * EvenBytes(b)
    decreases |b|
  {
    if |b| > 1 { LittleIsBigTimes256(b[2..]); }
  }

  lemma SwapFacts(w: nat)
    requires w < TWO16
    ensures Swap(w) < TWO16 && (Swap(w) == 0 <==> w == 0)
    ensures Swap(ONES - w) == ONES - Swap(w)
    ensures 256 * w == ONES * (w / 256) + Swap(w)
  {
    SwapIs(w, w / 256, w % 256);
    SwapIs(ONES - w, 255 - w / 256, 255 - w % 256);
    hide Swap;
  }

  lemma SwapIs(w: nat, h: nat, l: nat)
    requires w == 256 * h + l && h < 256 && l < 256
    ensures Swap(w) == 256 * l + h
  {
    assert w / 256 == h && w % 256 == l;
  }

  lemma RepTimes256(n: nat)
    ensures Rep(256 * n) == Swap(Rep(n))
  {
    SwapFacts(Rep(n));
    if n > 0 {
      var q := RepTells(n);
      RepIs(256 * n, 256 * q + Rep(n) / 256, Swap(Rep(n)));
    }
  }

  /** A little-endian machine computes the byte swap of what a big-endian one does, which is the
      same two bytes in memory. */
  lemma ByteOrderDoesNotMatter(b: seq<byte>)
    requires Sum(Little, b) < TWO32 && Sum(Big, b) < TWO32
    ensures Finalize(Sum(Little, b)) == Swap(Finalize(Sum(Big, b)))
  {
    LittleIsBigTimes256(b);
    SumZeroBoth(b);
    RepShifts(256 * Sum(Big, b), Sum(Little, b), EvenBytes(b));
    RepTimes256(Sum(Big, b));
    FinalizeIsComplement(Sum(Little, b));
    FinalizeIsComplement(Sum(Big, b));
    SwapFacts(Rep(Sum(Big, b)));
  }

  lemma {:induction false} SumZeroBoth(b: seq<byte>)
    ensures Sum(Little, b) == 0 <==> Sum(Big, b) == 0
    decreases |b|
  {
    if |b| > 1 { SumZeroBoth(b[2..]); }
  }

  /** The accumulator cannot wrap for headers of up to 200 bytes and 65535 bytes of data. */
  lemma AccumulatorIsWideEnough(e: Endian, headers: seq<byte>, data: seq<byte>)
    requires |headers| <= 200 && |data| <= 65535
    ensures Sum(e, headers) + Sum(e, data) < TWO32
  {
    SumBound(e, headers);
    SumBound(e, data);
  }

  // ----- headers with options -----

  /** The words a machine sees in a byte string of even length. */
  function Words(e: Endian, b: seq<byte>): (paw: seq<nat>)
    ensures |paw| == |b| / 2
    ensures forall i :: 0 <= i < |paw| ==> paw[i] == Word(e, b[2 * i], b[2 * i + 1])
  {
    seq(|b| / 2, i requires 0 <= i < |b| / 2 => Word(e, b[2 * i], b[2 * i + 1]))
  }

  /** The unrolled option words of RTNetIPv4HdrChecksum and rtNetIPv4AddTCPChecksum. */
  function OptionSum(paw: seq<nat>, n: nat): nat
    requires n <= 15 && |paw| >= 2 * n
  {
    match n
    case 6 => paw[10] + paw[11]
    case 7 => paw[10] + paw[11] + paw[12] + paw[13]
    case 8 => paw[10] + paw[11] + paw[12] + paw[13] + paw[14] + paw[15]
    case 9 => paw[10] + paw[11] + paw[12] + paw[13] + paw[14] + paw[15] + paw[16] + paw[17]
    case 10 => paw[10] + paw[11] + paw[12] + paw[13] + paw[14] + paw[15] + paw[16] + paw[17] + paw[18] + paw[19]
    case 11 => paw[10] + paw[11] + paw[12] + paw[13] + paw[14] + paw[15] + paw[16] + paw[17] + paw[18] + paw[19]
      + paw[20] + paw[21]
    case 12 => paw[10] + paw[11] + paw[12] + paw[13] + paw[14] + paw[15] + paw[16] + paw[17] + paw[18] + paw[19]
      + paw[20] + paw[21] + paw[22] + paw[23]
    case 13 => paw[10] + paw[11] + paw[12] + paw[13] + paw[14] + paw[15] + paw[16] + paw[17] + paw[18] + paw[19]
      + paw[20] + paw[21] + paw[22] + paw[23] + paw[24] + paw[25]
    case 14 => paw[10] + paw[11] + paw[12] + paw[13] + paw[14] + paw[15] + paw[16] + paw[17] + paw[18] + paw[19]
      + paw[20] + paw[21] + paw[22] + paw[23] + paw[24] + paw[25] + paw[26] + paw[27]
    case 15 => paw[10] + paw[11] + paw[12] + paw[13] + paw[14] + paw[15] + paw[16] + paw[17] + paw[18] + paw[19]
      + paw[20] + paw[21] + paw[22] + paw[23] + paw[24] + paw[25] + paw[26] + paw[27] + paw[28] + paw[29]
    case _ => 0
  }

  /** The ten fixed words but the checksum, at index skip, and the options. */
  function HeaderSum(paw: seq<nat>, n: nat, skip: nat): nat
    requires n <= 15 && |paw| >= 2 * n && |paw| >= 10 && skip < 10
  {
    paw[0] + paw[1] + paw[2] + paw[3] + paw[4] + paw[5] + paw[6] + paw[7] + paw[8] + paw[9] - paw[skip]
    + OptionSum(paw, n)
  }

  /** The loop over all words. */
  function SumWords(paw: seq<nat>): nat {
    if paw == [] then 0 else SumWords(paw[..|paw| - 1]) + paw[|paw| - 1]
  }

  lemma SumWordsTwo(paw: seq<nat>, k: nat)
    requires k + 2 <= |paw|
    ensures SumWords(paw[..k + 2]) == SumWords(paw[..k]) + paw[k] + paw[k + 1]
  {
    assert paw[..k + 2][..k + 1] == paw[..k + 1];
    assert paw[..k + 1][..k] == paw[..k];
  }

  /** The unrolled switch is the loop. */
  lemma {:induction false} UnrolledIsLoop(paw: seq<nat>, n: nat, skip: nat)
    requires 5 <= n <= 15 && |paw| >= 2 * n && skip < 10
    ensures HeaderSum(paw, n, skip) + paw[skip] == SumWords(paw[..2 * n])
    decreases n
  {
    if n == 5 {
      SumWordsTwo(paw, 0);
      SumWordsTwo(paw, 2);
      SumWordsTwo(paw, 4);
      SumWordsTwo(paw, 6);
      SumWordsTwo(paw, 8);
      assert SumWords(paw[..0]) == 0;
    } else {
      UnrolledIsLoop(paw, n - 1, skip);
      SumWordsTwo(paw, 2 * n - 2);
      OptionStep(paw, n);
    }
  }

  lemma OptionStep(paw: seq<nat>, n: nat)
    requires 6 <= n <= 15 && |paw| >= 2 * n
    ensures OptionSum(paw, n) == OptionSum(paw, n - 1) + paw[2 * n - 2] + paw[2 * n - 1]
  {
  }

  lemma {:induction false} SumIsWords(e: Endian, b: seq<byte>, n: nat)
    requires 2 * n <= |b|
    ensures Sum(e, b[..2 * n]) == SumWords(Words(e, b)[..n])
    decreases n
  {
    if n > 0 {
      SumIsWords(e, b, n - 1);
      var last := b[2 * n - 2..2 * n];
      assert b[..2 * n] == b[..2 * (n - 1)] + last;
      SumJoin(e, b[..2 * (n - 1)], last);
      assert last[2..] == [];
      assert Sum(e, last) == Word(e, b[2 * n - 2], b[2 * n - 1]);
      assert Words(e, b)[..n][..n - 1] == Words(e, b)[..n - 1];
    }
  }

  lemma {:induction false} SumWordsUpdate(paw: seq<nat>, k: nat, w: nat)
    requires k < |paw|
    ensures SumWords(paw[k := w]) == SumWords(paw) - paw[k] + w
    decreases |paw|
  {
    var n := |paw| - 1;
    if k == n {
      assert paw[k := w][..n] == paw[..n];
    } else {
      SumWordsUpdate(paw[..n], k, w);
      assert paw[k := w][..n] == paw[..n][k := w];
    }
  }

  /** The header with the word at index skip zero. */
  function Cleared(hdr: seq<byte>, skip: nat): (r: seq<byte>)
    requires |hdr| >= 20 && skip < 10
    ensures |r| == |hdr|
  {
    hdr[2 * skip := 0][2 * skip + 1 := 0]
  }

  lemma ClearedWords(e: Endian, hdr: seq<byte>, skip: nat)
    requires |hdr| >= 20 && skip < 10
    ensures Words(e, Cleared(hdr, skip)) == Words(e, hdr)[skip := 0]
  {
  }

  /** A header's sum without its checksum field is that of its bytes with the field cleared. */
  lemma HeaderSumIsSum(e: Endian, hdr: seq<byte>, n: nat, skip: nat)
    requires 5 <= n <= 15 && |hdr| >= 4 * n && skip < 10
    ensures HeaderSum(Words(e, hdr), n, skip) + Words(e, hdr)[skip] == Sum(e, hdr[..4 * n])
    ensures HeaderSum(Words(e, hdr), n, skip) == Sum(e, Cleared(hdr, skip)[..4 * n])
    ensures Sum(e, hdr[..4 * n]) < TWO32
  {
    hide OptionSum, HeaderSum, SumWords, Cleared;
    var w := Words(e, hdr);
    UnrolledIsLoop(w, n, skip);
    SumIsWords(e, hdr, 2 * n);
    SumIsWords(e, Cleared(hdr, skip), 2 * n);
    ClearedWords(e, hdr, skip);
    SumWordsUpdate(w[..2 * n], skip, 0);
    assert w[..2 * n][skip := 0] == w[skip := 0][..2 * n];
    SumBound(e, hdr[..4 * n]);
  }

  // ----- the IPv4 header -----

  // The index of ip_sum among the header's words.
  const IP_SUM: nat := 5

  function HeaderLength(hdr: seq<byte>): nat
    requires |hdr| > 0
  {
    hdr[0] % 16
  }

  /** A field in network byte order. */
  function Field(b: seq<byte>, at: nat): nat
    requires at + 1 < |b|
  {
    Word(Big, b[at], b[at + 1])
  }

  /** RTNetIPv4HdrChecksum. */
  function HdrChecksum(e: Endian, hdr: seq<byte>): nat
    requires |hdr| >= 20 && |hdr| >= 4 * HeaderLength(hdr)
  {
    Finalize(HeaderSum(Words(e, hdr), HeaderLength(hdr), IP_SUM))
  }

  /** RTNetIPv4IsHdrValid; hdr is what is mapped, cbHdrMax bytes. */
  predicate HdrValid(e: Endian, hdr: seq<byte>, cbPktMax: nat, fChecksum: bool) {
    && |hdr| >= 20
    && HeaderLength(hdr) * 4 >= 20
    && HeaderLength(hdr) * 4 <= |hdr|
    && hdr[0] / 16 == 4
    && Field(hdr, 2) <= cbPktMax
    && (fChecksum ==> Words(e, hdr)[IP_SUM] == HdrChecksum(e, hdr))
  }

  /** The other tests, in bytes: version 4 and a length of 5 to 15 words in the first one, the header
      mapped, and the packet not longer than allowed. */
  lemma HeaderTestsExactly(e: Endian, hdr: seq<byte>, cbPktMax: nat)
    ensures HdrValid(e, hdr, cbPktMax, false) <==>
      && |hdr| >= 20 && 0x45 <= hdr[0] <= 0x4f && 4 * (hdr[0] - 0x40) <= |hdr|
      && 256 * hdr[2] + hdr[3] <= cbPktMax
  {
  }

  /** The header with a word stored at an index, in the machine's byte order. */
  function Stored(e: Endian, hdr: seq<byte>, at: nat, w: nat): (r: seq<byte>)
    requires 2 * at + 1 < |hdr| && w < TWO16
    ensures |r| == |hdr|
  {
    if e.Little? then hdr[2 * at := w % 256][2 * at + 1 := w / 256] else hdr[2 * at := w / 256][2 * at + 1 := w % 256]
  }

  lemma StoredWords(e: Endian, hdr: seq<byte>, at: nat, w: nat)
    requires |hdr| >= 20 && at < 10 && w < TWO16
    ensures Words(e, Stored(e, hdr, at, w))[at] == w
    ensures Cleared(Stored(e, hdr, at, w), at) == Cleared(hdr, at)
    ensures at > 0 ==> Stored(e, hdr, at, w)[0] == hdr[0]
    ensures at > 1 ==> Stored(e, hdr, at, w)[2] == hdr[2] && Stored(e, hdr, at, w)[3] == hdr[3]
  {
  }

  /** The header with its own checksum in it. */
  function Stamped(e: Endian, hdr: seq<byte>): seq<byte>
    requires |hdr| >= 20 && |hdr| >= 4 * HeaderLength(hdr) >= 20
  {
    FinalizeFits(HeaderSum(Words(e, hdr), HeaderLength(hdr), IP_SUM));
    Stored(e, hdr, IP_SUM, HdrChecksum(e, hdr))
  }

  lemma FinalizeFits(u: nat)
    ensures 0 <= Finalize(u) < TWO16
  {
  }

  /** Adding the checksum of a sum that is not zero gives all ones, as the receiver of section 1
      of RFC 1071 wants. */
  lemma ChecksumCompletes(s: nat)
    requires 0 < s < TWO32
    ensures Rep(s + Finalize(s)) == ONES
  {
  }

  /** Stamping makes the checksum test pass and leaves the other tests as they were. */
  lemma StampedIsValid(e: Endian, hdr: seq<byte>, cbPktMax: nat)
    requires |hdr| >= 20 && |hdr| >= 4 * HeaderLength(hdr) >= 20
    ensures HdrValid(e, Stamped(e, hdr), cbPktMax, true) <==> HdrValid(e, hdr, cbPktMax, false)
  {
    var st := Stamped(e, hdr);
    FinalizeFits(HeaderSum(Words(e, hdr), HeaderLength(hdr), IP_SUM));
    StoredWords(e, hdr, IP_SUM, HdrChecksum(e, hdr));
    HeaderSumIsSum(e, hdr, HeaderLength(hdr), IP_SUM);
    HeaderSumIsSum(e, st, HeaderLength(hdr), IP_SUM);
    hide Finalize, Words, HeaderSum, Stored, Cleared;
  }

  /** And the whole stamped header sums to all ones. */
  lemma StampedSumsToOnes(e: Endian, hdr: seq<byte>)
    requires |hdr| >= 20 && |hdr| >= 4 * HeaderLength(hdr) >= 20
    ensures |Stamped(e, hdr)| == |hdr| && Rep(Sum(e, Stamped(e, hdr)[..4 * HeaderLength(hdr)])) == ONES
  {
    hide Stamped, Rep, Sum, HeaderLength;
    var s := StampedSum(e, hdr);
    ChecksumCompletes(s);
  }

  lemma StampedSum(e: Endian, hdr: seq<byte>) returns (s: nat)
    requires |hdr| >= 20 && |hdr| >= 4 * HeaderLength(hdr) >= 20
    ensures 0 < s < TWO32 && |Stamped(e, hdr)| == |hdr|
    ensures Sum(e, Stamped(e, hdr)[..4 * HeaderLength(hdr)]) == s + Finalize(s)
  {
    hide Finalize, Words, HeaderSum, Stored, Cleared, Sum;
    var st := Stamped(e, hdr);
    var n := HeaderLength(hdr);
    s := HeaderSum(Words(e, hdr), n, IP_SUM);
    FinalizeFits(s);
    StoredWords(e, hdr, IP_SUM, HdrChecksum(e, hdr));
    HeaderSumIsSum(e, hdr, n, IP_SUM);
    HeaderSumIsSum(e, st, n, IP_SUM);
    HeaderNotZero(e, hdr, n);
  }

  /** The first byte, with a length of at least five, keeps a header's sum from being zero. */
  lemma HeaderNotZero(e: Endian, hdr: seq<byte>, n: nat)
    requires n <= 15 && |hdr| >= 20 && |hdr| >= 4 * n && hdr[0] > 0
    ensures HeaderSum(Words(e, hdr), n, IP_SUM) > 0
  {
  }

  /** A field is the checksum of the rest exactly when everything sums to all ones, but for one form:
      all ones in the field where the checksum is zero. */
  lemma CompletesExactly(s: nat, c: nat)
    requires 0 < s < TWO32 && c < TWO16
    ensures c == Finalize(s) <==> Rep(s + c) == ONES && !(c == ONES && Finalize(s) == 0)
  {
  }

  /** So the checksum test accepts what the receiver's rule accepts, but for that form. */
  lemma ChecksumTestExactly(e: Endian, hdr: seq<byte>, cbPktMax: nat)
    requires HdrValid(e, hdr, cbPktMax, false)
    ensures var n := HeaderLength(hdr);
      HdrValid(e, hdr, cbPktMax, true) <==>
        Rep(Sum(e, hdr[..4 * n])) == ONES && !(Words(e, hdr)[IP_SUM] == ONES && HdrChecksum(e, hdr) == 0)
  {
    hide Finalize, HeaderSum, Sum, Rep;
    var n := HeaderLength(hdr);
    HeaderSumIsSum(e, hdr, n, IP_SUM);
    HeaderNotZero(e, hdr, n);
    CompletesExactly(HeaderSum(Words(e, hdr), n, IP_SUM), Words(e, hdr)[IP_SUM]);
  }

  /** A header of that form: twenty bytes that sum to all ones, all ones in ip_sum, and refused. */
  function RefusedHeader(): (hdr: seq<byte>)
    ensures |hdr| == 20
  {
    [0x45, 0, 0, 20, 0xba, 0xeb, 0, 0, 0, 0, 0xff, 0xff, 0, 0, 0, 0, 0, 0, 0, 0]
  }

  lemma RefusedExample(e: Endian)
    ensures var hdr := RefusedHeader();
      && HdrValid(e, hdr, 20, false) && Rep(Sum(e, hdr)) == ONES && Words(e, hdr)[IP_SUM] == ONES
      && !HdrValid(e, hdr, 20, true)
  {
    var hdr := RefusedHeader();
    hide Words, Sum, Rep, Finalize, HeaderSum;
    RefusedWords(e);
    assert HdrValid(e, hdr, 20, false) && HeaderLength(hdr) == 5;
    hide RefusedHeader, HdrValid;
    HeaderSumIsSum(e, hdr, 5, IP_SUM);
    assert hdr[..20] == hdr;
    AllOnesFold();
    ChecksumTestExactly(e, hdr, 20);
  }

  lemma RefusedWords(e: Endian)
    ensures var w := Words(e, RefusedHeader());
      HeaderSum(w, 5, IP_SUM) == ONES && w[IP_SUM] == ONES
  {
    var hdr := RefusedHeader();
    var w := Words(e, hdr);
    assert w[0] == Word(e, hdr[0], hdr[1]) && w[1] == Word(e, hdr[2], hdr[3]) && w[2] == Word(e, hdr[4], hdr[5]);
    assert w[0] + w[1] + w[2] == ONES && w[5] == Word(e, 0xff, 0xff) == ONES;
    WordZeros(e);
    hide Words, Word;
    assert w[3] == 0 && w[4] == 0 && w[6] == 0 && w[7] == 0 && w[8] == 0 && w[9] == 0;
  }

  lemma WordZeros(e: Endian)
    ensures Word(e, 0, 0) == 0
  {
  }

  lemma AllOnesFold()
    ensures Finalize(ONES) == 0 && Rep(2 * ONES) == ONES
  {
  }
}
