/** The internet checksum of common/checksum/ipv4.c and ipv6.c (RFC 1071): 16-bit words added up in
    memory order, on machines of either byte order, and folded at the end. */
module Checksum {
  const TWO16: nat := 0x1_0000
  const TWO32: nat := 0x1_0000_0000
  // Ones' complement arithmetic is arithmetic modulo this.
  const ONES: nat := 0xffff

  type byte = b: nat | b < 256

  datatype Endian = Little | Big

  /** The 16-bit word the machine reads from two bytes in memory. */
  function Word(e: Endian, b0: byte, b1: byte): (w: nat)
    ensures w < TWO16
  {
    if e.Little? then b0 + 256 * b1 else 256 * b0 + b1
  }

  function Swap(w: nat): nat {
    256 * (w % 256) + w / 256 % 256
  }

  /** RT_H2BE_U16 and RT_BE2H_U16. */
  function H2BE(e: Endian, w: nat): nat {
    if e.Little? then Swap(w) else w
  }

  // ----- the sum of a byte string -----

  /** The sum of all words, an odd last byte padded with a zero (section 1 of RFC 1071). */
  function Sum(e: Endian, b: seq<byte>): nat {
    if |b| == 0 then 0
    else if |b| == 1 then Word(e, b[0], 0)
    else Word(e, b[0], b[1]) + Sum(e, b[2..])
  }

  /** The same when the string follows an odd number of bytes: its first byte completes a word. */
  function SumFrom(e: Endian, fOdd: bool, b: seq<byte>): nat {
    if fOdd && |b| > 0 then Word(e, 0, b[0]) + Sum(e, b[1..]) else Sum(e, b)
  }

  predicate Odd(n: nat) {
    n % 2 == 1
  }

  lemma {:induction false} SumJoin(e: Endian, a: seq<byte>, b: seq<byte>)
    ensures Sum(e, a + b) == Sum(e, a) + SumFrom(e, Odd(|a|), b)
    decreases |a|
  {
    if |a| == 0 {
      assert a + b == b;
    } else if |a| == 1 {
      if |b| > 0 {
        assert (a + b)[2..] == b[1..];
      } else {
        assert a + b == a;
      }
    } else {
      SumJoin(e, a[2..], b);
      assert (a + b)[2..] == a[2..] + b;
      assert Odd(|a[2..]|) == Odd(|a|);
    }
  }

  lemma SumFromJoin(e: Endian, fOdd: bool, a: seq<byte>, b: seq<byte>)
    ensures SumFrom(e, fOdd, a + b) == SumFrom(e, fOdd, a) + SumFrom(e, fOdd != Odd(|a|), b)
  {
    if fOdd && |a| > 0 {
      SumJoin(e, a[1..], b);
      assert (a + b)[1..] == a[1..] + b;
      assert Odd(|a[1..]|) != Odd(|a|);
    } else if fOdd {
      assert a + b == b;
    } else {
      SumJoin(e, a, b);
    }
  }

  lemma {:induction false} SumBound(e: Endian, b: seq<byte>)
    ensures Sum(e, b) <= ONES * ((|b| + 1) / 2)
    decreases |b|
  {
    if |b| > 1 { SumBound(e, b[2..]); }
  }

  // ----- adding a data segment -----

  /** What the odd flag should be after a segment, and what the code leaves in it: a one-byte
      segment that completes a word leaves it set. */
  function FlagAfter(fOdd: bool, n: nat): bool {
    if fOdd && n == 1 then true else fOdd != Odd(n)
  }

  lemma FlagRightExactly(fOdd: bool, n: nat)
    ensures FlagAfter(fOdd, n) == (fOdd != Odd(n)) <==> !(fOdd && n == 1)
  {
  }

  /** What a 32-bit variable keeps. */
  function Wrapped(n: nat): nat {
    n % TWO32
  }

  /** rtNetIPv4AddDataChecksum. A segment for an odd pending byte must not be empty: the code takes
      its first byte without a look at the size. */
  method AddDataChecksum(e: Endian, data: seq<byte>, u32Sum: nat, fOdd: bool) returns (sum: nat, fOdd': bool)
    requires u32Sum < TWO32 && (fOdd ==> data != [])
    ensures sum == Wrapped(u32Sum + SumFrom(e, fOdd, data))
    ensures fOdd' == FlagAfter(fOdd, |data|)
  {
    hide *;
    ghost var total: nat := u32Sum;
    Fits(u32Sum);
    sum := u32Sum;
    var cbData, k := |data|, 0;
    FirstByte(e, fOdd, data);
    FlagSteps(fOdd, |data|, |data|);
    if fOdd {
      Wrap(total, Word(e, 0, data[0]));
      total := total + Word(e, 0, data[0]);
      sum := Wrapped(sum + Word(e, 0, data[0]));
      cbData := cbData - 1;
      if cbData == 0 {
        return sum, true;
      }
      k := 1;
    }
    ghost var whole := total + Sum(e, data[k..]);
    while cbData > 1
      invariant cbData == |data| - k && 0 <= k <= |data|
      invariant total + Sum(e, data[k..]) == whole && sum == Wrapped(total)
      invariant FlagPending(fOdd, |data|, cbData)
    {
      Wrap(total, Word(e, data[k], data[k + 1]));
      FlagSteps(fOdd, |data|, cbData);
      NextWord(e, data, k);
      total := total + Word(e, data[k], data[k + 1]);
      sum := Wrapped(sum + Word(e, data[k], data[k + 1]));
      k := k + 2;
      cbData := cbData - 2;
    }
    LastByte(e, data, k);
    FlagSteps(fOdd, |data|, cbData);
    if cbData > 0 {
      Wrap(total, Word(e, data[k], 0));
      sum := Wrapped(sum + Word(e, data[k], 0));
      fOdd' := true;
    } else {
      fOdd' := false;
    }
  }

  lemma FirstByte(e: Endian, fOdd: bool, data: seq<byte>)
    ensures fOdd && data != [] ==> SumFrom(e, fOdd, data) == Word(e, 0, data[0]) + Sum(e, data[1..])
    ensures fOdd && |data| == 1 ==> Sum(e, data[1..]) == 0 && FlagAfter(fOdd, 1)
    ensures !fOdd ==> SumFrom(e, fOdd, data) == Sum(e, data[0..])
  {
    assert data[0..] == data;
  }

  lemma NextWord(e: Endian, data: seq<byte>, k: nat)
    requires k + 2 <= |data|
    ensures Sum(e, data[k..]) == Word(e, data[k], data[k + 1]) + Sum(e, data[k + 2..])
  {
    assert data[k..][2..] == data[k + 2..];
  }

  lemma LastByte(e: Endian, data: seq<byte>, k: nat)
    requires k <= |data| <= k + 1
    ensures Sum(e, data[k..]) == if k < |data| then Word(e, data[k], 0) else 0
  {
  }

  /** With n - cbData of n bytes done, the flag will be right if the rest tells it. */
  ghost predicate FlagPending(fOdd: bool, n: nat, cbData: nat) {
    Odd(cbData) == (fOdd != Odd(n)) && !(fOdd && n == 1)
  }

  lemma FlagSteps(fOdd: bool, n: nat, cbData: nat)
    ensures !fOdd ==> FlagPending(fOdd, n, n)
    ensures fOdd && n >= 2 ==> FlagPending(fOdd, n, n - 1)
    ensures FlagPending(fOdd, n, cbData) && cbData >= 2 ==> FlagPending(fOdd, n, cbData - 2)
    ensures FlagPending(fOdd, n, cbData) && cbData <= 1 ==> FlagAfter(fOdd, n) == (cbData == 1)
  {
  }

  lemma Fits(n: nat)
    requires n < TWO32
    ensures Wrapped(n) == n < TWO32
  {
  }

  lemma Wrap(total: nat, w: nat)
    ensures Wrapped(Wrapped(total) + w) == Wrapped(total + w) < TWO32
  {
  }

  // ----- segments -----

  function Joined(segs: seq<seq<byte>>): seq<byte>
    decreases |segs|
  {
    if segs == [] then [] else segs[0] + Joined(segs[1..])
  }

  /** The sum of one AddDataChecksum after another, before the 32-bit wrap. */
  function SegmentSum(e: Endian, fOdd: bool, segs: seq<seq<byte>>): nat
    decreases |segs|
  {
    if segs == [] then 0
    else SumFrom(e, fOdd, segs[0]) + SegmentSum(e, FlagAfter(fOdd, |segs[0]|), segs[1..])
  }

  /** A split the code gets right: no segment is empty while an odd byte is pending, and a segment of
      one byte that completes a word is the last one. */
  predicate SplitOk(fOdd: bool, sizes: seq<nat>)
    decreases |sizes|
  {
    sizes == [] ||
    (if fOdd && sizes[0] <= 1 then sizes == [1] else SplitOk(fOdd != Odd(sizes[0]), sizes[1..]))
  }

  /** No call gets an empty segment when its odd flag is set; the code would read a byte it was not
      given. */
  predicate Callable(fOdd: bool, sizes: seq<nat>)
    decreases |sizes|
  {
    sizes == [] || (!(fOdd && sizes[0] == 0) && Callable(FlagAfter(fOdd, sizes[0]), sizes[1..]))
  }

  function Sizes(segs: seq<seq<byte>>): (r: seq<nat>)
    ensures |r| == |segs| && forall i :: 0 <= i < |segs| ==> r[i] == |segs[i]|
    decreases |segs|
  {
    if segs == [] then [] else [|segs[0]|] + Sizes(segs[1..])
  }

  /** Segment by segment gives the sum of the whole, for every good split. */
  lemma {:induction false} SegmentsAreTheWhole(e: Endian, fOdd: bool, segs: seq<seq<byte>>)
    requires SplitOk(fOdd, Sizes(segs))
    ensures SegmentSum(e, fOdd, segs) == SumFrom(e, fOdd, Joined(segs)) && Callable(fOdd, Sizes(segs))
    decreases |segs|
  {
    if segs != [] {
      SumFromJoin(e, fOdd, segs[0], Joined(segs[1..]));
      assert Sizes(segs)[1..] == Sizes(segs[1..]);
      if fOdd && |segs[0]| <= 1 {
        assert segs[1..] == [] && Sizes(segs)[1..] == [];
      } else {
        SegmentsAreTheWhole(e, fOdd != Odd(|segs[0]|), segs[1..]);
      }
    }
  }

  function Zeros(n: nat): (z: seq<byte>)
    ensures |z| == n && forall i :: 0 <= i < n ==> z[i] == 0
  {
    seq(n, _ => 0)
  }

  function ZeroSegments(sizes: seq<nat>): (segs: seq<seq<byte>>)
    ensures Sizes(segs) == sizes
  {
    if sizes == [] then [] else
    var rest := ZeroSegments(sizes[1..]);
    var segs := [Zeros(sizes[0])] + rest;
    assert segs[1..] == rest;
    segs
  }

  lemma {:induction false} SumZeros(e: Endian, fOdd: bool, n: nat)
    ensures SumFrom(e, fOdd, Zeros(n)) == 0
    decreases n
  {
    if fOdd && n > 0 {
      SumZeros(e, false, n - 1);
      assert Zeros(n)[1..] == Zeros(n - 1);
    } else if n > 1 {
      SumZeros(e, false, n - 2);
      assert Zeros(n)[2..] == Zeros(n - 2);
    }
  }

  lemma {:induction false} SumZeroSegments(e: Endian, f: bool, g: bool, sizes: seq<nat>)
    ensures SegmentSum(e, f, ZeroSegments(sizes)) == 0 == SumFrom(e, g, Joined(ZeroSegments(sizes)))
    decreases |sizes|
  {
    if sizes != [] {
      var segs := ZeroSegments(sizes);
      assert segs[0] == Zeros(sizes[0]) && segs[1..] == ZeroSegments(sizes[1..]);
      SumZeroSegments(e, FlagAfter(f, sizes[0]), g != Odd(sizes[0]), sizes[1..]);
      SumZeros(e, f, sizes[0]);
      SumZeros(e, g, sizes[0]);
      SumFromJoin(e, g, segs[0], Joined(segs[1..]));
    }
  }

  /** And every other split that can be called is wrong for some data. */
  lemma {:induction false} BadSplitFails(e: Endian, fOdd: bool, sizes: seq<nat>) returns (segs: seq<seq<byte>>)
    requires !SplitOk(fOdd, sizes) && Callable(fOdd, sizes)
    ensures Sizes(segs) == sizes && SegmentSum(e, fOdd, segs) != SumFrom(e, fOdd, Joined(segs))
    decreases |sizes|
  {
    hide SumFrom;
    var rest: seq<seq<byte>>;
    if fOdd && sizes[0] == 1 {
      rest := WrongLane(e, sizes[1..]);
    } else {
      rest := BadSplitFails(e, fOdd != Odd(sizes[0]), sizes[1..]);
    }
    segs := [Zeros(sizes[0])] + rest;
    assert segs[0] == Zeros(sizes[0]) && segs[1..] == rest;
    assert Sizes(segs) == [sizes[0]] + Sizes(rest) == sizes;
    SumZeros(e, fOdd, sizes[0]);
    SumFromJoin(e, fOdd, segs[0], Joined(rest));
  }

  /** With the flag left set, a one at an even place counts as one at an odd place. */
  lemma WrongLane(e: Endian, sizes: seq<nat>) returns (segs: seq<seq<byte>>)
    requires |sizes| > 0 && sizes[0] > 0
    ensures Sizes(segs) == sizes && SegmentSum(e, true, segs) != SumFrom(e, false, Joined(segs))
  {
    var one: seq<byte> := [1] + Zeros(sizes[0] - 1);
    var tail := ZeroSegments(sizes[1..]);
    segs := [one] + tail;
    assert segs[0] == one && segs[1..] == tail;
    OneThenZeros(e, sizes[0]);
    SumZeroSegments(e, FlagAfter(true, sizes[0]), false != Odd(sizes[0]), sizes[1..]);
    SumFromJoin(e, false, one, Joined(tail));
  }

  lemma OneThenZeros(e: Endian, n: nat)
    requires n > 0
    ensures var one: seq<byte> := [1] + Zeros(n - 1);
      SumFrom(e, true, one) == Word(e, 0, 1) && SumFrom(e, false, one) == Word(e, 1, 0)
  {
    var one: seq<byte> := [1] + Zeros(n - 1);
    assert one[1..] == Zeros(n - 1);
    SumZeros(e, false, n - 1);
    if n > 1 {
      assert one[2..] == Zeros(n - 2);
      SumZeros(e, false, n - 2);
    }
  }

  /** Whatever the data, segments of these sizes add up to the sum of the whole. */
  ghost predicate AlwaysWhole(e: Endian, fOdd: bool, sizes: seq<nat>) {
    forall segs :: Sizes(segs) == sizes ==> SegmentSum(e, fOdd, segs) == SumFrom(e, fOdd, Joined(segs))
  }

  /** The code reads no more than it was given, and adds up the whole for all data, exactly when the
      split is good. */
  lemma SplitRightExactly(e: Endian, fOdd: bool, sizes: seq<nat>)
    ensures SplitOk(fOdd, sizes) <==> Callable(fOdd, sizes) && AlwaysWhole(e, fOdd, sizes)
  {
    if SplitOk(fOdd, sizes) {
      SegmentsAreTheWhole(e, fOdd, ZeroSegments(sizes));
      forall segs | Sizes(segs) == sizes ensures SegmentSum(e, fOdd, segs) == SumFrom(e, fOdd, Joined(segs)) {
        SegmentsAreTheWhole(e, fOdd, segs);
      }
    } else if Callable(fOdd, sizes) {
      var segs := BadSplitFails(e, fOdd, sizes);
      assert Sizes(segs) == sizes;
    }
  }

  /** Data handed over in pieces, the odd flag carried from call to call: for every good split the
      result is the sum of the whole data, and behind up to 200 bytes of headers it does not wrap. */
  method AddSegments(e: Endian, segs: seq<seq<byte>>, u32Sum: nat) returns (sum: nat)
    requires u32Sum < TWO32 && SplitOk(false, Sizes(segs))
    ensures sum == Wrapped(u32Sum + Sum(e, Joined(segs)))
    ensures u32Sum <= 100 * ONES && |Joined(segs)| <= 65535 ==> sum == u32Sum + Sum(e, Joined(segs))
  {
    hide *;
    sum := u32Sum;
    var fOdd, i := false, 0;
    ghost var total: nat := u32Sum;
    Fits(u32Sum);
    AddedNone(e, segs, u32Sum);
    while i < |segs|
      invariant 0 <= i <= |segs| && sum == Wrapped(total) && sum < TWO32
      invariant Added(e, segs, i, u32Sum, total, fOdd)
    {
      AddedOneMore(e, segs, i, u32Sum, total, fOdd);
      Wrap(total, SumFrom(e, fOdd, segs[i]));
      total := total + SumFrom(e, fOdd, segs[i]);
      sum, fOdd := AddDataChecksum(e, segs[i], sum, fOdd);
      i := i + 1;
    }
    AddedAll(e, segs, u32Sum, total, fOdd);
  }

  /** The first i segments are in the total; fOdd is the flag they left. */
  ghost predicate Added(e: Endian, segs: seq<seq<byte>>, i: nat, u32Sum: nat, total: nat, fOdd: bool)
    requires i <= |segs|
  {
    && total + SegmentSum(e, fOdd, segs[i..]) == u32Sum + Sum(e, Joined(segs))
    && Callable(fOdd, Sizes(segs[i..]))
  }

  lemma AddedNone(e: Endian, segs: seq<seq<byte>>, u32Sum: nat)
    requires SplitOk(false, Sizes(segs))
    ensures Added(e, segs, 0, u32Sum, u32Sum, false)
  {
    SegmentsAreTheWhole(e, false, segs);
    hide Sum, SegmentSum, Joined, Callable;
    assert segs[0..] == segs;
  }

  lemma AddedOneMore(e: Endian, segs: seq<seq<byte>>, i: nat, u32Sum: nat, total: nat, fOdd: bool)
    requires i < |segs| && Added(e, segs, i, u32Sum, total, fOdd)
    ensures fOdd ==> segs[i] != []
    ensures Added(e, segs, i + 1, u32Sum, total + SumFrom(e, fOdd, segs[i]), FlagAfter(fOdd, |segs[i]|))
  {
    assert segs[i..][0] == segs[i] && segs[i..][1..] == segs[i + 1..];
    assert Sizes(segs[i..])[1..] == Sizes(segs[i + 1..]);
    hide SumFrom, Joined, Sum, FlagAfter;
  }

  lemma AddedAll(e: Endian, segs: seq<seq<byte>>, u32Sum: nat, total: nat, fOdd: bool)
    requires Added(e, segs, |segs|, u32Sum, total, fOdd)
    ensures total == u32Sum + Sum(e, Joined(segs))
    ensures u32Sum <= 100 * ONES && |Joined(segs)| <= 65535 ==> Wrapped(total) == total
  {
    SumBound(e, Joined(segs));
    hide Sum, Joined;
    assert segs[|segs|..] == [];
  }
}
