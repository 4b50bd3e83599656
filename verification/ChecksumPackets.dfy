/** Pseudo headers and the UDP and TCP checksums of common/checksum/ipv4.c and ipv6.c. */
module ChecksumPackets {
  import opened Checksum
  import opened ChecksumHeaders

  // The indexes of the checksum among the words of a TCP header, and of a UDP header.
  const TH_SUM: nat := 8
  const UH_SUM: nat := 3

  // ----- pseudo headers -----

  /** The IPv4 pseudo header of RFC 793, section 3.1: addresses, zero, protocol, length. */
  function Pseudo4Bytes(src: seq<byte>, dst: seq<byte>, bProtocol: byte, cb: nat): (b: seq<byte>)
    requires |src| == 4 && |dst| == 4 && cb < TWO16
    ensures |b| == 12
  {
    src + dst + [0, bProtocol, cb / 256, cb % 256]
  }

  /** What the code adds for the protocol byte of IPv4. */
  function ProtocolWord(e: Endian, bProtocol: byte): nat {
    if e.Little? then Shl8(bProtocol) else bProtocol
  }

  function Shl8(b: byte): nat {
    var n: nat := b;
    n * 256
  }

  /** rtNetIPv4PseudoChecksum, from the header's own fields. */
  function Pseudo4(e: Endian, hdr: seq<byte>): nat
    requires |hdr| >= 20
  {
    var w := Words(e, hdr);
    var cbPayload := (Field(hdr, 2) - HeaderLength(hdr) * 4) % TWO16;
    w[6] + w[7] + w[8] + w[9] + ProtocolWord(e, hdr[9]) + H2BE(e, cbPayload)
  }

  /** The two halves of a 32-bit address in memory, RTNETADDRIPV4's au16[0] and au16[1]. */
  function Half(e: Endian, addr: nat, i: nat): nat {
    if (i == 0) == e.Little? then addr % TWO16 else addr / TWO16 % TWO16
  }

  /** RTNetIPv4PseudoChecksumBits, from addresses in host byte order. */
  function Pseudo4Bits(e: Endian, srcAddr: nat, dstAddr: nat, bProtocol: byte, cbPkt: nat): nat {
    H2BE(e, Half(e, srcAddr, 0)) + H2BE(e, Half(e, srcAddr, 1))
    + H2BE(e, Half(e, dstAddr, 0)) + H2BE(e, Half(e, dstAddr, 1))
    + ProtocolWord(e, bProtocol) + H2BE(e, cbPkt)
  }

  /** An address in host byte order, from its bytes on the wire. */
  function HostAddr(a: seq<byte>): nat
    requires |a| == 4
  {
    Word(Big, a[0], a[1]) * TWO16 + Word(Big, a[2], a[3])
  }

  lemma H2BEIsBytes(e: Endian, n: nat)
    requires n < TWO16
    ensures 0 <= n / 256 < 256 && H2BE(e, n) == Word(e, n / 256, n % 256)
  {
  }

  lemma H2BEOfField(e: Endian, b0: byte, b1: byte)
    ensures H2BE(e, Word(Big, b0, b1)) == Word(e, b0, b1)
  {
  }

  lemma Sum4(e: Endian, b: seq<byte>)
    requires |b| == 4
    ensures Sum(e, b) == Word(e, b[0], b[1]) + Word(e, b[2], b[3])
  {
    assert b[2..][2..] == [];
    assert Sum(e, b[2..]) == Word(e, b[2], b[3]);
  }

  lemma Pseudo4BytesSum(e: Endian, src: seq<byte>, dst: seq<byte>, bProtocol: byte, cb: nat)
    requires |src| == 4 && |dst| == 4 && cb < TWO16
    ensures Sum(e, Pseudo4Bytes(src, dst, bProtocol, cb)) ==
      Word(e, src[0], src[1]) + Word(e, src[2], src[3]) + Word(e, dst[0], dst[1]) + Word(e, dst[2], dst[3])
      + ProtocolWord(e, bProtocol) + H2BE(e, cb)
  {
    var tail: seq<byte> := [0, bProtocol, cb / 256, cb % 256];
    H2BEIsBytes(e, cb);
    SumJoin(e, src + dst, tail);
    SumJoin(e, src, dst);
    Sum4(e, src);
    Sum4(e, dst);
    Sum4(e, tail);
    assert !Odd(|src|) && !Odd(|src + dst|);
  }

  /** The pseudo header taken from an IPv4 header sums up the bytes RFC 793 asks for. */
  lemma Pseudo4IsPseudoHeader(e: Endian, hdr: seq<byte>)
    requires |hdr| >= 20
    ensures Pseudo4(e, hdr) ==
      Sum(e, Pseudo4Bytes(hdr[12..16], hdr[16..20], hdr[9], (Field(hdr, 2) - HeaderLength(hdr) * 4) % TWO16))
  {
    Pseudo4BytesSum(e, hdr[12..16], hdr[16..20], hdr[9], (Field(hdr, 2) - HeaderLength(hdr) * 4) % TWO16);
  }

  /** And so does the one made from its components, whatever order the halves are added in. */
  lemma Pseudo4BitsIsPseudoHeader(e: Endian, src: seq<byte>, dst: seq<byte>, bProtocol: byte, cb: nat)
    requires |src| == 4 && |dst| == 4 && cb < TWO16
    ensures Pseudo4Bits(e, HostAddr(src), HostAddr(dst), bProtocol, cb) == Sum(e, Pseudo4Bytes(src, dst, bProtocol, cb))
  {
    Pseudo4BytesSum(e, src, dst, bProtocol, cb);
    HalvesAre(e, src);
    HalvesAre(e, dst);
  }

  lemma HalvesAre(e: Endian, a: seq<byte>)
    requires |a| == 4
    ensures H2BE(e, Half(e, HostAddr(a), 0)) + H2BE(e, Half(e, HostAddr(a), 1))
      == Word(e, a[0], a[1]) + Word(e, a[2], a[3])
  {
    var hi, lo := Word(Big, a[0], a[1]), Word(Big, a[2], a[3]);
    assert HostAddr(a) % TWO16 == lo && HostAddr(a) / TWO16 % TWO16 == hi;
    H2BEOfField(e, a[0], a[1]);
    H2BEOfField(e, a[2], a[3]);
  }

  /** The IPv6 pseudo header of RFC 2460, section 8.1: addresses, a 32-bit length, zeros, next header. */
  function Pseudo6Bytes(src: seq<byte>, dst: seq<byte>, bProtocol: byte, cb: nat): (b: seq<byte>)
    requires |src| == 16 && |dst| == 16 && cb < TWO32
    ensures |b| == 40
  {
    src + dst + ([cb / TWO16 / 256, cb / TWO16 % 256, cb % TWO16 / 256, cb % TWO16 % 256] + [0, 0, 0, bProtocol])
  }

  /** rtNetIPv6PseudoChecksumBits. RT_MAKE_U16(0, bProtocol) has the protocol in the high byte. */
  function Pseudo6(e: Endian, src: seq<byte>, dst: seq<byte>, bProtocol: byte, cb: nat): nat
    requires |src| == 16 && |dst| == 16
  {
    var s, d := Words(e, src), Words(e, dst);
    s[0] + s[1] + s[2] + s[3] + s[4] + s[5] + s[6] + s[7] + d[0] + d[1] + d[2] + d[3] + d[4] + d[5] + d[6] + d[7]
    + H2BE(e, cb / TWO16 % TWO16) + H2BE(e, cb % TWO16) + 0 + H2BE(e, Shl8(bProtocol))
  }

  lemma Sum16Bytes(e: Endian, b: seq<byte>)
    requires |b| == 16
    ensures var w := Words(e, b);
      Sum(e, b) == w[0] + w[1] + w[2] + w[3] + w[4] + w[5] + w[6] + w[7]
  {
    var w := Words(e, b);
    SumIsWords(e, b, 8);
    assert b[..16] == b && w[..8] == w;
    SumWordsTwo(w, 0);
    SumWordsTwo(w, 2);
    SumWordsTwo(w, 4);
    SumWordsTwo(w, 6);
    assert SumWords(w[..0]) == 0;
  }

  lemma Pseudo6BytesSum(e: Endian, src: seq<byte>, dst: seq<byte>, len: seq<byte>, last: seq<byte>)
    requires |src| == 16 && |dst| == 16 && |len| == 4 && |last| == 4
    ensures Sum(e, src + dst + (len + last)) == Sum(e, src) + Sum(e, dst)
      + Word(e, len[0], len[1]) + Word(e, len[2], len[3]) + Word(e, last[0], last[1]) + Word(e, last[2], last[3])
  {
    hide Word;
    SumJoin(e, src + dst, len + last);
    SumJoin(e, src, dst);
    SumJoin(e, len, last);
    Sum4(e, len);
    Sum4(e, last);
    assert !Odd(|src|) && !Odd(|src + dst|) && !Odd(|len|);
  }

  /** The IPv6 sum has the protocol number in the wrong byte of its word. */
  lemma Pseudo6Offset(e: Endian, src: seq<byte>, dst: seq<byte>, bProtocol: byte, cb: nat)
    requires |src| == 16 && |dst| == 16 && cb < TWO32
    ensures Pseudo6(e, src, dst, bProtocol, cb) + Word(e, 0, bProtocol)
         == Sum(e, Pseudo6Bytes(src, dst, bProtocol, cb)) + Word(e, bProtocol, 0)
  {
    hide H2BE, Word, Sum, Words;
    H2BEIsBytes(e, cb / TWO16);
    H2BEIsBytes(e, cb % TWO16);
    H2BEOfProtocol(e, bProtocol);
    Sum16Bytes(e, src);
    Sum16Bytes(e, dst);
    WordZeros(e);
    assert cb / TWO16 % TWO16 == cb / TWO16;
    Pseudo6BytesSum(e, src, dst,
        [cb / TWO16 / 256, cb / TWO16 % 256, cb % TWO16 / 256, cb % TWO16 % 256],
        [0, 0, 0, bProtocol]);
  }

  lemma H2BEOfProtocol(e: Endian, bProtocol: byte)
    ensures H2BE(e, Shl8(bProtocol)) == Word(e, bProtocol, 0)
  {
  }

  /** So a checksum made from it, over any further words, is right exactly for protocol number 0. */
  lemma Pseudo6RightExactly(e: Endian, src: seq<byte>, dst: seq<byte>, bProtocol: byte, cb: nat, rest: nat)
    requires |src| == 16 && |dst| == 16 && cb < TWO32
    requires Pseudo6(e, src, dst, bProtocol, cb) + rest < TWO32
    requires Sum(e, Pseudo6Bytes(src, dst, bProtocol, cb)) + rest < TWO32
    ensures Finalize(Pseudo6(e, src, dst, bProtocol, cb) + rest)
      == Finalize(Sum(e, Pseudo6Bytes(src, dst, bProtocol, cb)) + rest)
      <==> bProtocol == 0
  {
    hide Pseudo6, Sum, Pseudo6Bytes, Finalize, Rep;
    Pseudo6Offset(e, src, dst, bProtocol, cb);
    var a, b := Pseudo6(e, src, dst, bProtocol, cb) + rest, Sum(e, Pseudo6Bytes(src, dst, bProtocol, cb)) + rest;
    FinalizeIsComplement(a);
    FinalizeIsComplement(b);
    if bProtocol != 0 {
      var p: nat := bProtocol;
      assert a == b + 255 * p || b == a + 255 * p;
      CloseSumsDiffer(if a < b then a else b, 255 * p);
    }
  }

  /** Sums that differ by less than 0xffff are different in ones' complement. */
  lemma CloseSumsDiffer(n: nat, d: nat)
    requires 0 < d < ONES
    ensures Rep(n) != Rep(n + d)
  {
  }

  // ----- whole packets -----

  /** rtNetIPv4AddUDPChecksum: the ports and the length. */
  function AddUDP(e: Endian, udp: seq<byte>, u32Sum: nat): nat
    requires |udp| == 8
  {
    var w := Words(e, udp);
    Wrapped(u32Sum + (w[0] + w[1] + w[2]))
  }

  /** rtNetIPv4AddTCPChecksum. */
  function AddTCP(e: Endian, tcp: seq<byte>, u32Sum: nat): nat
    requires |tcp| >= 20 && |tcp| == 4 * TcpLength(tcp)
  {
    Wrapped(u32Sum + HeaderSum(Words(e, tcp), TcpLength(tcp), TH_SUM))
  }

  // th_off.
  function TcpLength(tcp: seq<byte>): (n: nat)
    requires |tcp| > 12
    ensures n <= 15
  {
    tcp[12] / 16
  }

  /** RTNetUDPChecksum, on top of any sum. The length field covers header and data; no packet is
      shorter than its header. */
  method UDPChecksum(e: Endian, u32Sum: nat, udp: seq<byte>, data: seq<byte>) returns (sum: nat)
    requires u32Sum < TWO32 && |udp| == 8 && Field(udp, 4) == 8 + |data|
    ensures sum == Finalize(Wrapped(u32Sum + Sum(e, udp[6 := 0][7 := 0] + data)))
  {
    hide Sum, Words, Finalize, Field;
    UdpSum(e, u32Sum, udp, data);
    var s := AddUDP(e, udp, u32Sum);
    var fOdd: bool;
    s, fOdd := AddDataChecksum(e, data, s, false);
    sum := Finalize(s);
  }

  lemma UdpSum(e: Endian, u32Sum: nat, udp: seq<byte>, data: seq<byte>)
    requires |udp| == 8
    ensures Wrapped(AddUDP(e, udp, u32Sum) + SumFrom(e, false, data))
      == Wrapped(u32Sum + Sum(e, udp[6 := 0][7 := 0] + data))
    ensures AddUDP(e, udp, u32Sum) < TWO32
  {
    hide Sum, Words, Wrapped;
    var w := Words(e, udp);
    UdpZeroed(e, udp);
    SumJoin(e, udp[6 := 0][7 := 0], data);
    Wrap(u32Sum + (w[0] + w[1] + w[2]), SumFrom(e, false, data));
    Wrap(u32Sum + (w[0] + w[1] + w[2]), 0);
  }

  lemma UdpZeroed(e: Endian, udp: seq<byte>)
    requires |udp| == 8
    ensures var w := Words(e, udp); Sum(e, udp[6 := 0][7 := 0]) == w[0] + w[1] + w[2]
  {
    var zeroed := udp[6 := 0][7 := 0];
    Sum4(e, zeroed[..4]);
    Sum4(e, zeroed[4..]);
    assert zeroed == zeroed[..4] + zeroed[4..];
    SumJoin(e, zeroed[..4], zeroed[4..]);
  }

  /** On top of a pseudo header the sum of header and data is that of the whole, which fits 32 bits. */
  lemma OnPseudo(e: Endian, pseudo: seq<byte>, rest: seq<byte>)
    requires !Odd(|pseudo|) && |pseudo| <= 40 && |rest| <= 65535 + 60
    ensures var all := Sum(e, pseudo + rest);
      Wrapped(Sum(e, pseudo) + Sum(e, rest)) == all && Finalize(all) == ONES - Rep(all) && Sum(e, pseudo) < TWO32
  {
    hide Sum, Finalize, Rep;
    SumJoin(e, pseudo, rest);
    SumBound(e, pseudo);
    SumBound(e, rest);
    Fits(Sum(e, pseudo + rest));
    FinalizeIsComplement(Sum(e, pseudo + rest));
  }

  /** RTNetTCPChecksum, on top of any sum. */
  method TCPChecksum(e: Endian, u32Sum: nat, tcp: seq<byte>, data: seq<byte>) returns (sum: nat)
    requires u32Sum < TWO32 && |tcp| >= 20 && |tcp| == 4 * TcpLength(tcp)
    ensures sum == Finalize(Wrapped(u32Sum + Sum(e, Cleared(tcp, TH_SUM) + data)))
  {
    hide Sum, Words, Finalize, HeaderSum;
    TcpSum(e, u32Sum, tcp, data);
    var s := AddTCP(e, tcp, u32Sum);
    var fOdd: bool;
    s, fOdd := AddDataChecksum(e, data, s, false);
    sum := Finalize(s);
  }

  lemma TcpSum(e: Endian, u32Sum: nat, tcp: seq<byte>, data: seq<byte>)
    requires |tcp| >= 20 && |tcp| == 4 * TcpLength(tcp)
    ensures Wrapped(AddTCP(e, tcp, u32Sum) + SumFrom(e, false, data))
      == Wrapped(u32Sum + Sum(e, Cleared(tcp, TH_SUM) + data))
    ensures AddTCP(e, tcp, u32Sum) < TWO32
  {
    hide Words, HeaderSum, Cleared, Sum, Wrapped;
    var n := TcpLength(tcp);
    HeaderSumIsSum(e, tcp, n, TH_SUM);
    assert Cleared(tcp, TH_SUM)[..|tcp|] == Cleared(tcp, TH_SUM);
    SumJoin(e, Cleared(tcp, TH_SUM), data);
    Wrap(u32Sum + HeaderSum(Words(e, tcp), n, TH_SUM), SumFrom(e, false, data));
    Wrap(u32Sum + HeaderSum(Words(e, tcp), n, TH_SUM), 0);
  }

  /** RTNetIPv4UDPChecksum: the checksum is that of the pseudo header, the UDP header without its
      checksum, and the data. */
  method IPv4UDPChecksum(e: Endian, hdr: seq<byte>, udp: seq<byte>, data: seq<byte>) returns (sum: nat)
    requires |hdr| >= 20 && |udp| == 8 && Field(udp, 4) == 8 + |data|
    ensures var pseudo := Pseudo4Bytes(hdr[12..16], hdr[16..20], hdr[9],
            (Field(hdr, 2) - HeaderLength(hdr) * 4) % TWO16);
      sum == ONES - Rep(Sum(e, pseudo + (udp[6 := 0][7 := 0] + data)))
  {
    hide Sum, Pseudo4, Pseudo4Bytes, Rep, Finalize, Wrapped;
    Pseudo4IsPseudoHeader(e, hdr);
    ghost var pseudo := Pseudo4Bytes(hdr[12..16], hdr[16..20], hdr[9], (Field(hdr, 2) - HeaderLength(hdr) * 4) % TWO16);
    OnPseudo(e, pseudo, udp[6 := 0][7 := 0] + data);
    sum := UDPChecksum(e, Pseudo4(e, hdr), udp, data);
  }

  /** RTNetIPv4TCPChecksum; the data's size is what the two headers leave of the packet. */
  method IPv4TCPChecksum(e: Endian, hdr: seq<byte>, tcp: seq<byte>, data: seq<byte>) returns (sum: nat)
    requires |hdr| >= 20 && |tcp| >= 20 && |tcp| == 4 * TcpLength(tcp)
    requires |data| == Field(hdr, 2) - HeaderLength(hdr) * 4 - |tcp|
    ensures sum == ONES - Rep(Sum(e,
      Pseudo4Bytes(hdr[12..16], hdr[16..20], hdr[9], |tcp| + |data|) + (Cleared(tcp, TH_SUM) + data)))
  {
    hide Sum, Pseudo4, Pseudo4Bytes, Rep, Cleared, Finalize, Wrapped;
    Pseudo4IsPseudoHeader(e, hdr);
    assert (Field(hdr, 2) - HeaderLength(hdr) * 4) % TWO16 == |tcp| + |data|;
    OnPseudo(e, Pseudo4Bytes(hdr[12..16], hdr[16..20], hdr[9], |tcp| + |data|), Cleared(tcp, TH_SUM) + data);
    sum := TCPChecksum(e, Pseudo4(e, hdr), tcp, data);
  }

  /** A UDP packet that carries its own checksum sums to all ones with its pseudo header. */
  lemma UdpStampedSumsToOnes(e: Endian, pseudo: seq<byte>, udp: seq<byte>, data: seq<byte>)
    requires |udp| == 8 && Field(udp, 4) == 8 + |data| && !Odd(|pseudo|) && |pseudo| <= 40
    ensures var c := Finalize(Sum(e, pseudo + (udp[6 := 0][7 := 0] + data)));
      0 <= c < TWO16 && Rep(Sum(e, pseudo + (Stored(e, udp, UH_SUM, c) + data))) == ONES
  {
    var zeroed := udp[6 := 0][7 := 0];
    var s := Sum(e, pseudo + (zeroed + data));
    FinalizeFits(s);
    UdpZeroed(e, udp);
    UdpStored(e, udp, Finalize(s));
    assert Words(e, udp)[2] > 0;
    hide Sum, Words, Finalize, Rep, Stored;
    StampedWhole(e, pseudo, zeroed, Stored(e, udp, UH_SUM, Finalize(s)), data);
  }

  lemma UdpStored(e: Endian, udp: seq<byte>, c: nat)
    requires |udp| == 8 && c < TWO16
    ensures Sum(e, Stored(e, udp, UH_SUM, c)) == Sum(e, udp[6 := 0][7 := 0]) + c
  {
    UdpZeroed(e, udp);
    var stored := Stored(e, udp, UH_SUM, c);
    Sum4(e, stored[..4]);
    Sum4(e, stored[4..]);
    assert stored == stored[..4] + stored[4..];
    SumJoin(e, stored[..4], stored[4..]);
  }

  /** So does a TCP packet. */
  lemma TcpStampedSumsToOnes(e: Endian, pseudo: seq<byte>, tcp: seq<byte>, data: seq<byte>)
    requires |tcp| >= 20 && |tcp| == 4 * TcpLength(tcp) && |data| <= 65535 && !Odd(|pseudo|) && |pseudo| <= 40
    ensures var c := Finalize(Sum(e, pseudo + (Cleared(tcp, TH_SUM) + data)));
      0 <= c < TWO16 && Rep(Sum(e, pseudo + (Stored(e, tcp, TH_SUM, c) + data))) == ONES
  {
    var zeroed := Cleared(tcp, TH_SUM);
    var s := Sum(e, pseudo + (zeroed + data));
    FinalizeFits(s);
    var stored := Stored(e, tcp, TH_SUM, Finalize(s));
    assert Words(e, tcp)[6] > 0;
    hide Sum, Words, Finalize, Rep, Stored, Cleared, HeaderSum;
    TcpStored(e, tcp, Finalize(s));
    StampedWhole(e, pseudo, zeroed, stored, data);
  }

  lemma TcpStored(e: Endian, tcp: seq<byte>, c: nat)
    requires |tcp| >= 20 && |tcp| == 4 * TcpLength(tcp) && c < TWO16
    ensures Sum(e, Stored(e, tcp, TH_SUM, c)) == Sum(e, Cleared(tcp, TH_SUM)) + c
    ensures Sum(e, Cleared(tcp, TH_SUM)) > 0
  {
    var stored := Stored(e, tcp, TH_SUM, c);
    var n := TcpLength(tcp);
    StoredWords(e, tcp, TH_SUM, c);
    HeaderSumIsSum(e, tcp, n, TH_SUM);
    HeaderSumIsSum(e, stored, n, TH_SUM);
    assert stored[..4 * n] == stored && Cleared(tcp, TH_SUM)[..4 * n] == Cleared(tcp, TH_SUM);
    assert Words(e, tcp)[6] > 0;
  }

  lemma StampedWhole(e: Endian, pseudo: seq<byte>, zeroed: seq<byte>, stored: seq<byte>, data: seq<byte>)
    requires !Odd(|pseudo|) && |pseudo| <= 40 && |zeroed| == |stored| <= 60 && !Odd(|zeroed|) && |data| <= 65535
    requires Sum(e, zeroed) > 0
    requires Sum(e, stored) == Sum(e, zeroed) + Finalize(Sum(e, pseudo + (zeroed + data)))
    ensures Rep(Sum(e, pseudo + (stored + data))) == ONES
  {
    hide Sum, Finalize, Rep;
    var s := Sum(e, pseudo + (zeroed + data));
    SumJoin(e, pseudo, zeroed + data);
    SumJoin(e, zeroed, data);
    SumJoin(e, pseudo, stored + data);
    SumJoin(e, stored, data);
    SumBound(e, data);
    SumBound(e, pseudo);
    SumBound(e, zeroed);
    ChecksumCompletes(s);
  }
}
