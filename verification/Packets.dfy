/** The test proxy's packets: the Internet checksum of RFC 1071 section 1, the IPv4 and TCP
    headers that carry it, and DHCP options. */
module Packets {
  import opened Basics

  function U16(n: nat): (bytes: seq<byte>)
    requires n < 0x1_0000
    ensures |bytes| == 2
  {
    [n / 0x100, n % 0x100]
  }

  function U32(n: nat): (bytes: seq<byte>)
    requires n < 0x1_0000_0000
    ensures |bytes| == 4
  {
    U16(n / 0x1_0000) + U16(n % 0x1_0000)
  }

  function ReadU16(bytes: seq<byte>, at: nat): (n: nat)
    requires at + 2 <= |bytes|
    ensures n < 0x1_0000
  {
    bytes[at] as int * 0x100 + bytes[at + 1]
  }

  function ReadU32(bytes: seq<byte>, at: nat): (n: nat)
    requires at + 4 <= |bytes|
    ensures n < 0x1_0000_0000
  {
    ReadU16(bytes, at) * 0x1_0000 + ReadU16(bytes, at + 2)
  }

  // ---------- The Internet checksum ----------

  function Padded(data: seq<byte>): (even: seq<byte>)
    ensures |even| % 2 == 0
  {
    if |data| % 2 == 1 then data + [0] else data
  }

  /** Sum of the big-endian 16-bit words. */
  function WordSum(data: seq<byte>): nat
    requires |data| % 2 == 0
  {
    if data == [] then 0 else ReadU16(data, 0) + WordSum(data[2..])
  }

  /** What is left of a sum once its carries have all been added back in. */
  function Folded(total: nat): (r: nat)
    ensures r <= 0xffff
    decreases total
  {
    if total < 0x1_0000 then total else Folded(total % 0x1_0000 + total / 0x1_0000)
  }

  function Checksum(data: seq<byte>): (r: nat)
    ensures r <= 0xffff
  {
    0xffff - Folded(WordSum(Padded(data)))
  }

  /** The folding loop as it runs. */
  method ComputeChecksum(data: seq<byte>) returns (value: nat)
    ensures value == Checksum(data)
  {
    var total: nat := WordSum(Padded(data));
    while total / 0x1_0000 != 0
      invariant Folded(total) == Folded(WordSum(Padded(data)))
      decreases total
    {
      total := total % 0x1_0000 + total / 0x1_0000;
    }
    value := 0xffff - total;
  }

  /** Folding keeps the sum modulo 65535 and gives zero only for zero, so it is the sum's
      residue counted from 1 to 65535. */
  lemma {:induction false} FoldedIsResidue(total: nat)
    ensures Folded(total) % 0xffff == total % 0xffff
    ensures Folded(total) == 0 <==> total == 0
    ensures total > 0 ==> Folded(total) == (total - 1) % 0xffff + 1
    decreases total
  {
    if total >= 0x1_0000 {
      var q, r := total / 0x1_0000, total % 0x1_0000;
      FoldedIsResidue(r + q);
      assert total == r + q + 0xffff * q;
      ResidueOfSum(r + q, q);
      ResidueOfSum(r + q - 1, q);
    }
  }

  lemma ResidueOfSum(a: nat, q: nat)
    ensures (a + 0xffff * q) % 0xffff == a % 0xffff
  {
  }

  lemma {:induction false} WordSumOfJoined(a: seq<byte>, b: seq<byte>)
    requires |a| % 2 == 0 && |b| % 2 == 0
    ensures WordSum(a + b) == WordSum(a) + WordSum(b)
    decreases |a|
  {
    if a == [] {
      assert a + b == b;
    } else {
      assert (a + b)[2..] == a[2..] + b;
      WordSumOfJoined(a[2..], b);
    }
  }

  /** Data around a 16-bit field at an even place. */
  function Around(before: seq<byte>, field: nat, after: seq<byte>): seq<byte>
    requires field < 0x1_0000
  {
    before + U16(field) + after
  }

  lemma WordSumOfField(field: nat)
    requires field < 0x1_0000
    ensures WordSum(U16(field)) == field
  {
    assert U16(field)[2..] == [];
  }

  lemma PaddedAround(before: seq<byte>, field: nat, after: seq<byte>)
    requires |before| % 2 == 0 && field < 0x1_0000
    ensures Padded(Around(before, field, after)) == before + (U16(field) + Padded(after))
  {
    hide U16;
  }

  lemma WordSumAround(before: seq<byte>, field: nat, after: seq<byte>)
    requires |before| % 2 == 0 && field < 0x1_0000
    ensures WordSum(Padded(Around(before, field, after)))
         == WordSum(before) + field + WordSum(Padded(after))
  {
    hide U16, WordSum, Padded, Around;
    PaddedAround(before, field, after);
    WordSumOfJoined(before, U16(field) + Padded(after));
    WordSumOfJoined(U16(field), Padded(after));
    WordSumOfField(field);
  }

  /** A receiver that checksums data with the checksum filled in gets zero exactly when the field
      holds the checksum of the data with the field zeroed; only 0 has a second form, 0xffff,
      and only where something else in the data is not zero. */
  lemma ChecksumIsAcceptedExactly(before: seq<byte>, after: seq<byte>, field: nat)
    requires |before| % 2 == 0 && field < 0x1_0000
    ensures var right := Checksum(Around(before, 0, after));
            var rest := WordSum(before) + WordSum(Padded(after));
            Checksum(Around(before, field, after)) == 0 <==>
            field == right || (rest > 0 && right == 0 && field == 0xffff)
  {
    hide WordSum, Padded, Around, Folded;
    var rest := WordSum(before) + WordSum(Padded(after));
    WordSumAround(before, 0, after);
    WordSumAround(before, field, after);
    FoldedIsResidue(rest);
    FoldedIsResidue(rest + field);
    AcceptedResidues(rest, field);
  }

  lemma AcceptedResidues(rest: nat, field: nat)
    requires field <= 0xffff
    ensures rest > 0 ==>
      var right := 0xfffe - (rest - 1) % 0xffff;
      ((rest + field - 1) % 0xffff == 0xfffe <==> field == right || (right == 0 && field == 0xffff))
    ensures rest == 0 && field > 0 ==> ((field - 1) % 0xffff == 0xfffe <==> field == 0xffff)
  {
    if rest > 0 {
      var q, r := (rest - 1) / 0xffff, (rest - 1) % 0xffff;
      assert rest + field - 1 == r + field + 0xffff * q;
      ResidueOfSum(r + field, q);
      if r + field >= 0xffff {
        ResidueOfSum(r + field - 0xffff, 1);
      }
    }
  }

  /** What a checksum of zero says: the words do not add up to nothing, but to nothing modulo 65535. */
  lemma ZeroChecksumMeans(data: seq<byte>)
    ensures Checksum(data) == 0 <==> WordSum(Padded(data)) > 0 && WordSum(Padded(data)) % 0xffff == 0
  {
    FoldedIsResidue(WordSum(Padded(data)));
  }

  /** The example of section 3 of RFC 1071, and an odd number of bytes: words are big-endian, and a
      last lone byte is the high one. */
  lemma ChecksumOfKnownBytes()
    ensures Checksum([0x00, 0x01, 0xf2, 0x03, 0xf4, 0xf5, 0xf6, 0xf7]) == 0x220d
    ensures Checksum([0x12, 0x34, 0x56]) == 0x97cb
  {
    hide WordSum;
    KnownWords();
    OddWords();
  }

  lemma KnownWords()
    ensures WordSum([0x00, 0x01, 0xf2, 0x03, 0xf4, 0xf5, 0xf6, 0xf7]) == 0x2_ddf0
  {
    assert [0x00, 0x01, 0xf2, 0x03, 0xf4, 0xf5, 0xf6, 0xf7][2..] == [0xf2, 0x03, 0xf4, 0xf5, 0xf6, 0xf7];
    assert [0xf2, 0x03, 0xf4, 0xf5, 0xf6, 0xf7][2..] == [0xf4, 0xf5, 0xf6, 0xf7];
    assert [0xf4, 0xf5, 0xf6, 0xf7][2..] == [0xf6, 0xf7];
  }

  lemma OddWords()
    ensures WordSum(Padded([0x12, 0x34, 0x56])) == 0x6834
  {
    assert Padded([0x12, 0x34, 0x56]) == [0x12, 0x34, 0x56, 0];
    assert [0x12, 0x34, 0x56, 0][2..] == [0x56, 0];
  }

  // ---------- IPv4 and TCP ----------

  /** The header with its checksum field zero; None when a field does not fit its packing. */
  function Ipv4Header(source: seq<byte>, destination: seq<byte>, protocol: nat, size: nat, ident: nat): (r: Option<seq<byte>>)
    requires |source| == 4 && |destination| == 4
    ensures r.Some? <==> 20 + size < 0x1_0000 && protocol < 0x100
    ensures r.Some? ==> |r.value| == 20
  {
    if 20 + size >= 0x1_0000 || protocol >= 0x100 then None
    else
      Some([0x45, 0] + U16(20 + size) + U16(ident % 0x1_0000) + U16(0x4000) + [64, protocol] + U16(0)
           + source + destination)
  }

  function Ipv4(source: seq<byte>, destination: seq<byte>, protocol: nat, payload: seq<byte>, ident: nat): (r: Option<seq<byte>>)
    requires |source| == 4 && |destination| == 4
  {
    match Ipv4Header(source, destination, protocol, |payload|, ident)
    case None => None
    case Some(header) => Some(header[..10] + U16(Checksum(header)) + header[12..] + payload)
  }

  /** Every packet built: twenty bytes that checksum to zero and announce the whole length,
      then the payload. */
  lemma Ipv4IsSound(source: seq<byte>, destination: seq<byte>, protocol: nat, payload: seq<byte>, ident: nat)
    requires |source| == 4 && |destination| == 4
    ensures var r := Ipv4(source, destination, protocol, payload, ident);
            && (r.Some? <==> 20 + |payload| < 0x1_0000 && protocol < 0x100)
            && (r.Some? ==>
                  var packet := r.value;
                  && |packet| == 20 + |payload| && packet[20..] == payload
                  && Checksum(packet[..20]) == 0 && ReadU16(packet, 2) == |packet|
                  && packet[..10] == [0x45, 0, |packet| / 0x100, |packet| % 0x100, ident % 0x1_0000 / 0x100, ident % 0x1_0000 % 0x100,
                                      0x40, 0, 64, protocol]
                  && packet[12..16] == source && packet[16..20] == destination)
  {
    hide Checksum, WordSum, Folded, U16, ReadU16;
    if 20 + |payload| < 0x1_0000 && protocol < 0x100 {
      var header := Ipv4Header(source, destination, protocol, |payload|, ident).value;
      var before, after := header[..10], header[12..];
      Ipv4HeaderHolds(source, destination, protocol, |payload|, ident);
      assert header == Around(before, 0, after) by {
        assert header == header[..10] + header[10..12] + header[12..];
      }
      ChecksumIsAcceptedExactly(before, after, Checksum(header));
      var packet := Around(before, Checksum(header), after) + payload;
      assert packet[..20] == Around(before, Checksum(header), after);
      assert packet[12..16] == header[12..16] && packet[16..20] == header[16..20] && packet[2..4] == header[2..4];
      assert packet[..10] == header[..10];
      ReadBack16(20 + |payload|, packet, 2);
    }
  }

  lemma Ipv4HeaderHolds(source: seq<byte>, destination: seq<byte>, protocol: nat, size: nat, ident: nat)
    requires |source| == 4 && |destination| == 4 && 20 + size < 0x1_0000 && protocol < 0x100
    ensures var header := Ipv4Header(source, destination, protocol, size, ident).value;
            && header[2..4] == U16(20 + size) && header[12..16] == source && header[16..20] == destination
            && header[10..12] == U16(0)
            && header[..10] == [0x45, 0, (20 + size) / 0x100, (20 + size) % 0x100, ident % 0x1_0000 / 0x100, ident % 0x1_0000 % 0x100,
                                0x40, 0, 64, protocol]
  {
  }

  /** A TCP segment's fields. */
  datatype Segment = Segment(sourcePort: nat, destinationPort: nat, seqNumber: nat, ackNumber: nat, flags: nat, payload: seq<byte>)
  {
    predicate Fits() {
      sourcePort < 0x1_0000 && destinationPort < 0x1_0000 && flags < 0x100
      && seqNumber < 0x1_0000_0000 && ackNumber < 0x1_0000_0000
    }
  }

  /** Options filled up to whole words with no-operations. */
  function WholeWords(options: seq<byte>): (padded: seq<byte>)
    ensures |padded| % 4 == 0 && options <= padded && |padded| < |options| + 4
  {
    if |options| % 4 == 0 then options else options + seq(4 - |options| % 4, _ => 1)
  }

  function TcpHeader(s: Segment, options: seq<byte>, sum: nat): (header: seq<byte>)
    requires s.Fits() && |options| % 4 == 0 && |options| <= 40 && sum < 0x1_0000
    ensures |header| == 20 + |options|
  {
    U16(s.sourcePort) + U16(s.destinationPort) + U32(s.seqNumber) + U32(s.ackNumber)
    + [(5 + |options| / 4) * 16, s.flags] + U16(65535) + U16(sum) + U16(0) + options
  }

  function PseudoHeader(source: seq<byte>, destination: seq<byte>, size: nat): seq<byte>
    requires size < 0x1_0000
  {
    source + destination + [0, 6] + U16(size)
  }

  /** The segment with its checksum; None when the header or the segment is too long to pack. */
  function Tcp(source: seq<byte>, destination: seq<byte>, s: Segment, options: seq<byte>): (r: Option<seq<byte>>)
    requires |source| == 4 && |destination| == 4 && s.Fits()
  {
    var padded := WholeWords(options);
    if |padded| > 40 || 20 + |padded| + |s.payload| >= 0x1_0000 then None
    else
      var header := TcpHeader(s, padded, 0);
      var pseudo := PseudoHeader(source, destination, |header| + |s.payload|);
      Some(header[..16] + U16(Checksum(pseudo + header + s.payload)) + header[18..] + s.payload)
  }

  /** What the proxy reads out of a segment it receives; None when the header length is wrong. */
  function ReadTcp(bytes: seq<byte>): Option<Segment> {
    if |bytes| < 20 then None
    else
      var headerLength := bytes[12] / 16 * 4;
      if headerLength < 20 || headerLength > |bytes| then None
      else Some(Segment(ReadU16(bytes, 0), ReadU16(bytes, 2), ReadU32(bytes, 4), ReadU32(bytes, 8), bytes[13], bytes[headerLength..]))
  }

  lemma ReadBack16(n: nat, bytes: seq<byte>, at: nat)
    requires n < 0x1_0000 && at + 2 <= |bytes| && bytes[at..at + 2] == U16(n)
    ensures ReadU16(bytes, at) == n
  {
    assert bytes[at] == bytes[at..at + 2][0] && bytes[at + 1] == bytes[at..at + 2][1];
  }

  lemma ReadBack32(n: nat, bytes: seq<byte>, at: nat)
    requires n < 0x1_0000_0000 && at + 4 <= |bytes| && bytes[at..at + 4] == U32(n)
    ensures ReadU32(bytes, at) == n
  {
    hide U16, ReadU16;
    assert bytes[at..at + 2] == bytes[at..at + 4][..2] && bytes[at + 2..at + 4] == bytes[at..at + 4][2..];
    ReadBack16(n / 0x1_0000, bytes, at);
    ReadBack16(n % 0x1_0000, bytes, at + 2);
  }

  lemma HeaderIsReadBack(s: Segment, options: seq<byte>, sum: nat)
    requires s.Fits() && |options| % 4 == 0 && |options| <= 40 && sum < 0x1_0000
    ensures ReadTcp(TcpHeader(s, options, sum) + s.payload) == Some(s)
  {
    hide U16, U32, ReadU16, ReadU32;
    var bytes := TcpHeader(s, options, sum) + s.payload;
    assert bytes[0..2] == U16(s.sourcePort) && bytes[2..4] == U16(s.destinationPort);
    assert bytes[4..8] == U32(s.seqNumber) && bytes[8..12] == U32(s.ackNumber);
    ReadBack16(s.sourcePort, bytes, 0);
    ReadBack16(s.destinationPort, bytes, 2);
    ReadBack32(s.seqNumber, bytes, 4);
    ReadBack32(s.ackNumber, bytes, 8);
    assert bytes[12] / 16 * 4 == 20 + |options|;
    assert bytes[20 + |options|..] == s.payload;
  }

  /** A segment as it goes over the wire, byte by byte, but for its checksum. */
  predicate OnTheWire(bytes: seq<byte>, s: Segment, options: seq<byte>)
    requires s.Fits()
  {
    var n := (|options| + 3) / 4 * 4;
    && n <= 40 && |bytes| == 20 + n + |s.payload|
    && bytes[..14] == [s.sourcePort / 0x100, s.sourcePort % 0x100, s.destinationPort / 0x100, s.destinationPort % 0x100,
                       s.seqNumber / 0x100_0000, s.seqNumber / 0x1_0000 % 0x100, s.seqNumber / 0x100 % 0x100, s.seqNumber % 0x100,
                       s.ackNumber / 0x100_0000, s.ackNumber / 0x1_0000 % 0x100, s.ackNumber / 0x100 % 0x100, s.ackNumber % 0x100,
                       (5 + n / 4) * 0x10, s.flags]
    && bytes[14..16] == [0xff, 0xff] && bytes[18..20] == [0, 0]
    && bytes[20..20 + |options|] == options && (forall i | 20 + |options| <= i < 20 + n :: bytes[i] == 1)
    && bytes[20 + n..] == s.payload
  }

  /** With the pseudo header in front: both addresses, protocol 6 and the length. */
  predicate SumsToZero(source: seq<byte>, destination: seq<byte>, bytes: seq<byte>)
    requires |bytes| < 0x1_0000
  {
    Checksum(source + destination + [0, 6, |bytes| / 0x100, |bytes| % 0x100] + bytes) == 0
  }

  lemma HeaderOnTheWire(s: Segment, options: seq<byte>, sum: nat)
    requires s.Fits() && |options| <= 40 && sum < 0x1_0000
    ensures OnTheWire(TcpHeader(s, WholeWords(options), sum) + s.payload, s, options)
  {
    hide TcpHeader, U16;
    var padded := WholeWords(options);
    var bytes := TcpHeader(s, padded, sum) + s.payload;
    HeaderBytes(s, padded, sum);
    assert |padded| == (|options| + 3) / 4 * 4;
    assert bytes[14] == 0xff && bytes[15] == 0xff && bytes[18] == 0 && bytes[19] == 0;
    assert bytes[14..16] == [bytes[14], bytes[15]] && bytes[18..20] == [bytes[18], bytes[19]];
    assert bytes[20..20 + |padded|] == padded && bytes[20 + |padded|..] == s.payload;
    assert bytes[20..20 + |options|] == bytes[20..20 + |padded|][..|options|];
    forall i | 20 + |options| <= i < 20 + |padded| ensures bytes[i] == 1 {
      assert bytes[i] == bytes[20..20 + |padded|][i - 20];
    }
  }

  lemma HeaderBytes(s: Segment, options: seq<byte>, sum: nat)
    requires s.Fits() && |options| % 4 == 0 && |options| <= 40 && sum < 0x1_0000
    ensures TcpHeader(s, options, sum)
         == [s.sourcePort / 0x100, s.sourcePort % 0x100, s.destinationPort / 0x100, s.destinationPort % 0x100,
             s.seqNumber / 0x100_0000, s.seqNumber / 0x1_0000 % 0x100, s.seqNumber / 0x100 % 0x100, s.seqNumber % 0x100,
             s.ackNumber / 0x100_0000, s.ackNumber / 0x1_0000 % 0x100, s.ackNumber / 0x100 % 0x100, s.ackNumber % 0x100,
             (5 + |options| / 4) * 0x10, s.flags, 0xff, 0xff] + U16(sum) + [0, 0] + options
  {
    hide U32;
    NumberOnTheWire(s.seqNumber);
    NumberOnTheWire(s.ackNumber);
  }

  lemma NumberOnTheWire(n: nat)
    requires n < 0x1_0000_0000
    ensures U32(n) == [n / 0x100_0000, n / 0x1_0000 % 0x100, n / 0x100 % 0x100, n % 0x100]
  {
    var high, low := n / 0x1_0000, n % 0x1_0000;
    Halves(high, low / 0x100, low % 0x100);
    assert n == (high * 0x100 + low / 0x100) * 0x100 + low % 0x100;
    assert high / 0x100 == n / 0x100_0000;
  }

  lemma Halves(a: nat, b: nat, c: nat)
    requires b < 0x100 && c < 0x100
    ensures var n := (a * 0x100 + b) * 0x100 + c;
            n / 0x100 == a * 0x100 + b && n / 0x100 % 0x100 == b && n % 0x100 == c
  {
  }

  /** Every segment built is read back with exactly its fields and payload, whatever its options,
      and checksums to zero together with its pseudo header; too long ones are refused. */
  lemma TcpIsSound(source: seq<byte>, destination: seq<byte>, s: Segment, options: seq<byte>)
    requires |source| == 4 && |destination| == 4 && s.Fits()
    ensures var r := Tcp(source, destination, s, options);
            && (r.Some? <==> |options| <= 40 && 20 + |WholeWords(options)| + |s.payload| < 0x1_0000)
            && (r.Some? ==>
                  && ReadTcp(r.value) == Some(s) && |r.value| < 0x1_0000 && OnTheWire(r.value, s, options)
                  && SumsToZero(source, destination, r.value))
  {
    hide Checksum, WordSum, Folded, TcpHeader, U16, ReadTcp, PseudoHeader, OnTheWire;
    var padded := WholeWords(options);
    if |padded| <= 40 && 20 + |padded| + |s.payload| < 0x1_0000 {
      var header := TcpHeader(s, padded, 0);
      var size := |header| + |s.payload|;
      var pseudo := PseudoHeader(source, destination, size);
      var sum := Checksum(pseudo + header + s.payload);
      PseudoHeaderBytes(source, destination, size);
      HeaderHoldsSum(s, padded, sum);
      var before, after := pseudo + header[..16], header[18..] + s.payload;
      var segment := header[..16] + U16(sum) + header[18..] + s.payload;
      assert pseudo + header + s.payload == Around(before, 0, after) by {
        HeaderHoldsSum(s, padded, 0);
        assert header[..16] + U16(0) + header[18..] == header;
      }
      assert pseudo + segment == Around(before, sum, after);
      ChecksumIsAcceptedExactly(before, after, sum);
      assert segment == TcpHeader(s, padded, sum) + s.payload;
      HeaderIsReadBack(s, padded, sum);
      HeaderOnTheWire(s, options, sum);
    }
  }

  lemma PseudoHeaderBytes(source: seq<byte>, destination: seq<byte>, size: nat)
    requires size < 0x1_0000
    ensures PseudoHeader(source, destination, size) == source + destination + [0, 6, size / 0x100, size % 0x100]
  {
  }

  lemma HeaderHoldsSum(s: Segment, options: seq<byte>, sum: nat)
    requires s.Fits() && |options| % 4 == 0 && |options| <= 40 && sum < 0x1_0000
    ensures var header := TcpHeader(s, options, 0);
            TcpHeader(s, options, sum) == header[..16] + U16(sum) + header[18..]
  {
    hide U16, U32;
  }

  // ---------- DHCP options ----------

  const DHCP_MESSAGE_TYPE: byte := 53
  const DHCP_END: byte := 255

  /** Reads options off the front: padding, or a code, a length and that many bytes. */
  function MessageType(options: seq<byte>): Option<byte>
    decreases |options|
  {
    if options == [] then None
    else if options[0] == 0 then MessageType(options[1..])
    else if options[0] == DHCP_END || |options| == 1 then None
    else
      var next := Min(2 + options[1] as int, |options|);
      if options[0] == DHCP_MESSAGE_TYPE && next > 2 then Some(options[2]) else MessageType(options[next..])
  }

  lemma NextOption(options: seq<byte>)
    requires options != []
    ensures options[0] == 0 ==> MessageType(options) == MessageType(options[1..])
    ensures options[0] == DHCP_END || (options[0] != 0 && |options| == 1) ==> MessageType(options) == None
    ensures options[0] != 0 && options[0] != DHCP_END && |options| > 1 ==>
              var next := Min(2 + options[1] as int, |options|);
              MessageType(options)
              == if options[0] == DHCP_MESSAGE_TYPE && next > 2 then Some(options[2]) else MessageType(options[next..])
  {
  }

  method DhcpMessageType(options: seq<byte>) returns (r: Option<byte>)
    ensures r == MessageType(options)
  {
    hide MessageType;
    assert options[Min(0, |options|)..] == options;
    NoOptions();
    var index: nat := 0;
    while index < |options|
      invariant MessageType(options[Min(index, |options|)..]) == MessageType(options)
    {
      var code := options[index];
      var rest := options[index..];
      NextOption(rest);
      index := index + 1;
      if code == 0 {
        assert options[index..] == rest[1..];
        continue;
      }
      if code == DHCP_END || index >= |options| {
        return None;
      }
      var length: nat := options[index];
      index := index + 1;
      var value := options[index..Min(index + length, |options|)];
      index := index + length;
      if code == DHCP_MESSAGE_TYPE && value != [] {
        return Some(value[0]);
      }
      assert options[Min(index, |options|)..] == rest[Min(2 + length, |rest|)..];
    }
    return None;
  }

  lemma NoOptions()
    ensures MessageType([]) == None
  {
  }

  datatype Item = Pad | Data(code: byte, data: seq<byte>)
  {
    predicate Valid() {
      Data? ==> 1 <= code <= 254 && |data| <= 255
    }

    function Text(): seq<byte>
      requires Valid()
    {
      if Pad? then [0] else [code, |data|] + data
    }
  }

  function Written(items: seq<Item>): seq<byte>
    requires forall i | 0 <= i < |items| :: items[i].Valid()
  {
    if items == [] then []
    else items[0].Text() + Written(items[1..])
  }

  /** The message type a list of options carries: the first one that is not empty. */
  function Carried(items: seq<Item>): Option<byte> {
    if items == [] then None
    else if items[0].Data? && items[0].code == 53 && items[0].data != [] then Some(items[0].data[0])
    else Carried(items[1..])
  }

  lemma ItemIsRead(item: Item, tail: seq<byte>)
    requires item.Valid()
    ensures MessageType(item.Text() + tail)
         == if item.Data? && item.code == DHCP_MESSAGE_TYPE && item.data != [] then Some(item.data[0]) else MessageType(tail)
  {
    var text := item.Text() + tail;
    match item {
      case Pad => assert text[1..] == tail;
      case Data(code, data) => assert text[2 + |data|..] == tail;
    }
  }

  /** Written options are read back, whatever follows the end mark, or with none at all. */
  lemma {:induction false} OptionsAreReadBack(items: seq<Item>, rest: seq<byte>)
    requires forall i | 0 <= i < |items| :: items[i].Valid()
    requires rest == [] || rest[0] == 255
    ensures MessageType(Written(items) + rest) == Carried(items)
    decreases |items|
  {
    hide Item.Text;
    if items == [] {
      assert Written(items) + rest == rest;
    } else {
      OptionsAreReadBack(items[1..], rest);
      ItemIsRead(items[0], Written(items[1..]) + rest);
      assert Written(items) + rest == items[0].Text() + (Written(items[1..]) + rest);
    }
  }
}
