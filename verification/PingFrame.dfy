/** The echo requests of wifi_init_smoke: one frame buffer whose sequence numbers and
    checksums are rewritten in place for every request. */
module PingFrame {
  import opened Machine
  import opened Rfc1071
  import opened Rfc1071Laws

  const IDENTIFIER: u16 := 0x5753
  const FRAME_LEN: nat := 74

  /** The addresses a series of requests is built for. */
  datatype Peer = Peer(gatewayMac: seq<u8>, mac: seq<u8>, address: seq<u8>, target: seq<u8>) {
    predicate Sized() {
      |gatewayMac| == 6 && |mac| == 6 && |address| == 4 && |target| == 4
    }
  }

  /** 32 bytes counting from 0. */
  function Payload(): (payload: seq<u8>) {
    seq(32, i requires 0 <= i < 32 => i)
  }

  // ---- The layout -----------------------------------------------------------

  function EthernetHeader(peer: Peer): seq<u8> {
    peer.gatewayMac + peer.mac + [0x08, 0x00]
  }

  /** An IPv4 header (RFC 791, section 3.1) for 60 bytes of ICMP to the target. */
  function IpHeader(peer: Peer, id: u16, checksum: u16): seq<u8> {
    Flatten([[0x45, 0], BigEndian(60), BigEndian(id), [0, 0, 64, 1], BigEndian(checksum), peer.address, peer.target])
  }

  /** An ICMP echo request (RFC 792) with the payload. */
  function IcmpEcho(sequence: u16, checksum: u16): seq<u8> {
    Flatten([[8, 0], BigEndian(checksum), BigEndian(IDENTIFIER), BigEndian(sequence), Payload()])
  }

  function Frame(peer: Peer, id: u16, ipChecksum: u16, sequence: u16, icmpChecksum: u16): seq<u8> {
    Flatten([EthernetHeader(peer), IpHeader(peer, id, ipChecksum), IcmpEcho(sequence, icmpChecksum)])
  }

  lemma Flatten1(a: seq<u8>)
    ensures Flatten([a]) == a
  {
    assert [a][1..] == [];
  }

  lemma FlattenCons(a: seq<u8>, rest: seq<seq<u8>>)
    ensures Flatten([a] + rest) == a + Flatten(rest)
  {
    assert ([a] + rest)[1..] == rest;
  }

  lemma Flatten3(a: seq<u8>, b: seq<u8>, c: seq<u8>)
    ensures Flatten([a, b, c]) == a + b + c
  {
    Flatten1(c);
    FlattenCons(b, [c]);
    FlattenCons(a, [b, c]);
    assert [b] + [c] == [b, c] && [a] + [b, c] == [a, b, c];
  }

  lemma Flatten5(a: seq<u8>, b: seq<u8>, c: seq<u8>, d: seq<u8>, e: seq<u8>)
    ensures Flatten([a, b, c, d, e]) == a + b + c + d + e
  {
    Flatten3(c, d, e);
    FlattenCons(b, [c, d, e]);
    FlattenCons(a, [b, c, d, e]);
    assert [b] + [c, d, e] == [b, c, d, e] && [a] + [b, c, d, e] == [a, b, c, d, e];
  }

  lemma IpHeaderIs(peer: Peer, id: u16, checksum: u16)
    ensures IpHeader(peer, id, checksum)
            == [0x45, 0] + BigEndian(60) + BigEndian(id) + [0, 0, 64, 1] + BigEndian(checksum)
               + peer.address + peer.target
  {
    var a, b, rest := [0x45, 0], BigEndian(60),
                      [BigEndian(id), [0, 0, 64, 1], BigEndian(checksum), peer.address, peer.target];
    Flatten5(BigEndian(id), [0, 0, 64, 1], BigEndian(checksum), peer.address, peer.target);
    FlattenCons(b, rest);
    FlattenCons(a, [b] + rest);
    assert [a] + ([b] + rest)
           == [a, b, BigEndian(id), [0, 0, 64, 1], BigEndian(checksum), peer.address, peer.target];
  }

  lemma IcmpEchoIs(sequence: u16, checksum: u16)
    ensures IcmpEcho(sequence, checksum)
            == [8, 0] + BigEndian(checksum) + BigEndian(IDENTIFIER) + BigEndian(sequence) + Payload()
  {
    Flatten5([8, 0], BigEndian(checksum), BigEndian(IDENTIFIER), BigEndian(sequence), Payload());
  }

  lemma FrameIs(peer: Peer, id: u16, ipChecksum: u16, sequence: u16, icmpChecksum: u16)
    requires peer.Sized()
    ensures |IpHeader(peer, id, ipChecksum)| == 20 && |IcmpEcho(sequence, icmpChecksum)| == 40
    ensures Frame(peer, id, ipChecksum, sequence, icmpChecksum)
            == EthernetHeader(peer) + IpHeader(peer, id, ipChecksum) + IcmpEcho(sequence, icmpChecksum)
  {
    IpHeaderIs(peer, id, ipChecksum);
    IcmpEchoIs(sequence, icmpChecksum);
    Flatten3(EthernetHeader(peer), IpHeader(peer, id, ipChecksum), IcmpEcho(sequence, icmpChecksum));
  }

  /** The request with a given sequence number and both checksums right. */
  function EchoRequest(peer: Peer, sequence: u16): seq<u8> {
    Frame(peer, sequence, Checksum(IpHeader(peer, sequence, 0)), sequence, Checksum(IcmpEcho(sequence, 0)))
  }

  // ---- Both parts verify ----------------------------------------------------

  lemma IpHeaderField(peer: Peer, id: u16, checksum: u16)
    requires peer.Sized()
    ensures |IpHeader(peer, id, 0)| == 20
    ensures StoreWord(IpHeader(peer, id, 0), 5, checksum) == IpHeader(peer, id, checksum)
  {
    IpHeaderIs(peer, id, 0);
    IpHeaderIs(peer, id, checksum);
  }

  lemma IcmpField(sequence: u16, checksum: u16)
    ensures |IcmpEcho(sequence, 0)| == 40
    ensures StoreWord(IcmpEcho(sequence, 0), 1, checksum) == IcmpEcho(sequence, checksum)
  {
    IcmpEchoIs(sequence, 0);
    IcmpEchoIs(sequence, checksum);
  }

  /** Every request has a verifying IPv4 header and a verifying ICMP message. */
  lemma RequestVerifies(peer: Peer, sequence: u16)
    requires peer.Sized()
    ensures |EchoRequest(peer, sequence)| == FRAME_LEN
    ensures Verifies(EchoRequest(peer, sequence)[14..34])
    ensures Verifies(EchoRequest(peer, sequence)[34..])
  {
    var header, message := IpHeader(peer, sequence, 0), IcmpEcho(sequence, 0);
    var ipChecksum, icmpChecksum := Checksum(header), Checksum(message);
    IpHeaderField(peer, sequence, 0);
    IpHeaderField(peer, sequence, ipChecksum);
    StoredChecksumVerifies(header, 5);
    IcmpField(sequence, 0);
    IcmpField(sequence, icmpChecksum);
    StoredChecksumVerifies(message, 1);
    var request := EchoRequest(peer, sequence);
    FrameIs(peer, sequence, ipChecksum, sequence, icmpChecksum);
    assert request[14..34] == IpHeader(peer, sequence, ipChecksum);
    assert request[34..] == IcmpEcho(sequence, icmpChecksum);
  }

  /** The fields of a request, at the offsets of Ethernet, IPv4 (RFC 791, section 3.1) and ICMP
      echo (RFC 792): to the gateway's MAC from the own one, IPv4; version 4 with 5 header
      words, 60 bytes, own identification, not fragmented, 64 hops, ICMP, both addresses; echo
      request, code 0, identifier, sequence number, and 32 bytes counting up. */
  lemma RequestFields(peer: Peer, sequence: u16, i: nat)
    requires peer.Sized() && i < 32
    ensures |EchoRequest(peer, sequence)| == FRAME_LEN
    ensures var f := EchoRequest(peer, sequence);
            && f[..6] == peer.gatewayMac && f[6..12] == peer.mac && f[12] == 0x08 && f[13] == 0x00
            && f[14] == 0x45 && f[15] == 0 && f[16] == 0 && f[17] == 60
            && 256 * f[18] as int + f[19] as int == sequence
            && f[20] == 0 && f[21] == 0 && f[22] == 64 && f[23] == 1
            && f[26..30] == peer.address && f[30..34] == peer.target
            && f[34] == 8 && f[35] == 0 && f[38] == 0x57 && f[39] == 0x53
            && 256 * f[40] as int + f[41] as int == sequence
            && f[42 + i] == i
  {
    var ip, icmp := Checksum(IpHeader(peer, sequence, 0)), Checksum(IcmpEcho(sequence, 0));
    var request := EchoRequest(peer, sequence);
    FrameIs(peer, sequence, ip, sequence, icmp);
    IpHeaderFields(peer, sequence, ip);
    IcmpFields(sequence, icmp, i);
    var ethernet, header, message := EthernetHeader(peer), IpHeader(peer, sequence, ip), IcmpEcho(sequence, icmp);
    assert request == ethernet + header + message;
    assert request[14..34] == header && request[34..] == message;
    SliceOfSlice(request, 14, 34, 12, 16);
    SliceOfSlice(request, 14, 34, 16, 20);
    AtOffset(request, 14, 34, header);
    AtOffset(request, 34, |request|, message);
  }

  lemma AtOffset(bytes: seq<u8>, low: nat, high: nat, part: seq<u8>)
    requires low <= high <= |bytes| && bytes[low..high] == part
    ensures forall k | low <= k < high :: bytes[k] == part[k - low]
  {
  }

  lemma IpHeaderFields(peer: Peer, id: u16, checksum: u16)
    requires peer.Sized()
    ensures |IpHeader(peer, id, checksum)| == 20
    ensures var h := IpHeader(peer, id, checksum);
            && h[0] == 0x45 && h[1] == 0 && h[2] == 0 && h[3] == 60 && 256 * h[4] as int + h[5] as int == id
            && h[6] == 0 && h[7] == 0 && h[8] == 64 && h[9] == 1
            && h[12..16] == peer.address && h[16..20] == peer.target
  {
    IpHeaderIs(peer, id, checksum);
  }

  lemma IcmpFields(sequence: u16, checksum: u16, i: nat)
    requires i < 32
    ensures |IcmpEcho(sequence, checksum)| == 40
    ensures var m := IcmpEcho(sequence, checksum);
            && m[0] == 8 && m[1] == 0 && m[4] == 0x57 && m[5] == 0x53
            && 256 * m[6] as int + m[7] as int == sequence && m[8 + i] == i
  {
    IcmpEchoIs(sequence, checksum);
  }

  // ---- Rewriting in place ---------------------------------------------------

  /** A sequence with a slice of it replaced. */
  function Spliced(data: seq<u8>, at: nat, source: seq<u8>): (after: seq<u8>)
    requires at + |source| <= |data|
    ensures |after| == |data|
  {
    data[..at] + source + data[at + |source|..]
  }

  /** Stores a big-endian word in the frame. */
  method PutWord(frame: array<u8>, at: nat, value: u16)
    requires at + 2 <= frame.Length
    modifies frame
    ensures frame[..] == Spliced(old(frame[..]), at, BigEndian(value))
  {
    CopySlice(frame, at, BigEndian(value));
  }

  lemma SpliceId(peer: Peer, id: u16, ip: u16, sequence: u16, icmp: u16, value: u16)
    requires peer.Sized()
    ensures |Frame(peer, id, ip, sequence, icmp)| == FRAME_LEN
    ensures Spliced(Frame(peer, id, ip, sequence, icmp), 18, BigEndian(value))
            == Frame(peer, value, ip, sequence, icmp)
  {
    FrameIs(peer, id, ip, sequence, icmp);
    FrameIs(peer, value, ip, sequence, icmp);
    IpHeaderIs(peer, id, ip);
    IpHeaderIs(peer, value, ip);
  }

  lemma SpliceIpChecksum(peer: Peer, id: u16, ip: u16, sequence: u16, icmp: u16, value: u16)
    requires peer.Sized()
    ensures |Frame(peer, id, ip, sequence, icmp)| == FRAME_LEN
    ensures Spliced(Frame(peer, id, ip, sequence, icmp), 24, BigEndian(value))
            == Frame(peer, id, value, sequence, icmp)
  {
    FrameIs(peer, id, ip, sequence, icmp);
    FrameIs(peer, id, value, sequence, icmp);
    IpHeaderIs(peer, id, ip);
    IpHeaderIs(peer, id, value);
  }

  lemma SpliceSequence(peer: Peer, id: u16, ip: u16, sequence: u16, icmp: u16, value: u16)
    requires peer.Sized()
    ensures |Frame(peer, id, ip, sequence, icmp)| == FRAME_LEN
    ensures Spliced(Frame(peer, id, ip, sequence, icmp), 40, BigEndian(value))
            == Frame(peer, id, ip, value, icmp)
  {
    FrameIs(peer, id, ip, sequence, icmp);
    FrameIs(peer, id, ip, value, icmp);
    IcmpEchoIs(sequence, icmp);
    IcmpEchoIs(value, icmp);
  }

  lemma SpliceIcmpChecksum(peer: Peer, id: u16, ip: u16, sequence: u16, icmp: u16, value: u16)
    requires peer.Sized()
    ensures |Frame(peer, id, ip, sequence, icmp)| == FRAME_LEN
    ensures Spliced(Frame(peer, id, ip, sequence, icmp), 36, BigEndian(value))
            == Frame(peer, id, ip, sequence, value)
  {
    FrameIs(peer, id, ip, sequence, icmp);
    FrameIs(peer, id, ip, sequence, value);
    IcmpEchoIs(sequence, icmp);
    IcmpEchoIs(sequence, value);
  }

  lemma Regions(peer: Peer, id: u16, ip: u16, sequence: u16, icmp: u16)
    requires peer.Sized()
    ensures |Frame(peer, id, ip, sequence, icmp)| == FRAME_LEN
    ensures |IpHeader(peer, id, ip)| == 20 && |IcmpEcho(sequence, icmp)| == 40
    ensures Frame(peer, id, ip, sequence, icmp)[14..34] == IpHeader(peer, id, ip)
    ensures Frame(peer, id, ip, sequence, icmp)[34..] == IcmpEcho(sequence, icmp)
  {
    FrameIs(peer, id, ip, sequence, icmp);
  }

  ghost predicate ZeroBetween(frame: array<u8>, low: nat, high: nat)
    requires high <= frame.Length
    reads frame
  {
    forall i | low <= i < high :: frame[i] == 0
  }

  method FillEthernetHeader(frame: array<u8>, peer: Peer)
    requires peer.Sized() && frame.Length == FRAME_LEN
    modifies frame
    ensures frame[..14] == EthernetHeader(peer)
    ensures forall i | 14 <= i < FRAME_LEN :: frame[i] == old(frame[i])
  {
    CopySlice(frame, 0, peer.gatewayMac);
    CopySlice(frame, 6, peer.mac);
    CopySlice(frame, 12, [0x08, 0x00]);
  }

  method FillIpFixed(frame: array<u8>)
    requires frame.Length == FRAME_LEN && ZeroBetween(frame, 14, 34)
    modifies frame
    ensures frame[14..26] == [0x45, 0, 0, 60, 0, 0, 0, 0, 64, 1, 0, 0]
    ensures forall i | 0 <= i < 14 || 26 <= i < FRAME_LEN :: frame[i] == old(frame[i])
  {
    frame[14] := 0x45;
    CopySlice(frame, 16, BigEndian(frame.Length - 14));
    frame[22] := 64;
    frame[23] := 1;
  }

  method FillIpAddresses(frame: array<u8>, peer: Peer)
    requires peer.Sized() && frame.Length == FRAME_LEN
    modifies frame
    ensures frame[26..30] == peer.address && frame[30..34] == peer.target
    ensures forall i | 0 <= i < 26 || 34 <= i < FRAME_LEN :: frame[i] == old(frame[i])
  {
    CopySlice(frame, 26, peer.address);
    CopySlice(frame, 30, peer.target);
  }

  method FillIpHeader(frame: array<u8>, peer: Peer)
    requires peer.Sized() && frame.Length == FRAME_LEN && ZeroBetween(frame, 14, 34)
    modifies frame
    ensures frame[14..34] == IpHeader(peer, 0, 0)
    ensures forall i | 0 <= i < 14 || 34 <= i < FRAME_LEN :: frame[i] == old(frame[i])
  {
    FillIpFixed(frame);
    ghost var fixed := frame[14..26];
    FillIpAddresses(frame, peer);
    assert frame[14..26] == fixed;
    assert frame[14..34] == frame[14..26] + frame[26..30] + frame[30..34];
    IpHeaderIs(peer, 0, 0);
  }

  method FillIcmpEcho(frame: array<u8>)
    requires frame.Length == FRAME_LEN && ZeroBetween(frame, 34, 74)
    modifies frame
    ensures frame[34..] == IcmpEcho(0, 0)
    ensures forall i | 0 <= i < 34 :: frame[i] == old(frame[i])
  {
    frame[34] := 8;
    CopySlice(frame, 38, BigEndian(IDENTIFIER));
    CopySlice(frame, 42, Payload());
    IcmpEchoIs(0, 0);
  }

  /** The frame before the first request. */
  method BuildFrame(peer: Peer) returns (request: array<u8>)
    requires peer.Sized()
    ensures fresh(request) && request[..] == Frame(peer, 0, 0, 0, 0)
  {
    request := new u8[FRAME_LEN](_ => 0);
    FillEthernetHeader(request, peer);
    FillIpHeader(request, peer);
    FillIcmpEcho(request);
    FrameIs(peer, 0, 0, 0, 0);
    assert request[..14] == EthernetHeader(peer);
    assert request[14..34] == IpHeader(peer, 0, 0);
    assert request[..] == request[..14] + request[14..34] + request[34..];
  }

  /** What one turn of the series does to the frame before it is transmitted: both fields
      are zeroed and both checksums made afresh, whatever the last request left there. */
  method RefreshFrame(request: array<u8>, sequence: u16, ghost peer: Peer,
                      ghost id: u16, ghost ip: u16, ghost seqNo: u16, ghost icmp: u16)
    requires peer.Sized() && request[..] == Frame(peer, id, ip, seqNo, icmp)
    modifies request
    ensures request[..] == EchoRequest(peer, sequence)
  {
    SpliceId(peer, id, ip, seqNo, icmp, sequence);
    PutWord(request, 18, sequence);
    SpliceIpChecksum(peer, sequence, ip, seqNo, icmp, 0);
    PutWord(request, 24, 0);
    Regions(peer, sequence, 0, seqNo, icmp);
    var ipChecksum := InternetChecksum(request[14..34]);
    SpliceIpChecksum(peer, sequence, 0, seqNo, icmp, ipChecksum);
    PutWord(request, 24, ipChecksum);
    SpliceSequence(peer, sequence, ipChecksum, seqNo, icmp, sequence);
    PutWord(request, 40, sequence);
    SpliceIcmpChecksum(peer, sequence, ipChecksum, sequence, icmp, 0);
    PutWord(request, 36, 0);
    Regions(peer, sequence, ipChecksum, sequence, 0);
    var icmpChecksum := InternetChecksum(request[34..]);
    SpliceIcmpChecksum(peer, sequence, ipChecksum, sequence, 0, icmpChecksum);
    PutWord(request, 36, icmpChecksum);
  }
}
