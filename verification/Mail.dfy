/**
 Mail on the wire: a packet header, a mail header and the payload, padded to a fixed size. The post
 office puts the mail header before the data, the network the packet header before both.
 */
module MailFormat {
  import opened Bytes
  import opened Sectors

  const MAX_WIRE_SIZE: nat := 64
  const MAX_PACKET_SIZE: nat := 52
  const MAX_MAIL_SIZE: nat := 40
  const HEADER_SIZE: nat := 12

  /** PacketHeader, with the addresses of machines, and MailHeader, with those of mailboxes, have the same layout. */
  datatype Header = Header(to: Int32, from: Int32, length: Word)

  datatype Mail = Mail(pktHdr: Header, mailHdr: Header, data: seq<Byte>)

  type Wire = w: seq<Byte> | |w| == 64 witness seq(64, _ => 0)

  /** What the network device has received: a header and so many bytes. */
  datatype Packet = Packet(hdr: Header, bytes: seq<Byte>)

  /** The lengths agree and keep the limits, as Send sees to. */
  predicate Fits(m: Mail) {
    m.mailHdr.length == |m.data| <= MAX_MAIL_SIZE && m.pktHdr.length == |m.data| + HEADER_SIZE
  }

  function HeaderBytes(h: Header): (b: seq<Byte>)
    ensures |b| == 12
  {
    IntBytes(h.to) + IntBytes(h.from) + WordBytes(h.length)
  }

  function ParseHeader(b: seq<Byte>): Header
    requires |b| == 12
  {
    Header(BytesInt(b[..4]), BytesInt(b[4..8]), BytesWord(b[8..12]))
  }

  /** Where the fields lie: the destination first, then the source, then the length, each with its low byte first. */
  lemma HeaderLayout(h: Header)
    ensures HeaderBytes(h)[0..4] == IntBytes(h.to) && HeaderBytes(h)[4..8] == IntBytes(h.from)
    ensures HeaderBytes(h)[8..12] == WordBytes(h.length)
    ensures MAX_PACKET_SIZE == MAX_WIRE_SIZE - HEADER_SIZE && MAX_MAIL_SIZE == MAX_PACKET_SIZE - HEADER_SIZE
    ensures HEADER_SIZE == |HeaderBytes(h)|
  {
    var b := HeaderBytes(h);
    assert b[0..4] == IntBytes(h.to) && b[4..8] == IntBytes(h.from) && b[8..12] == WordBytes(h.length);
  }

  /** On the wire the packet header comes first, then the mail header, then the data. */
  lemma WireLayout(w: Wire, m: Mail)
    requires OnWire(w, m)
    ensures w[0..12] == HeaderBytes(m.pktHdr) && w[12..24] == HeaderBytes(m.mailHdr)
    ensures w[24..24 + m.mailHdr.length] == m.data
  {
    var b := Message(m);
    assert w[..|b|] == b;
    assert b[0..12] == HeaderBytes(m.pktHdr) && b[12..24] == HeaderBytes(m.mailHdr) && b[24..] == m.data;
    assert w[0..12] == b[0..12] && w[12..24] == b[12..24] && w[24..|b|] == b[24..];
  }

  lemma HeaderRoundTrip(h: Header)
    ensures ParseHeader(HeaderBytes(h)) == h
  {
    var b := HeaderBytes(h);
    assert b[..4] == IntBytes(h.to) && b[4..8] == IntBytes(h.from) && b[8..12] == WordBytes(h.length);
    IntRoundTrip(h.to);
    IntRoundTrip(h.from);
    WordRoundTrip(h.length);
  }

  /** The meaningful bytes of a message on the wire; what pads them to the full size is unspecified. */
  function Message(m: Mail): seq<Byte> {
    HeaderBytes(m.pktHdr) + HeaderBytes(m.mailHdr) + m.data
  }

  ghost predicate OnWire(w: Wire, m: Mail) {
    Fits(m) && Message(m) <= w
  }

  /** Network::CheckPktAvail: the header, and as many bytes after it as it says, up to what there is. */
  function Received(w: Wire): Packet {
    var hdr := ParseHeader(w[..12]);
    Packet(hdr, w[12..12 + if hdr.length <= MAX_PACKET_SIZE then hdr.length else 0])
  }

  /** PostalDelivery: the mail header taken off the front of the bytes, and as many bytes after it as it says. */
  function Unpacked(p: Packet): Mail {
    if |p.bytes| < HEADER_SIZE then Mail(p.hdr, Header(0, 0, 0), [])
    else
      var mailHdr := ParseHeader(p.bytes[..12]);
      Mail(p.hdr, mailHdr, p.bytes[12..if 12 + mailHdr.length <= |p.bytes| then 12 + mailHdr.length else 12])
  }

  /** Mail arrives as it was sent, headers and payload, whatever the padding. */
  lemma WireRoundTrip(w: Wire, m: Mail)
    requires OnWire(w, m)
    ensures Unpacked(Received(w)) == m
  {
    var n := |m.data|;
    HeaderRoundTrip(m.pktHdr);
    HeaderRoundTrip(m.mailHdr);
    var b := Message(m);
    assert w[..24 + n] == b;
    assert w[..12] == b[..12] == HeaderBytes(m.pktHdr);
    var p := Received(w);
    assert p.bytes == w[12..24 + n] == b[12..24 + n];
    assert p.bytes == HeaderBytes(m.mailHdr) + m.data;
    assert p.bytes[..12] == HeaderBytes(m.mailHdr);
    assert p.bytes[12..12 + n] == m.data;
  }

  /** PostOffice::Send up to the network: the buffer to be sent. */
  method Concatenate(mailHdr: Header, data: array<Byte>) returns (buffer: array<Byte>)
    requires mailHdr.length <= data.Length && mailHdr.length <= MAX_MAIL_SIZE
    ensures fresh(buffer) && buffer.Length == MAX_PACKET_SIZE
    ensures buffer[..12 + mailHdr.length] == HeaderBytes(mailHdr) + data[..mailHdr.length]
  {
    buffer := new Byte[MAX_PACKET_SIZE];
    var header := new Byte[12](i requires 0 <= i < 12 => HeaderBytes(mailHdr)[i]);
    assert header[..] == HeaderBytes(mailHdr);
    BCopy(header, 0, buffer, 0, 12);
    BCopy(data, 0, buffer, 12, mailHdr.length);
  }

  /** Network::Send: the packet that goes to the socket of a packet that is not lost. */
  method PutOnWire(hdr: Header, data: array<Byte>) returns (wire: array<Byte>)
    requires 0 < hdr.length <= MAX_PACKET_SIZE && hdr.length <= data.Length
    ensures fresh(wire) && wire.Length == MAX_WIRE_SIZE
    ensures wire[..12 + hdr.length] == HeaderBytes(hdr) + data[..hdr.length]
  {
    wire := new Byte[MAX_WIRE_SIZE];
    var header := new Byte[12](i requires 0 <= i < 12 => HeaderBytes(hdr)[i]);
    assert header[..] == HeaderBytes(hdr);
    BCopy(header, 0, wire, 0, 12);
    BCopy(data, 0, wire, 12, hdr.length);
  }

  /** Both together: what Send is given, with the sender's address filled in, is what is on the wire. */
  method Send(pktHdr: Header, mailHdr: Header, data: array<Byte>, netAddr: Int32)
    returns (wire: array<Byte>, ghost m: Mail)
    requires mailHdr.length <= data.Length && mailHdr.length <= MAX_MAIL_SIZE
    ensures m == Mail(pktHdr.(from := netAddr, length := mailHdr.length + HEADER_SIZE), mailHdr, data[..mailHdr.length])
    ensures fresh(wire) && wire.Length == MAX_WIRE_SIZE && OnWire(wire[..], m)
  {
    var hdr := pktHdr.(from := netAddr, length := mailHdr.length + HEADER_SIZE);
    var buffer := Concatenate(mailHdr, data);
    m := Mail(hdr, mailHdr, data[..mailHdr.length]);
    wire := PutOnWire(hdr, buffer);
    assert wire[..24 + mailHdr.length] == Message(m);
  }
}
