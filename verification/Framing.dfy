/** The two hand-rolled wire clients: length-framed with a checksum, and
    newline-delimited. Reads return arbitrary pieces of the stream. */
module Framing {
  import opened Seqs
  import opened Wrappers

  type Byte = b: int | 0 <= b < 256

  /** CRC-32 of a byte string; any function of the right range will do. */
  type Checksum = c: seq<Byte> -> nat | forall s :: c(s) < 0x1_0000_0000 witness (_ => 0)

  // ---- Fixed-width integers ----------------------------------------------------

  function Pow256(width: nat): (p: nat)
    ensures p > 0
  {
    if width == 0 then 1 else 256 * Pow256(width - 1)
  }

  function BigEndian(n: nat, width: nat): (bs: seq<Byte>)
    ensures |bs| == width
  {
    if width == 0 then [] else BigEndian(n / 256, width - 1) + [n % 256]
  }

  function FromBigEndian(bs: seq<Byte>): nat {
    if bs == [] then 0 else 256 * FromBigEndian(bs[..|bs| - 1]) + bs[|bs| - 1]
  }

  function LittleEndian(n: nat, width: nat): (bs: seq<Byte>)
    ensures |bs| == width
  {
    if width == 0 then [] else [n % 256] + LittleEndian(n / 256, width - 1)
  }

  function FromLittleEndian(bs: seq<Byte>): nat {
    if bs == [] then 0 else bs[0] + 256 * FromLittleEndian(bs[1..])
  }

  lemma {:induction false} BigEndianRoundTrip(n: nat, width: nat)
    requires n < Pow256(width)
    ensures FromBigEndian(BigEndian(n, width)) == n
  {
    if width > 0 {
      BigEndianRoundTrip(n / 256, width - 1);
      var front := BigEndian(n / 256, width - 1);
      assert (front + [n % 256])[..|front|] == front;
    }
  }

  lemma {:induction false} LittleEndianRoundTrip(n: nat, width: nat)
    requires n < Pow256(width)
    ensures FromLittleEndian(LittleEndian(n, width)) == n
  {
    if width > 0 {
      LittleEndianRoundTrip(n / 256, width - 1);
      var rest := LittleEndian(n / 256, width - 1);
      assert ([n % 256] + rest)[1..] == rest;
    }
  }

  lemma Widths()
    ensures Pow256(2) == 0x1_0000 && Pow256(4) == 0x1_0000_0000
    ensures Pow256(8) == 0x1_0000_0000_0000_0000
  {
    assert Pow256(1) == 256 * Pow256(0);
    assert Pow256(3) == 256 * Pow256(2);
    assert Pow256(5) == 256 * Pow256(4) && Pow256(6) == 256 * Pow256(5) && Pow256(7) == 256 * Pow256(6);
  }

  // ---- Native frames --------------------------------------------------------------

  const MAGIC: seq<Byte> := [0x41, 0x4B, 0x51, 0x4C]
  const HEADER_BYTES: nat := 22

  datatype Message = Message(flags: nat, id: nat, kind: nat, payload: seq<Byte>)

  /** What a receiver reports: the response bit, the kind and the payload. */
  datatype View = View(response: nat, kind: nat, payload: seq<Byte>)

  predicate Encodable(m: Message) {
    m.flags < Pow256(2) && m.id < Pow256(8) && m.kind < Pow256(2) && |m.payload| < Pow256(4)
  }

  function ViewOf(m: Message): View {
    View(m.flags % 2, m.kind, m.payload)
  }

  function HeaderOf(m: Message): (h: seq<Byte>)
    ensures |h| == HEADER_BYTES
  {
    MAGIC + BigEndian(1, 2) + BigEndian(m.flags, 2) + BigEndian(m.id, 8) + BigEndian(m.kind, 2)
    + BigEndian(|m.payload|, 4)
  }

  function Encode(m: Message, crc: Checksum): seq<Byte> {
    HeaderOf(m) + m.payload + LittleEndian(crc(HeaderOf(m) + m.payload), 4)
  }

  datatype Received = Closed | BadMagic | BadChecksum | Decoded(view: View)

  function PayloadLength(header: seq<Byte>): nat
    requires |header| == HEADER_BYTES
  {
    FromBigEndian(header[18..22])
  }

  /** The first message of a byte stream, and what is left after it. */
  function Decode(s: seq<Byte>, crc: Checksum): (Received, seq<Byte>) {
    if |s| < HEADER_BYTES then (Closed, [])
    else
      var header := s[..HEADER_BYTES];
      if header[..4] != MAGIC then (BadMagic, s[HEADER_BYTES..])
      else
        var n := PayloadLength(header);
        if |s| < HEADER_BYTES + n + 4 then (Closed, [])
        else
          var payload, rest := s[HEADER_BYTES..HEADER_BYTES + n], s[HEADER_BYTES + n + 4..];
          if crc(header + payload) != FromLittleEndian(s[HEADER_BYTES + n..HEADER_BYTES + n + 4])
          then (BadChecksum, rest)
          else (Decoded(View(FromBigEndian(header[6..8]) % 2, FromBigEndian(header[16..18]), payload)), rest)
  }

  lemma HeaderSlices(
    a: seq<Byte>, b: seq<Byte>, c: seq<Byte>, d: seq<Byte>, e: seq<Byte>, f: seq<Byte>)
    requires |a| == 4 && |b| == 2 && |c| == 2 && |d| == 8 && |e| == 2 && |f| == 4
    ensures var h := a + b + c + d + e + f;
      h[..4] == a && h[6..8] == c && h[16..18] == e && h[18..22] == f
  {
  }

  lemma FrameParts(h: seq<Byte>, p: seq<Byte>, sum: seq<Byte>, rest: seq<Byte>)
    requires |h| == HEADER_BYTES && |sum| == 4
    ensures var s, n := h + p + sum + rest, |p|;
      && |s| >= 22 + n + 4 && s[..22] == h && s[22..22 + n] == p
      && s[22 + n..22 + n + 4] == sum && s[22 + n + 4..] == rest
  {
  }

  lemma HeaderFields(m: Message)
    requires Encodable(m)
    ensures var h := HeaderOf(m);
      && h[..4] == MAGIC
      && FromBigEndian(h[6..8]) == m.flags
      && FromBigEndian(h[16..18]) == m.kind
      && PayloadLength(h) == |m.payload|
  {
    HeaderSlices(MAGIC, BigEndian(1, 2), BigEndian(m.flags, 2), BigEndian(m.id, 8),
                 BigEndian(m.kind, 2), BigEndian(|m.payload|, 4));
    BigEndianRoundTrip(m.flags, 2);
    BigEndianRoundTrip(m.kind, 2);
    BigEndianRoundTrip(|m.payload|, 4);
  }

  /** The number `high`, one more byte behind it. */
  ghost function Then(high: int, low: int): int {
    256 * high + low
  }

  lemma BigNext(bs: seq<Byte>, n: nat)
    requires 0 < n <= |bs|
    ensures FromBigEndian(bs[..n]) == Then(FromBigEndian(bs[..n - 1]), bs[n - 1])
  {
    assert bs[..n][..n - 1] == bs[..n - 1];
  }

  lemma Big2(bs: seq<Byte>)
    requires |bs| >= 2
    ensures FromBigEndian(bs[..2]) == Then(bs[0], bs[1])
  {
    BigNext(bs, 1);
    BigNext(bs, 2);
  }

  lemma Big4(bs: seq<Byte>)
    requires |bs| >= 4
    ensures FromBigEndian(bs[..4]) == Then(Then(Then(bs[0], bs[1]), bs[2]), bs[3])
  {
    Big2(bs);
    BigNext(bs, 3);
    BigNext(bs, 4);
  }

  lemma Big8(bs: seq<Byte>)
    requires |bs| >= 8
    ensures FromBigEndian(bs[..8]) ==
      Then(Then(Then(Then(Then(Then(Then(bs[0], bs[1]), bs[2]), bs[3]), bs[4]), bs[5]), bs[6]), bs[7])
  {
    Big4(bs);
    BigNext(bs, 5);
    BigNext(bs, 6);
    BigNext(bs, 7);
    BigNext(bs, 8);
  }

  lemma LittleNext(bs: seq<Byte>, n: nat)
    requires n < |bs|
    ensures FromLittleEndian(bs[n..]) == Then(FromLittleEndian(bs[n + 1..]), bs[n])
  {
    assert bs[n..][1..] == bs[n + 1..];
  }

  lemma Little4(bs: seq<Byte>)
    requires |bs| == 4
    ensures FromLittleEndian(bs) == Then(Then(Then(bs[3], bs[2]), bs[1]), bs[0])
  {
    LittleNext(bs, 3);
    LittleNext(bs, 2);
    LittleNext(bs, 1);
    LittleNext(bs, 0);
    assert bs[0..] == bs;
  }

  /** The 22 header bytes one by one: magic, version 1, flags, id, kind and
      payload length, the most significant byte first. */
  lemma HeaderBytes(m: Message)
    requires Encodable(m)
    ensures var h := HeaderOf(m);
      && h[0] == 0x41 && h[1] == 0x4B && h[2] == 0x51 && h[3] == 0x4C && h[4] == 0 && h[5] == 1
      && Then(h[6], h[7]) == m.flags && Then(h[16], h[17]) == m.kind
      && Then(Then(Then(Then(Then(Then(Then(h[8], h[9]), h[10]), h[11]), h[12]), h[13]), h[14]), h[15]) == m.id
      && Then(Then(Then(h[18], h[19]), h[20]), h[21]) == |m.payload|
  {
    var flags, id, kind, length := BigEndian(m.flags, 2), BigEndian(m.id, 8), BigEndian(m.kind, 2), BigEndian(|m.payload|, 4);
    BigEndianRoundTrip(m.flags, 2);
    BigEndianRoundTrip(m.id, 8);
    BigEndianRoundTrip(m.kind, 2);
    BigEndianRoundTrip(|m.payload|, 4);
    TakeAll(flags);
    TakeAll(id);
    TakeAll(kind);
    TakeAll(length);
    Big2(flags);
    Big8(id);
    Big2(kind);
    Big4(length);
    BigEndianOne();
    HeaderIndexes(MAGIC, BigEndian(1, 2), flags, id, kind, length);
  }

  lemma BigEndianOne()
    ensures BigEndian(1, 2) == [0, 1]
  {
    assert BigEndian(0, 1) == BigEndian(0, 0) + [0] == [0];
  }

  lemma HeaderIndexes(
    a: seq<Byte>, b: seq<Byte>, c: seq<Byte>, d: seq<Byte>, e: seq<Byte>, f: seq<Byte>)
    requires |a| == 4 && |b| == 2 && |c| == 2 && |d| == 8 && |e| == 2 && |f| == 4
    ensures var h := a + b + c + d + e + f;
      && (forall i :: 0 <= i < 4 ==> h[i] == a[i]) && (forall i :: 0 <= i < 2 ==> h[4 + i] == b[i])
      && (forall i :: 0 <= i < 2 ==> h[6 + i] == c[i]) && (forall i :: 0 <= i < 8 ==> h[8 + i] == d[i])
      && (forall i :: 0 <= i < 2 ==> h[16 + i] == e[i]) && (forall i :: 0 <= i < 4 ==> h[18 + i] == f[i])
  {
  }

  /** The frame: header, payload, and the checksum of both, its least
      significant byte first. */
  lemma FrameBytes(m: Message, crc: Checksum)
    requires Encodable(m)
    ensures var s, n := Encode(m, crc), |m.payload|;
      && |s| == 22 + n + 4 && s[..22] == HeaderOf(m) && s[22..22 + n] == m.payload
      && Then(Then(Then(s[25 + n], s[24 + n]), s[23 + n]), s[22 + n]) == crc(s[..22 + n])
  {
    var h, sum := HeaderOf(m), LittleEndian(crc(HeaderOf(m) + m.payload), 4);
    ConcatNil(h + m.payload + sum);
    FrameParts(h, m.payload, sum, []);
    assert Encode(m, crc)[..22 + |m.payload|] == h + m.payload;
    Widths();
    LittleEndianRoundTrip(crc(h + m.payload), 4);
    Little4(sum);
  }

  /** Decoding a stream that starts with a frame gives its message and leaves
      the rest of the stream. */
  lemma DecodeEncoded(m: Message, rest: seq<Byte>, crc: Checksum)
    requires Encodable(m)
    ensures Decode(Encode(m, crc) + rest, crc) == (Decoded(ViewOf(m)), rest)
  {
    var h := HeaderOf(m);
    var sum := LittleEndian(crc(h + m.payload), 4);
    FrameParts(h, m.payload, sum, rest);
    HeaderFields(m);
    Widths();
    LittleEndianRoundTrip(crc(h + m.payload), 4);
  }

  function EncodeAll(ms: seq<Message>, crc: Checksum): seq<Byte> {
    if ms == [] then [] else Encode(ms[0], crc) + EncodeAll(ms[1..], crc)
  }

  // ---- The socket -------------------------------------------------------------------

  /** One end of a connection: bytes still to come, bytes already sent. */
  class Socket {
    var incoming: seq<Byte>
    var outgoing: seq<Byte>

    constructor (stream: seq<Byte>)
      ensures incoming == stream && outgoing == []
    {
      incoming, outgoing := stream, [];
    }

    /** At most `n` bytes, cut anywhere; nothing only at the end of the stream. */
    method Recv(n: nat) returns (chunk: seq<Byte>)
      modifies this`incoming
      ensures chunk + incoming == old(incoming) && |chunk| <= n
      ensures chunk == [] ==> n == 0 || old(incoming) == []
    {
      if n == 0 || incoming == [] {
        return [];
      }
      var k :| 1 <= k <= n && k <= |incoming|;
      chunk := incoming[..k];
      incoming := incoming[k..];
    }

    method SendAll(bytes: seq<Byte>)
      modifies this`outgoing
      ensures outgoing == old(outgoing) + bytes
    {
      outgoing := outgoing + bytes;
    }
  }

  /** `_read_exact`: exactly `n` bytes, or the stream ended first. */
  method ReadExact(sock: Socket, n: nat) returns (r: Option<seq<Byte>>)
    modifies sock`incoming
    ensures n <= |old(sock.incoming)| ==>
      r == Some(old(sock.incoming)[..n]) && sock.incoming == old(sock.incoming)[n..]
    ensures n > |old(sock.incoming)| ==> r == None && sock.incoming == []
  {
    var buf: seq<Byte> := [];
    while |buf| < n
      invariant |buf| <= n && buf + sock.incoming == old(sock.incoming)
      decreases n - |buf|
    {
      var chunk := sock.Recv(n - |buf|);
      if chunk == [] {
        return None;
      }
      buf := buf + chunk;
    }
    r := Some(buf);
  }

  class Native {
    const sock: Socket
    const crc: Checksum
    var nid: nat
    var sent: nat
    var recvd: nat

    constructor (sock: Socket, crc: Checksum)
      ensures this.sock == sock && this.crc == crc && nid == 0 && sent == 0 && recvd == 0
    {
      this.sock, this.crc := sock, crc;
      nid, sent, recvd := 0, 0, 0;
    }

    /** `send`: a field too large for its width raises before anything is
        sent, after the id was taken. */
    method Send(kind: nat, body: seq<Byte>) returns (r: Option<nat>)
      modifies this`nid, this`sent, sock`outgoing
      ensures nid == old(nid) + 1
      ensures var m := Message(0, nid, kind, body);
        if Encodable(m)
        then r == Some(nid) && sock.outgoing == old(sock.outgoing) + Encode(m, crc)
          && sent == old(sent) + |Encode(m, crc)|
        else r == None && sock.outgoing == old(sock.outgoing) && sent == old(sent)
    {
      nid := nid + 1;
      var m := Message(0, nid, kind, body);
      if !Encodable(m) {
        return None;
      }
      var header := HeaderOf(m);
      var frame := header + body + LittleEndian(crc(header + body), 4);
      sock.SendAll(frame);
      sent := sent + |frame|;
      r := Some(nid);
    }

    /** `recv`: decodes the head of the stream whatever the cuts, and counts
        exactly the bytes of a delivered message. */
    method Receive() returns (r: Received)
      modifies this`recvd, sock`incoming
      ensures (r, sock.incoming) == Decode(old(sock.incoming), crc)
      ensures recvd == old(recvd) + (if r.Decoded? then |old(sock.incoming)| - |sock.incoming| else 0)
    {
      ghost var s := sock.incoming;
      var header := ReadExact(sock, HEADER_BYTES);
      if header.None? {
        return Closed;
      }
      if header.value[..4] != MAGIC {
        return BadMagic;
      }
      var n := PayloadLength(header.value);
      var payload := ReadExact(sock, n);
      if payload.None? {
        return Closed;
      }
      var sum := ReadExact(sock, 4);
      if sum.None? {
        return Closed;
      }
      FrameSlices(s, n);
      if crc(header.value + payload.value) != FromLittleEndian(sum.value) {
        return BadChecksum;
      }
      recvd := recvd + HEADER_BYTES + n + 4;
      r := Decoded(View(FromBigEndian(header.value[6..8]) % 2, FromBigEndian(header.value[16..18]), payload.value));
    }

    /** A stream that starts with a frame delivers its message and leaves the
        rest, however it is cut. */
    method ReceiveFrame(ghost m: Message, ghost rest: seq<Byte>) returns (view: View)
      requires Encodable(m) && sock.incoming == Encode(m, crc) + rest
      modifies this`recvd, sock`incoming
      ensures view == ViewOf(m) && sock.incoming == rest && recvd == old(recvd) + |Encode(m, crc)|
    {
      DecodeEncoded(m, rest, crc);
      var r := Receive();
      view := r.view;
    }

    /** Any run of receives over encoded messages delivers them all, in order,
        and counts every byte once. */
    method ReceiveAll(ghost ms: seq<Message>, count: nat) returns (views: seq<View>)
      requires count == |ms| && forall m :: m in ms ==> Encodable(m)
      requires sock.incoming == EncodeAll(ms, crc)
      modifies this`recvd, sock`incoming
      ensures views == Views(ms)
      ensures sock.incoming == [] && recvd == old(recvd) + |EncodeAll(ms, crc)|
    {
      views := [];
      ghost var todo, total := ms, recvd + |sock.incoming|;
      ConcatNil(Views(ms));
      while |views| < count
        invariant |views| + |todo| == count && (forall m :: m in todo ==> Encodable(m))
        invariant sock.incoming == EncodeAll(todo, crc) && views + Views(todo) == Views(ms)
        invariant recvd + |sock.incoming| == total
      {
        ConsTail(todo);
        Assoc(views, [ViewOf(todo[0])], Views(todo[1..]));
        var view := ReceiveFrame(todo[0], EncodeAll(todo[1..], crc));
        views, todo := views + [view], todo[1..];
      }
      ConcatNil(views);
    }
  }

  function Views(ms: seq<Message>): seq<View> {
    if ms == [] then [] else [ViewOf(ms[0])] + Views(ms[1..])
  }

  lemma FrameSlices(s: seq<Byte>, n: nat)
    requires |s| >= HEADER_BYTES + n + 4
    ensures s[HEADER_BYTES..][..n] == s[HEADER_BYTES..HEADER_BYTES + n]
    ensures s[HEADER_BYTES..][n..][..4] == s[HEADER_BYTES + n..HEADER_BYTES + n + 4]
    ensures s[HEADER_BYTES..][n..][4..] == s[HEADER_BYTES + n + 4..]
  {
  }

  // ---- Newline-delimited frames ---------------------------------------------------------

  const NEWLINE: Byte := 10

  /** Position of the first newline. */
  function FirstNewline(s: seq<Byte>): (i: nat)
    requires NEWLINE in s
    ensures i < |s| && s[i] == NEWLINE && NEWLINE !in s[..i]
  {
    if s[0] == NEWLINE then 0 else
      ConsTail(s);
      var i := 1 + FirstNewline(s[1..]);
      assert s[..i] == [s[0]] + s[1..][..i - 1];
      i
  }

  /** A stream splits at its first newline in one way only. */
  lemma LineUnique(a: seq<Byte>, x: seq<Byte>, b: seq<Byte>, y: seq<Byte>)
    requires NEWLINE !in a && NEWLINE !in b
    requires a + [NEWLINE] + x == b + [NEWLINE] + y
    ensures a == b && x == y
  {
    var s, t := a + [NEWLINE] + x, b + [NEWLINE] + y;
    assert forall i :: 0 <= i < |a| ==> s[i] == a[i];
    assert forall i :: 0 <= i < |b| ==> t[i] == b[i];
    assert s[|a|] == NEWLINE && t[|b|] == NEWLINE;
    assert |a| == |b|;
    assert a == s[..|a|] && b == t[..|b|] && x == s[|a| + 1..] && y == t[|b| + 1..];
  }

  function Lines(ls: seq<seq<Byte>>): seq<Byte> {
    if ls == [] then [] else ls[0] + [NEWLINE] + Lines(ls[1..])
  }

  class McpRaw {
    const sock: Socket
    var buf: seq<Byte>
    var nid: nat
    var sent: nat
    var recvd: nat

    constructor (sock: Socket)
      ensures this.sock == sock && buf == [] && nid == 0 && sent == 0 && recvd == 0
    {
      this.sock := sock;
      buf, nid, sent, recvd := [], 0, 0, 0;
    }

    /** Bytes received or still to come that no line has used. */
    ghost function Unread(): seq<Byte>
      reads this, sock
    {
      buf + sock.incoming
    }

    /** `recv`: takes the first line of the unread bytes. */
    method Receive() returns (r: Option<seq<Byte>>)
      modifies this`buf, this`recvd, sock`incoming
      ensures r.Some? <==> NEWLINE in old(Unread())
      ensures r.Some? ==>
        && NEWLINE !in r.value
        && old(Unread()) == r.value + [NEWLINE] + Unread()
        && recvd == old(recvd) + |old(Unread())| - |Unread()|
      ensures r.None? ==> buf == old(Unread()) && sock.incoming == [] && recvd == old(recvd)
    {
      ghost var stream := Unread();
      while NEWLINE !in buf
        invariant buf + sock.incoming == stream && recvd == old(recvd)
        decreases |sock.incoming|
      {
        var chunk := sock.Recv(4096);
        if chunk == [] {
          return None;
        }
        buf := buf + chunk;
      }
      assert NEWLINE in stream;
      var i := FirstNewline(buf);
      var line := buf[..i];
      assert stream == line + [NEWLINE] + (buf[i + 1..] + sock.incoming);
      buf := buf[i + 1..];
      recvd := recvd + |line| + 1;
      r := Some(line);
    }

    /** `call`: one numbered request line out, one line back. The request text
        is whatever the encoder makes of the id. */
    method Call(request: nat -> seq<Byte>) returns (r: Option<seq<Byte>>)
      modifies this`buf, this`nid, this`sent, this`recvd, sock`incoming, sock`outgoing
      ensures nid == old(nid) + 1
      ensures sock.outgoing == old(sock.outgoing) + request(nid) + [NEWLINE]
      ensures sent == old(sent) + |request(nid)| + 1
      ensures r.Some? <==> NEWLINE in old(Unread())
      ensures r.Some? ==>
        NEWLINE !in r.value && old(Unread()) == r.value + [NEWLINE] + Unread()
        && recvd == old(recvd) + |old(Unread())| - |Unread()|
      ensures r.None? ==> buf == old(Unread()) && sock.incoming == [] && recvd == old(recvd)
    {
      nid := nid + 1;
      var frame := request(nid) + [NEWLINE];
      sock.SendAll(frame);
      sent := sent + |frame|;
      r := Receive();
    }

    /** Any run of receives over newline-free lines delivers them all. */
    method ReceiveAll(ls: seq<seq<Byte>>) returns (lines: seq<seq<Byte>>)
      requires forall i :: 0 <= i < |ls| ==> NEWLINE !in ls[i]
      requires Unread() == Lines(ls)
      modifies this`buf, this`recvd, sock`incoming
      ensures lines == ls && Unread() == [] && recvd == old(recvd) + |Lines(ls)|
    {
      lines := [];
      for i := 0 to |ls|
        invariant Unread() == Lines(ls[i..]) && lines == ls[..i]
        invariant recvd + |Unread()| == old(recvd) + |Lines(ls)|
      {
        assert ls[i..][1..] == ls[i + 1..];
        var rest := Lines(ls[i + 1..]);
        assert Unread() == ls[i] + [NEWLINE] + rest;
        assert (ls[i] + [NEWLINE] + rest)[|ls[i]|] == NEWLINE;
        var r := Receive();
        LineUnique(r.value, Unread(), ls[i], rest);
        lines := lines + [r.value];
      }
      assert ls[|ls|..] == [];
    }
  }
}
