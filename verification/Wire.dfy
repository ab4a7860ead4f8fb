/**
 * The reports byte by byte: what stands where in the packets of a message, and what a receiver makes of
 * the bytes of a report. Nothing here leans on the functions that write and read the fields.
 */
module Wire {
  import opened Bytes
  import opened Framing
  import opened FramingTheorems

  /** Zero past the end of the data. */
  function ByteAt(data: seq<byte>, n: nat): byte {
    if n < |data| then data[n] else 0
  }

  predicate Addressed(r: Report, ch: uint32) {
    |r| >= 5 && Weigh4(r[0], r[1], r[2], r[3]) == ch
  }

  /** The initialisation packet: channel, command with bit 7, length, and the first 57 bytes. */
  predicate FirstPacket(p: Report, ch: uint32, cmd: byte, data: seq<byte>) {
    && |p| == 64 && Addressed(p, ch)
    && p[4] == (if cmd < 0x80 then cmd + 0x80 else cmd)
    && Weigh2(p[5], p[6]) == |data| % 0x1_0000
    && forall i | 7 <= i < 64 :: p[i] == ByteAt(data, i - 7)
  }

  /** Continuation packet k: channel, number, and the 59 bytes that are its turn. */
  predicate LaterPacket(p: Report, ch: uint32, k: nat, data: seq<byte>) {
    && |p| == 64 && Addressed(p, ch)
    && p[4] == k % 0x100
    && forall i | 5 <= i < 64 :: p[i] == ByteAt(data, 57 + 59 * k + (i - 5))
  }

  lemma ChannelBytes(ch: uint32, r: Report)
    requires |r| >= 5
    ensures Addressed(r, ch) <==> OnChannel(ch, r)
    ensures r[..4] == PutUint32(ch) ==> Addressed(r, ch)
  {
    Uint32Weighs(r[..4]);
    Uint32Inverse(ch);
  }

  lemma InitPacketBytes(ch: uint32, cmd: byte, data: seq<byte>)
    ensures FirstPacket(InitPacket(ch, cmd, |data|, data[..Min(INIT_PAYLOAD, |data|)]), ch, cmd, data)
  {
    var payload := data[..Min(INIT_PAYLOAD, |data|)];
    var p := InitPacket(ch, cmd, |data|, payload);
    ReadInit(ch, cmd, |data|, payload);
    ChannelBytes(ch, p);
    Uint16Weighs(p[5..7]);
    forall i | 7 <= i < 64 ensures p[i] == ByteAt(data, i - 7) {
      assert p[i] == p[7..][i - 7];
    }
  }

  lemma ContPacketBytes(ch: uint32, number: nat, data: seq<byte>)
    ensures var p := ContPacket(ch, number, data[..Min(CONT_PAYLOAD, |data|)]);
            && |p| == 64 && Addressed(p, ch) && p[4] == number % 0x100
            && forall i | 5 <= i < 64 :: p[i] == ByteAt(data, i - 5)
  {
    var payload := data[..Min(CONT_PAYLOAD, |data|)];
    var p := ContPacket(ch, number, payload);
    ReadCont(ch, number, payload);
    ChannelBytes(ch, p);
    forall i | 5 <= i < 64 ensures p[i] == ByteAt(data, i - 5) {
      assert p[i] == p[5..][i - 5];
    }
  }

  lemma {:induction false} ContsBytes(ch: uint32, number: nat, data: seq<byte>, k: nat)
    requires k < |Conts(ch, number, data)|
    ensures var p := Conts(ch, number, data)[k];
            && |p| == 64 && Addressed(p, ch) && p[4] == (number + k) % 0x100
            && forall i | 5 <= i < 64 :: p[i] == ByteAt(data, 59 * k + (i - 5))
    decreases k
  {
    ContPacketBytes(ch, number, data);
    if k > 0 {
      var rest := data[Min(CONT_PAYLOAD, |data|)..];
      assert Conts(ch, number, data)[k] == Conts(ch, number + 1, rest)[k - 1];
      var p := Conts(ch, number + 1, rest)[k - 1];
      ContsBytes(ch, number + 1, rest, k - 1);
      forall i | 5 <= i < 64 ensures p[i] == ByteAt(data, 59 * k + (i - 5)) {
        assert p[i] == ByteAt(rest, 59 * (k - 1) + (i - 5));
        ByteAtRest(data, 59 * (k - 1) + (i - 5));
      }
    }
  }

  lemma ByteAtRest(data: seq<byte>, n: nat)
    ensures ByteAt(data[Min(CONT_PAYLOAD, |data|)..], n) == ByteAt(data, n + 59)
  {
  }

  /** The packets of data of any length, every byte of them. */
  lemma PacketBytes(ch: uint32, cmd: byte, data: seq<byte>)
    ensures var ps := Cut(ch, cmd, data);
            && |ps| == 1 + (if |data| <= 57 then 0 else (|data| - 57 + 58) / 59)
            && FirstPacket(ps[0], ch, cmd, data)
            && forall i | 1 <= i < |ps| :: LaterPacket(ps[i], ch, i - 1, data)
  {
    var ps, n := Cut(ch, cmd, data), Min(INIT_PAYLOAD, |data|);
    CutShape(ch, cmd, data);
    InitPacketBytes(ch, cmd, data);
    forall i | 1 <= i < |ps| ensures LaterPacket(ps[i], ch, i - 1, data) {
      ContsBytes(ch, 0, data[n..], i - 1);
      assert ps[i] == Conts(ch, 0, data[n..])[i - 1];
    }
  }

  /** The packets of a message short enough to be sent. */
  predicate Carries(ps: seq<Report>, ch: uint32, cmd: byte, data: seq<byte>) {
    && |ps| == 1 + (if |data| <= 57 then 0 else (|data| - 57 + 58) / 59)
    && FirstPacket(ps[0], ch, cmd, data) && Weigh2(ps[0][5], ps[0][6]) == |data|
    && forall i | 1 <= i < |ps| :: LaterPacket(ps[i], ch, i - 1, data) && ps[i][4] == i - 1
  }

  lemma CutCarries(ch: uint32, cmd: byte, data: seq<byte>)
    requires |data| <= 7609
    ensures Carries(Cut(ch, cmd, data), ch, cmd, data)
  {
    PacketBytes(ch, cmd, data);
    AllNumbered(Cut(ch, cmd, data), ch, cmd, data);
  }

  lemma AllNumbered(ps: seq<Report>, ch: uint32, cmd: byte, data: seq<byte>)
    requires |data| <= 7609 && |ps| == 1 + (if |data| <= 57 then 0 else (|data| - 57 + 58) / 59)
    requires FirstPacket(ps[0], ch, cmd, data) && forall i | 1 <= i < |ps| :: LaterPacket(ps[i], ch, i - 1, data)
    ensures Carries(ps, ch, cmd, data)
  {
    forall i | 1 <= i < |ps| ensures LaterPacket(ps[i], ch, i - 1, data) && ps[i][4] == i - 1 {
      Numbered(ps[i], ch, i - 1, data);
    }
  }

  lemma Numbered(p: Report, ch: uint32, k: nat, data: seq<byte>)
    requires LaterPacket(p, ch, k, data) && k < 0x100
    ensures p[4] == k
  {
  }

  /** A receiver that takes an initialisation packet: the message is whole exactly if the report holds as
      many bytes as its length field announces. */
  predicate BeginsMessage(ch: uint32, r: Report, event: Event)
    requires |r| >= 7 && r[4] >= 0x80
  {
    var announced := Weigh2(r[5], r[6]);
    event == if |r| - 7 >= announced then Done(Message(ch, r[4] - 0x80, r[7..7 + announced])) else Pending
  }

  /** What a receiver makes of the bytes of a report, whatever they are. */
  lemma ReportMeans(s: State, r: Report)
    ensures var step := Feed(s, r);
            if |r| < 5 then step.event == Rejected(ShortPacket)
            else if !Addressed(r, s.channel) then step.event == Rejected(WrongChannel)
            else if r[4] >= 0x80 && |r| < 7 then step.event == Rejected(ShortPacket)
            else if r[4] >= 0x80 then
              && BeginsMessage(s.channel, r, step.event)
              && step.state == State(s.channel, Message(s.channel, r[4] - 0x80, r[7..]), Weigh2(r[5], r[6]), 0, step.event.Pending?)
            else if !s.started || r[4] != s.next then step.event == Rejected(OutOfOrder)
            else
              var got := s.msg.(data := s.msg.data + r[5..]);
              && step.event == (if |got.data| < s.want then Pending else Done(got.(data := got.data[..s.want])))
              && step.state == s.(msg := got, next := s.next + 1, started := step.event.Pending?)
  {
    if |r| >= 5 {
      ChannelBytes(s.channel, r);
      if |r| >= 7 {
        Uint16Weighs(r[5..7]);
      }
    }
  }
}
