/**
 * Where the bytes of a completed message came from: one initialisation report and the continuations
 * accepted since, never a mixture of two messages; and, when the padding is zero, exactly the reports
 * that cutting the message would produce.
 */
module Provenance {
  import opened Bytes
  import opened Framing
  import opened FramingTheorems

  // ------------------------------------------------------------ no splicing

  /** The positions in the trace of the reports accepted since the last initialisation packet. */
  ghost function Trail(ch: uint32, trace: seq<Report>): seq<nat>
    decreases |trace|
  {
    if trace == [] then []
    else
      var last := |trace| - 1;
      var before := Trail(ch, trace[..last]);
      if Feed(Run(Fresh(ch), trace[..last]), trace[last]).event.Rejected? then before
      else if IsInit(ch, trace[last]) then [last]
      else before + [last]
  }

  ghost predicate Within(trace: seq<Report>, at: seq<nat>) {
    forall j | 0 <= j < |at| :: at[j] < |trace|
  }

  ghost function Pick(trace: seq<Report>, at: seq<nat>): seq<Report>
    requires Within(trace, at)
  {
    seq(|at|, j requires 0 <= j < |at| => trace[at[j]])
  }

  /** One initialisation packet and the continuations 0, 1, 2, ... after it. */
  ghost predicate OneMessage(ch: uint32, rs: seq<Report>) {
    && rs != []
    && IsInit(ch, rs[0])
    && forall j | 1 <= j < |rs| :: IsCont(ch, rs[j]) && rs[j][4] == j - 1
  }

  /** The payloads of continuations, joined. */
  ghost function ContBytes(ch: uint32, rs: seq<Report>): seq<byte>
    requires forall i | 0 <= i < |rs| :: IsCont(ch, rs[i])
  {
    if rs == [] then [] else assert IsCont(ch, rs[0]); rs[0][5..] + ContBytes(ch, rs[1..])
  }

  /** The payloads of an initialisation packet and its continuations, joined. */
  ghost function Joined(ch: uint32, rs: seq<Report>): seq<byte>
    requires OneMessage(ch, rs)
  {
    rs[0][7..] + ContBytes(ch, rs[1..])
  }

  lemma {:induction false} ContBytesSnoc(ch: uint32, rs: seq<Report>, r: Report)
    requires forall i | 0 <= i < |rs| :: IsCont(ch, rs[i])
    requires IsCont(ch, r)
    ensures ContBytes(ch, rs + [r]) == ContBytes(ch, rs) + r[5..]
  {
    if rs == [] {
      assert rs + [r] == [r];
      assert ContBytes(ch, [r]) == r[5..] + ContBytes(ch, [r][1..]);
    } else {
      assert (rs + [r])[0] == rs[0] && (rs + [r])[1..] == rs[1..] + [r];
      ContBytesSnoc(ch, rs[1..], r);
    }
  }

  ghost predicate Increasing(at: seq<nat>) {
    forall i, j | 0 <= i < j < |at| :: at[i] < at[j]
  }

  /** The reports at these positions are one message's, and no other message began after the first. */
  ghost predicate Uninterrupted(ch: uint32, trace: seq<Report>, at: seq<nat>) {
    && Within(trace, at) && Increasing(at)
    && OneMessage(ch, Pick(trace, at))
    && forall p | at[0] < p < |trace| :: !IsInit(ch, trace[p])
  }

  /** The state after a trace is a function of the reports on its trail. */
  ghost predicate Explains(ch: uint32, trace: seq<Report>, at: seq<nat>, s: State) {
    if at == [] then s == Fresh(ch)
    else
      && Uninterrupted(ch, trace, at)
      && var rs := Pick(trace, at);
      && s.channel == ch
      && s.next == |rs| - 1
      && s.want == Uint16(rs[0][5..7])
      && s.msg == Message(ch, ClearHighBit(rs[0][4]), Joined(ch, rs))
      && (s.started <==> |s.msg.data| < s.want)
  }

  lemma RunSnoc(s: State, trace: seq<Report>)
    requires trace != []
    ensures var last := |trace| - 1;
            Run(s, trace) == Feed(Run(s, trace[..last]), trace[last]).state
  {
    var last := |trace| - 1;
    assert trace == trace[..last] + [trace[last]];
    RunConcat(s, trace[..last], [trace[last]]);
  }

  lemma PickSnoc(ch: uint32, trace: seq<Report>, at: seq<nat>)
    requires trace != [] && Uninterrupted(ch, trace[..|trace| - 1], at)
    requires IsCont(ch, trace[|trace| - 1]) && trace[|trace| - 1][4] == |at| - 1
    ensures var longer := at + [|trace| - 1];
            && Uninterrupted(ch, trace, longer)
            && Joined(ch, Pick(trace, longer)) == Joined(ch, Pick(trace[..|trace| - 1], at)) + trace[|trace| - 1][5..]
            && Pick(trace, longer)[0] == Pick(trace[..|trace| - 1], at)[0]
  {
    var last := |trace| - 1;
    var rs := Pick(trace[..last], at);
    assert Pick(trace, at + [last]) == rs + [trace[last]];
    assert (rs + [trace[last]])[1..] == rs[1..] + [trace[last]];
    ContBytesSnoc(ch, rs[1..], trace[last]);
  }

  lemma {:induction false} TrailExplains(ch: uint32, trace: seq<Report>)
    ensures Explains(ch, trace, Trail(ch, trace), Run(Fresh(ch), trace))
    decreases |trace|
  {
    if trace != [] {
      var last := |trace| - 1;
      var s := Run(Fresh(ch), trace[..last]);
      var at := Trail(ch, trace[..last]);
      TrailExplains(ch, trace[..last]);
      RunSnoc(Fresh(ch), trace);
      if Feed(s, trace[last]).event.Rejected? {
        RejectionExplains(ch, trace, at, s);
      } else if IsInit(ch, trace[last]) {
        RunKeepsChannel(Fresh(ch), trace[..last]);
        InitExplains(ch, trace, s);
      } else {
        ContExplains(ch, trace, at, s);
      }
    }
  }

  lemma RejectionExplains(ch: uint32, trace: seq<Report>, at: seq<nat>, s: State)
    requires trace != [] && Explains(ch, trace[..|trace| - 1], at, s) && s.channel == ch
    requires Feed(s, trace[|trace| - 1]).event.Rejected?
    ensures Explains(ch, trace, at, s)
  {
    if at != [] {
      assert Pick(trace, at) == Pick(trace[..|trace| - 1], at);
    }
  }

  lemma InitExplains(ch: uint32, trace: seq<Report>, s: State)
    requires trace != [] && IsInit(ch, trace[|trace| - 1]) && s.channel == ch
    ensures Explains(ch, trace, [|trace| - 1], Feed(s, trace[|trace| - 1]).state)
  {
    assert Pick(trace, [|trace| - 1]) == [trace[|trace| - 1]];
  }

  lemma ContExplains(ch: uint32, trace: seq<Report>, at: seq<nat>, s: State)
    requires trace != [] && Explains(ch, trace[..|trace| - 1], at, s)
    requires IsCont(ch, trace[|trace| - 1]) && !Feed(s, trace[|trace| - 1]).event.Rejected?
    ensures Explains(ch, trace, at + [|trace| - 1], Feed(s, trace[|trace| - 1]).state)
  {
    PickSnoc(ch, trace, at);
  }

  /** The message that the reports at these positions complete, the last of them being needed. */
  ghost predicate CompletedBy(ch: uint32, trace: seq<Report>, at: seq<nat>, m: Message) {
    && Uninterrupted(ch, trace, at)
    && at[|at| - 1] == |trace| - 1
    && var rs := Pick(trace, at);
    && var want := Uint16(rs[0][5..7]);
    && want <= |Joined(ch, rs)|
    && m == Message(ch, ClearHighBit(rs[0][4]), Joined(ch, rs)[..want])
    && (|rs| > 1 ==> OneMessage(ch, rs[..|rs| - 1]) && |Joined(ch, rs[..|rs| - 1])| < want)
  }

  /** Safety of reassembly on every trace: a completed message is the announced number of bytes of one
      initialisation packet and of the continuations 0..k-1 after it, all on the channel, with no other
      message begun in between, and it completes with the first report that brings enough bytes. */
  lemma NoSplicing(ch: uint32, trace: seq<Report>, m: Message)
    requires trace != []
    requires Feed(Run(Fresh(ch), trace[..|trace| - 1]), trace[|trace| - 1]).event == Done(m)
    ensures exists at :: CompletedBy(ch, trace, at, m)
  {
    var last := |trace| - 1;
    var before := Trail(ch, trace[..last]);
    var s := Run(Fresh(ch), trace[..last]);
    RunKeepsChannel(Fresh(ch), trace[..last]);
    if IsInit(ch, trace[last]) {
      assert Pick(trace, [last]) == [trace[last]];
      assert CompletedBy(ch, trace, [last], m);
    } else {
      TrailExplains(ch, trace[..last]);
      ContCompletes(ch, trace, before, s, m);
    }
  }

  lemma ContCompletes(ch: uint32, trace: seq<Report>, before: seq<nat>, s: State, m: Message)
    requires trace != [] && Explains(ch, trace[..|trace| - 1], before, s)
    requires IsCont(ch, trace[|trace| - 1]) && Feed(s, trace[|trace| - 1]).event == Done(m)
    ensures CompletedBy(ch, trace, before + [|trace| - 1], m)
  {
    var last := |trace| - 1;
    PickSnoc(ch, trace, before);
    assert Pick(trace, before + [last])[..|before|] == Pick(trace[..last], before);
  }

  /** A new initialisation packet discards what was being collected: what follows it is received as if
      nothing had come before. */
  lemma InitForgetsThePast(s: State, r: Report, trace: seq<Report>)
    requires IsInit(s.channel, r)
    ensures Events(s, [r] + trace) == Events(Fresh(s.channel), [r] + trace)
    ensures Run(s, [r] + trace) == Run(Fresh(s.channel), [r] + trace)
  {
    assert ([r] + trace)[1..] == trace;
  }

  // -------------------------------------------------------------- canonicity

  ghost predicate ZeroFrom(b: seq<byte>, n: nat) {
    forall i | n <= i < |b| :: b[i] == 0
  }

  lemma ContFromParts(ch: uint32, number: nat, r: Report, payload: seq<byte>)
    requires IsCont(ch, r) && r[4] == number && |payload| <= CONT_PAYLOAD
    requires r[5..] == payload + Zeros(CONT_PAYLOAD - |payload|)
    ensures ContPacket(ch, number, payload) == r
  {
    PutUint32Inverse(r[..4]);
    assert r == r[..4] + [r[4]] + r[5..];
  }

  lemma InitFromParts(ch: uint32, r: Report, length: uint16, payload: seq<byte>)
    requires IsInit(ch, r) && Uint16(r[5..7]) == length && |payload| <= INIT_PAYLOAD
    requires r[7..] == payload + Zeros(INIT_PAYLOAD - |payload|)
    ensures InitPacket(ch, ClearHighBit(r[4]), length, payload) == r
  {
    PutUint32Inverse(r[..4]);
    PutUint16Inverse(r[5..7]);
    assert r == r[..4] + [r[4]] + r[5..7] + r[7..];
  }

  lemma ZeroTail(b: seq<byte>, n: nat)
    requires n <= |b| && ZeroFrom(b, n)
    ensures b == b[..n] + Zeros(|b| - n)
  {
  }

  lemma LastCont(ch: uint32, number: nat, r: Report, d: seq<byte>)
    requires IsCont(ch, r) && r[4] == number && 0 < |d| <= CONT_PAYLOAD
    requires r[5..] == d + Zeros(CONT_PAYLOAD - |d|)
    ensures Conts(ch, number, d) == [r]
  {
    assert d[..|d|] == d && d[|d|..] == [];
    ContFromParts(ch, number, r, d);
  }

  lemma FullCont(ch: uint32, number: nat, r: Report, d: seq<byte>)
    requires IsCont(ch, r) && r[4] == number && |d| > CONT_PAYLOAD
    requires r[5..] == d[..CONT_PAYLOAD]
    ensures Conts(ch, number, d) == [r] + Conts(ch, number + 1, d[CONT_PAYLOAD..])
  {
    assert d[..CONT_PAYLOAD] + Zeros(0) == d[..CONT_PAYLOAD];
    ContFromParts(ch, number, r, d[..CONT_PAYLOAD]);
  }

  lemma CanonicalLast(s: State, r: Report, m: Message)
    requires s.started && |s.msg.data| < s.want && IsCont(s.channel, r) && |r| == REPORT_SIZE
    requires Feed(s, r).event == Done(m) && ZeroFrom(s.msg.data + r[5..], s.want)
    ensures m.channel == s.msg.channel && m.cmd == s.msg.cmd && |m.data| == s.want && s.msg.data <= m.data
    ensures Conts(s.channel, s.next, m.data[|s.msg.data|..]) == [r]
  {
    var got := |s.msg.data|;
    var left := s.want - got;
    forall i | left <= i < |r[5..]| ensures r[5..][i] == 0 {
      assert r[5..][i] == (s.msg.data + r[5..])[got + i];
    }
    ZeroTail(r[5..], left);
    assert m.data[got..] == r[5..][..left];
    LastCont(s.channel, s.next, r, m.data[got..]);
  }

  lemma {:induction false} CanonicalConts(s: State, rs: seq<Report>, m: Message)
    requires s.started && |s.msg.data| < s.want
    requires forall i | 0 <= i < |rs| :: IsCont(s.channel, rs[i]) && |rs[i]| == REPORT_SIZE
    requires rs != [] && Takes(s, rs, m)
    requires ZeroFrom(s.msg.data + ContBytes(s.channel, rs), s.want)
    ensures m.channel == s.msg.channel && m.cmd == s.msg.cmd && |m.data| == s.want && s.msg.data <= m.data
    ensures rs == Conts(s.channel, s.next, m.data[|s.msg.data|..])
    decreases |rs|
  {
    var r := rs[0];
    if |rs| == 1 {
      assert s.msg.data + ContBytes(s.channel, rs) == s.msg.data + r[5..];
      CanonicalLast(s, r, m);
    } else {
      var s' := Feed(s, r).state;
      assert s' == Extend(s, r) && s'.started && |s'.msg.data| < s.want;
      assert s.msg.data + ContBytes(s.channel, rs) == s'.msg.data + ContBytes(s.channel, rs[1..]);
      CanonicalConts(s', rs[1..], m);
      PrefixSplits(s.msg.data, r[5..], m.data);
      FullCont(s.channel, s.next, r, m.data[|s.msg.data|..]);
    }
  }

  lemma PrefixSplits(a: seq<byte>, b: seq<byte>, c: seq<byte>)
    requires a + b <= c
    ensures a <= c && c[|a|..][..|b|] == b && c[|a|..][|b|..] == c[|a + b|..]
  {
  }

  /** The converse of self-stabilisation: if the reports of a completed message were all 64 bytes and
      zero after the announced length, then cutting the message gives back those reports. */
  lemma ReassembledMessageCutsBack(s: State, rs: seq<Report>, m: Message)
    requires rs != [] && IsInit(s.channel, rs[0])
    requires forall i | 1 <= i < |rs| :: IsCont(s.channel, rs[i])
    requires forall i | 0 <= i < |rs| :: |rs[i]| == REPORT_SIZE
    requires Events(s, rs) == Pendings(|rs| - 1) + [Done(m)]
    requires ZeroFrom(rs[0][7..] + ContBytes(s.channel, rs[1..]), Uint16(rs[0][5..7]))
    ensures Cut(m.channel, m.cmd, m.data) == rs
  {
    TakesIsEvents(s, rs, m);
    var r := rs[0];
    var begun := Begin(s, r);
    var all := r[7..] + ContBytes(s.channel, rs[1..]);
    if |rs| == 1 {
      forall i | begun.want <= i < |r[7..]| ensures r[7..][i] == 0 {
        assert r[7..][i] == all[i];
      }
      ZeroTail(r[7..], begun.want);
      assert m.data[..|m.data|] == m.data && m.data[|m.data|..] == [];
      InitFromParts(s.channel, r, begun.want, m.data);
      assert rs == [r];
    } else {
      CanonicalConts(begun, rs[1..], m);
      assert m.data[..INIT_PAYLOAD] == r[7..];
      assert r[7..] + Zeros(0) == r[7..];
      InitFromParts(s.channel, r, begun.want, r[7..]);
    }
  }

  /** The same on every trace: if the reports a completed message came from are 64 bytes and zero past
      the announced length, they are the packets of that message. */
  lemma CompletedMessageCutsBack(ch: uint32, trace: seq<Report>, at: seq<nat>, m: Message)
    requires CompletedBy(ch, trace, at, m)
    requires forall i | 0 <= i < |at| :: |trace[at[i]]| == REPORT_SIZE
    requires ZeroFrom(Joined(ch, Pick(trace, at)), |m.data|)
    ensures Cut(m.channel, m.cmd, m.data) == Pick(trace, at)
  {
    var rs := Pick(trace, at);
    OneMessageTaken(ch, rs, m);
    TakesIsEvents(Fresh(ch), rs, m);
    ReassembledMessageCutsBack(Fresh(ch), rs, m);
  }

  lemma {:induction false} FullLength(ch: uint32, rs: seq<Report>)
    requires forall i | 0 <= i < |rs| :: IsCont(ch, rs[i]) && |rs[i]| == REPORT_SIZE
    ensures |ContBytes(ch, rs)| == 59 * |rs|
  {
    if rs != [] {
      FullLength(ch, rs[1..]);
    }
  }

  /** One message's whole reports, the last of them needed, are taken one by one and give that message. */
  lemma OneMessageTaken(ch: uint32, rs: seq<Report>, m: Message)
    requires OneMessage(ch, rs) && forall i | 0 <= i < |rs| :: |rs[i]| == REPORT_SIZE
    requires var want := Uint16(rs[0][5..7]);
             && want <= |Joined(ch, rs)|
             && m == Message(ch, ClearHighBit(rs[0][4]), Joined(ch, rs)[..want])
             && (|rs| > 1 ==> OneMessage(ch, rs[..|rs| - 1]) && |Joined(ch, rs[..|rs| - 1])| < want)
    ensures Takes(Fresh(ch), rs, m)
  {
    var begun := Begin(Fresh(ch), rs[0]);
    FullLength(ch, rs[1..]);
    if |rs| == 1 {
      assert rs[0][7..] + [] == rs[0][7..];
    } else {
      FullLength(ch, rs[..|rs| - 1][1..]);
      ContsTaken(begun, rs[1..], m);
    }
  }

  lemma {:induction false} ContsTaken(s: State, rs: seq<Report>, m: Message)
    requires s.started && rs != []
    requires forall i | 0 <= i < |rs| :: IsCont(s.channel, rs[i]) && |rs[i]| == REPORT_SIZE && rs[i][4] == s.next + i
    requires |s.msg.data| + 59 * (|rs| - 1) < s.want <= |s.msg.data| + 59 * |rs|
    requires |s.msg.data + ContBytes(s.channel, rs)| >= s.want
    requires m == s.msg.(data := (s.msg.data + ContBytes(s.channel, rs))[..s.want])
    ensures Takes(s, rs, m)
    decreases |rs|
  {
    var all := s.msg.data + ContBytes(s.channel, rs);
    var r := rs[0];
    assert all == (s.msg.data + r[5..]) + ContBytes(s.channel, rs[1..]);
    if |rs| == 1 {
      assert all == s.msg.data + r[5..];
    } else {
      var s' := Feed(s, r).state;
      assert s' == Extend(s, r);
      ContsTaken(s', rs[1..], m);
    }
  }

  /** Cutting is injective on the messages it may be asked to cut. */
  lemma CutIsInjective(ch: uint32, cmd: byte, data: seq<byte>, ch': uint32, cmd': byte, data': seq<byte>)
    requires |data| <= MAX_MESSAGE && |data'| <= MAX_MESSAGE && cmd < 0x80 && cmd' < 0x80
    requires Cut(ch, cmd, data) == Cut(ch', cmd', data')
    ensures ch == ch' && cmd == cmd' && data == data'
  {
    CutShape(ch, cmd, data);
    CutShape(ch', cmd', data');
    CutDelivers(Fresh(ch), cmd, data);
    CutDelivers(Fresh(ch), cmd', data');
    assert [Message(ch, cmd, data)][0] == [Message(ch', cmd', data')][0];
  }
}
