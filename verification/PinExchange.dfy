/**
 * The PIN exchange as it runs over a key, and what it comes to against any authenticator.
 */
module PinExchange {
  import opened Bytes
  import opened Wrappers
  import opened Framing
  import opened Session
  import opened PinProtocol
  import opened ClientPin
  import Keys

  // ------------------------------------------------- what the two requests say

  /** The call that asks for a key to agree with: a CBOR message of the clientPIN command and a map that
      names the protocol and the subcommand. */
  function KeyRequest(env: Env, ch: uint32, proto: int64, faults: seq<bool>): Call {
    Keys.Attempt(ch, 0x10, [0x06] + Raw(env.codec, Map(map[0x01 := Int(proto), 0x02 := Int(0x02)])), faults)
  }

  lemma KeyRequestIsMade(env: Env, caps: byte, ch: uint32, proto: int64, link: Link)
    ensures var calls := AskForKey(env, caps, ch, proto, link).calls;
            && (calls == [] || calls == [KeyRequest(env, ch, proto, link.faults)])
            && (calls != [] <==> caps / 4 % 2 == 1 && env.codec.encode(Map(map[0x01 := Int(proto), 0x02 := Int(0x02)])).Some?)
  {
  }

  /** The call that asks for a token from the authenticator whose point is pub. */
  ghost predicate TokenRequested(env: Env, ch: uint32, o: Order, pub: seq<byte>, faults: seq<bool>, c: Call) {
    exists request, keys ::
      SaysToken(env, o, pub, request, keys) && c == Keys.Attempt(ch, 0x10, [0x06] + Raw(env.codec, Map(request)), faults)
  }

  lemma TokenRequestIsMade(env: Env, ch: uint32, o: Order, pub: seq<byte>, link: Link)
    ensures var calls := AskForToken(env, ch, o, pub, link).calls;
            calls == [] || (|calls| == 1 && TokenRequested(env, ch, o, pub, link.faults, calls[0]))
  {
    if Prepare(env, o, pub).Ok? {
      PrepareSays(env, o, pub);
      var (request, keys) := Prepare(env, o, pub).value;
      assert SaysToken(env, o, pub, request, keys);
    }
  }

  /** No call, the first request, or both; the second to the authenticator that answered the first. */
  ghost predicate AsksForToken(env: Env, caps: byte, ch: uint32, o: Order, link: Link, calls: seq<Call>) {
    || calls == []
    || calls == [KeyRequest(env, ch, o.proto, link.faults)]
    || (|calls| == 2 && calls[0] == KeyRequest(env, ch, o.proto, link.faults) &&
        var agreed := AskForKey(env, caps, ch, o.proto, link);
        agreed.pub.Ok? && TokenRequested(env, ch, o, agreed.pub.value, agreed.link.faults, calls[1]))
  }

  lemma ExchangeAsks(env: Env, caps: byte, ch: uint32, o: Order, link: Link)
    ensures AsksForToken(env, caps, ch, o, link, Exchange(env, caps, ch, o, link).calls)
  {
    if SpeaksCtap2(caps) && o.pin != [] {
      var first := ExchangeSplits(env, caps, ch, o, link);
      KeyRequestIsMade(env, caps, ch, o.proto, link);
      if first.pub.Ok? {
        TokenRequestIsMade(env, ch, o, first.pub.value, first.link);
        FirstAndMore(first.calls, AskForToken(env, ch, o, first.pub.value, first.link).calls);
      }
    }
  }

  lemma FirstAndMore(first: seq<Call>, second: seq<Call>)
    requires |first| <= 1 && |second| <= 1
    ensures second == [] ==> first + second == first
    ensures |first| == 1 && |second| == 1 ==> first + second == [first[0], second[0]]
  {
  }

  // ------------------------------------------------------------ over a key

  method CborCall(env: Env, k: Keys.Key, params: map<int, Value>) returns (body: Result<seq<byte>, Failure>)
    requires k.Valid() && k.t != null
    modifies k`calls, k`outcomes, k.t
    ensures k.Valid() && k.t.closed == old(k.t.closed)
    ensures var asked := Ask(env, k.channel, params, Link(old(k.t.faults), old(k.t.inbox)));
            && body == asked.body && Link(k.t.faults, k.t.inbox) == asked.link
            && k.calls == old(k.calls) + asked.calls
            && k.t.sent == old(k.t.sent) + SentLog(k.channel, asked.calls)
  {
    var b := env.codec.encode(Map(params));
    if b.None? {
      return Err(CannotEncode);
    }
    OneCall(k.channel, Keys.Attempt(k.channel, CMD_CBOR, CommandBytes(b.value), k.t.faults), k.t.inbox);
    var outcome := k.RoundTrip(CMD_CBOR, CommandBytes(b.value));
    if !outcome.Reply? {
      return Err(NoBody(NotReplied(outcome)));
    }
    if |outcome.data| == 0 {
      return Err(NoBody(NoStatus));
    }
    if outcome.data[0] != STATUS_OK {
      return Err(NoBody(Status(outcome.data[0])));
    }
    return Ok(outcome.data[1..]);
  }

  method KeyAgreement(env: Env, k: Keys.Key, proto: int64) returns (pub: Result<seq<byte>, Failure>)
    requires k.Valid() && k.t != null
    modifies k`calls, k`outcomes, k.t
    ensures k.Valid() && k.t.closed == old(k.t.closed)
    ensures var agreed := AskForKey(env, k.caps, k.channel, proto, Link(old(k.t.faults), old(k.t.inbox)));
            && pub == agreed.pub && Link(k.t.faults, k.t.inbox) == agreed.link
            && k.calls == old(k.calls) + agreed.calls
            && k.t.sent == old(k.t.sent) + SentLog(k.channel, agreed.calls)
    ensures k.calls == old(k.calls) || k.calls == old(k.calls) + [KeyRequest(env, k.channel, proto, old(k.t.faults))]
  {
    KeyRequestIsMade(env, k.caps, k.channel, proto, Link(k.t.faults, k.t.inbox));
    if !SpeaksCtap2(k.caps) {
      return Err(NotCtap2);
    }
    var body := CborCall(env, k, AgreementRequest(proto));
    if body.Err? {
      return Err(body.error);
    }
    var fields := env.codec.fields(body.value);
    if fields.None? {
      return Err(ReplyNotAMap);
    }
    if RESP_KEY_AGREEMENT !in fields.value {
      return Err(NoAgreementKey);
    }
    var read := CoseToEcdh(env, fields.value[RESP_KEY_AGREEMENT]);
    if read.Err? {
      return Err(BadAgreementKey(read.error));
    }
    return Ok(read.value);
  }

  /** Exchanges a PIN for a token; what is sent for it is the packets of the exchange's calls. */
  method PINToken(env: Env, k: Keys.Key, o: Order) returns (token: Result<Token, Failure>)
    requires k.Valid() && k.t != null
    modifies k`calls, k`outcomes, k.t
    ensures k.Valid() && k.t.closed == old(k.t.closed)
    ensures var x := Exchange(env, k.caps, k.channel, o, Link(old(k.t.faults), old(k.t.inbox)));
            && token == x.token && Link(k.t.faults, k.t.inbox) == x.link
            && k.calls == old(k.calls) + x.calls
            && k.t.sent == old(k.t.sent) + SentLog(k.channel, x.calls)
    ensures var link := Link(old(k.t.faults), old(k.t.inbox));
            AsksForToken(env, k.caps, k.channel, o, link, Exchange(env, k.caps, k.channel, o, link).calls)
    ensures !SpeaksCtap2(k.caps) || o.pin == [] ==> token.Err? && k.t.sent == old(k.t.sent) && k.t.inbox == old(k.t.inbox)
  {
    ghost var calls, sent := k.calls, k.t.sent;
    ExchangeAsks(env, k.caps, k.channel, o, Link(k.t.faults, k.t.inbox));
    NothingMore(calls, sent, k.channel);
    if !SpeaksCtap2(k.caps) {
      return Err(NotCtap2);
    }
    if o.pin == [] {
      return Err(NoPin);
    }
    ghost var first := ExchangeSplits(env, k.caps, k.channel, o, Link(k.t.faults, k.t.inbox));
    var pub := KeyAgreement(env, k, o.proto);
    if pub.Err? {
      return Err(pub.error);
    }
    ghost var second := AskForToken(env, k.channel, o, pub.value, first.link);
    token := BuyToken(env, k, o, pub.value);
    InTwoGoes(k.channel, calls, sent, first.calls, second.calls);
  }

  lemma NothingMore(calls: seq<Call>, sent: seq<Report>, ch: uint32)
    ensures calls + [] == calls && sent + SentLog(ch, []) == sent
  {
  }

  lemma InTwoGoes(ch: uint32, calls: seq<Call>, sent: seq<Report>, first: seq<Call>, second: seq<Call>)
    ensures calls + first + second == calls + (first + second)
    ensures sent + SentLog(ch, first) + SentLog(ch, second) == sent + SentLog(ch, first + second)
  {
    SentLogConcat(ch, first, second);
  }

  lemma ExchangeSplits(env: Env, caps: byte, ch: uint32, o: Order, link: Link) returns (first: Agreed)
    requires SpeaksCtap2(caps) && o.pin != []
    ensures first == AskForKey(env, caps, ch, o.proto, link)
    ensures first.pub.Err? ==> Exchange(env, caps, ch, o, link) == Exchanged(Err(first.pub.error), first.calls, first.link)
    ensures first.pub.Ok? ==>
              var second := AskForToken(env, ch, o, first.pub.value, first.link);
              Exchange(env, caps, ch, o, link) == Exchanged(second.token, first.calls + second.calls, second.link)
  {
    first := AskForKey(env, caps, ch, o.proto, link);
  }

  /** The second half of the exchange, once the authenticator's point is known. */
  method BuyToken(env: Env, k: Keys.Key, o: Order, pub: seq<byte>) returns (token: Result<Token, Failure>)
    requires k.Valid() && k.t != null && o.pin != []
    modifies k`calls, k`outcomes, k.t
    ensures k.Valid() && k.t.closed == old(k.t.closed)
    ensures var x := AskForToken(env, k.channel, o, pub, Link(old(k.t.faults), old(k.t.inbox)));
            && token == x.token && Link(k.t.faults, k.t.inbox) == x.link
            && k.calls == old(k.calls) + x.calls
            && k.t.sent == old(k.t.sent) + SentLog(k.channel, x.calls)
            && (x.calls == [] || (|x.calls| == 1 && TokenRequested(env, k.channel, o, pub, old(k.t.faults), x.calls[0])))
  {
    TokenRequestIsMade(env, k.channel, o, pub, Link(k.t.faults, k.t.inbox));
    var agreed := Agree(env, o.proto, pub, o.scalar);
    if agreed.Err? {
      return Err(agreed.error);
    }
    var (own, keys) := agreed.value;
    var digest := PinDigest(env.prims, o.pin);
    var hashEnc := EncryptBytes(env.prims, keys, o.iv, digest);
    if hashEnc.Err? {
      return Err(Crypto(hashEnc.error));
    }
    var req := map[CP_PROTOCOL := Int(o.proto), CP_SUBCOMMAND := Int(SUB_TOKEN_USING_PIN), CP_KEY_AGREEMENT := Map(own),
                   CP_PIN_HASH_ENC := Octets(hashEnc.value), CP_PERMISSIONS := Int(o.perms)];
    if o.rpId != "" {
      req := req[CP_RP_ID := Text(o.rpId)];
    }
    if o.perms == 0 {
      req := map[CP_PROTOCOL := Int(o.proto), CP_SUBCOMMAND := Int(SUB_PIN_TOKEN), CP_KEY_AGREEMENT := Map(own),
                 CP_PIN_HASH_ENC := Octets(hashEnc.value)];
    }
    assert Prepare(env, o, pub) == Ok((req, keys));
    var body := CborCall(env, k, req);
    if body.Err? {
      return Err(body.error);
    }
    token := ReadToken(env, o.proto, keys, body.value);
  }

  /** Reads the token out of the second reply. */
  method ReadToken(env: Env, proto: int64, keys: PinKeys, body: seq<byte>) returns (token: Result<Token, Failure>)
    ensures token == Redeem(env, proto, keys, body)
  {
    var fields := env.codec.fields(body);
    if fields.None? {
      return Err(ReplyNotAMap);
    }
    if RESP_TOKEN !in fields.value {
      return Err(NoToken);
    }
    var enc := env.codec.octets(fields.value[RESP_TOKEN]);
    if enc.None? {
      return Err(TokenNotBytes);
    }
    var raw := DecryptBytes(env.prims, keys, enc.value);
    if raw.Err? {
      return Err(TokenWillNotDecrypt(raw.error));
    }
    if |raw.value| != 32 && (proto != ONE || |raw.value| != 16) {
      return Err(WrongTokenLength(|raw.value|));
    }
    return Ok(Token(keys, raw.value));
  }

  // ------------------------------------------------- against any authenticator

  /** The reply field a token is taken from, when there is one. */
  function EncryptedToken(env: Env, body: seq<byte>): Option<seq<byte>> {
    match env.codec.fields(body)
    case None => None
    case Some(m) => if RESP_TOKEN in m then env.codec.octets(m[RESP_TOKEN]) else None
  }

  /** Exactly which replies buy a token: those whose token field holds 16 or 32 encrypted bytes under
      protocol one, or 48 (a vector and two blocks) under protocol two. */
  lemma RedeemIff(env: Env, proto: int, keys: PinKeys, body: seq<byte>)
    requires BlockCipher(env.prims) && (proto == ONE || proto == TWO) && keys.proto == proto && AesKey(keys.aes)
    ensures Redeem(env, proto, keys, body).Ok? <==>
            && EncryptedToken(env, body).Some?
            && var n := |EncryptedToken(env, body).value|;
               if proto == ONE then n == 16 || n == 32 else n == 48
  {
    if EncryptedToken(env, body).Some? {
      DecryptIff(env.prims, keys, EncryptedToken(env, body).value);
    }
  }

  /** Whatever the other side sends, a token that is handed out has its protocol's length, carries that
      protocol, and is the decryption of the token field in the reply to the very request prepared for the
      point that was offered; and that field held 16 or 32 bytes under protocol one, 48 under two. */
  lemma TokensAreLegal(env: Env, caps: byte, ch: uint32, o: Order, link: Link)
    requires BlockCipher(env.prims) && Exchange(env, caps, ch, o, link).token.Ok?
    ensures var t := Exchange(env, caps, ch, o, link).token.value;
            && TokenLength(o.proto, |t.raw|) && t.keys.proto == o.proto && (o.proto == ONE || o.proto == TWO)
            && var agreed := AskForKey(env, caps, ch, o.proto, link);
            && agreed.pub.Ok? && Prepare(env, o, agreed.pub.value).Ok?
            && var (request, keys) := Prepare(env, o, agreed.pub.value).value;
            && keys == t.keys
            && var reply := Ask(env, ch, request, agreed.link).body;
            && reply.Ok? && EncryptedToken(env, reply.value).Some?
            && var enc := EncryptedToken(env, reply.value).value;
            && Decrypt(env.prims, keys, enc) == Ok(t.raw)
            && if o.proto == ONE then |enc| == 16 || |enc| == 32 else |enc| == 48
  {
    var agreed := AskForKey(env, caps, ch, o.proto, link);
    var (request, keys) := Prepare(env, o, agreed.pub.value).value;
    RedeemIff(env, o.proto, keys, Ask(env, ch, request, agreed.link).body.value);
  }
}
