/**
 * The exchange of a PIN for a token: the key agreement, the request, and what is made of the reply.
 * The CBOR library, the curve and the primitives are given by their laws.
 */
module ClientPin {
  import opened Bytes
  import opened Wrappers
  import opened Framing
  import opened Session
  import opened PinProtocol
  import Cbor
  import Keys

  const CMD_CLIENT_PIN: byte := 0x06
  const SUB_KEY_AGREEMENT := 0x02
  const SUB_PIN_TOKEN := 0x05
  const SUB_TOKEN_USING_PIN := 0x09

  const CP_PROTOCOL := 0x01
  const CP_SUBCOMMAND := 0x02
  const CP_KEY_AGREEMENT := 0x03
  const CP_PIN_HASH_ENC := 0x06
  const CP_PERMISSIONS := 0x07
  const CP_RP_ID := 0x08
  const RESP_KEY_AGREEMENT := 0x01
  const RESP_TOKEN := 0x02

  const COSE_KTY := 1
  const COSE_ALG := 3
  const COSE_CRV := -1
  const COSE_X := -2
  const COSE_Y := -3
  const COORDINATE_SIZE := 32
  const POINT_SIZE := 1 + 2 * COORDINATE_SIZE
  const UNCOMPRESSED: byte := 0x04

  const STATUS_OK: byte := 0x00

  datatype Value = Int(n: int) | Octets(b: seq<byte>) | Text(s: string) | Map(m: map<int, Value>)

  /** The CBOR library, as this exchange uses it: encoding, and decoding into a map under unsigned labels
      (a request or a reply) or signed ones (a COSE key), each value still encoded, into a byte string and
      into a number. */
  datatype Codec = Codec(
    encode: Value -> Option<seq<byte>>,
    fields: seq<byte> -> Option<map<int, seq<byte>>>,
    labels: seq<byte> -> Option<map<int, seq<byte>>>,
    octets: seq<byte> -> Option<seq<byte>>,
    integer: seq<byte> -> Option<int64>)

  function Raw(c: Codec, v: Value): seq<byte> {
    match c.encode(v)
    case Some(b) => b
    case None => []
  }

  // The values the exchange encodes: numbers of 64 bits, strings, COSE keys and maps of those.

  predicate Fits64(n: int) {
    -0x8000_0000_0000_0000 <= n < 0x1_0000_0000_0000_0000
  }

  predicate Scalar(v: Value) {
    match v
    case Int(n) => Fits64(n)
    case Octets(_) => true
    case Text(_) => true
    case Map(_) => false
  }

  /** A map under signed labels, one level deep, of a size the library decodes. */
  predicate IsCoseMap(m: map<int, Value>) {
    && |m| <= Cbor.DEFAULT.pairs
    && forall k | k in m :: -0x8000_0000_0000_0000 <= k < 0x8000_0000_0000_0000 && Scalar(m[k])
  }

  /** A map under unsigned labels whose values are scalars and COSE keys. */
  predicate IsParameters(m: map<int, Value>) {
    && |m| <= Cbor.DEFAULT.pairs
    && forall k | k in m :: 0 <= k < 0x1_0000_0000_0000_0000 && (Scalar(m[k]) || (m[k].Map? && IsCoseMap(m[k].m)))
  }

  /** Those values encode, and decode to what they were. */
  ghost predicate Faithful(c: Codec) {
    && (forall v | Scalar(v) :: c.encode(v).Some?)
    && (forall m | IsCoseMap(m) || IsParameters(m) :: c.encode(Map(m)).Some?)
    && (forall n: int64 :: c.integer(Raw(c, Int(n))) == Some(n))
    && (forall b :: c.octets(Raw(c, Octets(b))) == Some(b))
    && (forall m | IsParameters(m) :: c.fields(Raw(c, Map(m))) == Some(map k | k in m :: Raw(c, m[k])))
    && (forall m | IsCoseMap(m) :: c.labels(Raw(c, Map(m))) == Some(map k | k in m :: Raw(c, m[k])))
  }

  /** P-256: the public point of a private scalar, the check of a point, and the shared x coordinate. */
  datatype Curve = Curve(
    point: nat -> seq<byte>,
    onCurve: seq<byte> -> bool,
    ecdh: (nat, seq<byte>) -> Option<Digest>)

  predicate IsPoint(c: Curve, p: seq<byte>) {
    |p| == POINT_SIZE && p[0] == UNCOMPRESSED && c.onCurve(p)
  }

  /** Public keys are points, and both sides of an exchange come to the same secret. */
  ghost predicate Commutes(c: Curve) {
    && (forall a :: IsPoint(c, c.point(a)))
    && (forall a, b {:trigger c.ecdh(a, c.point(b))} :: c.ecdh(a, c.point(b)).Some? && c.ecdh(a, c.point(b)) == c.ecdh(b, c.point(a)))
  }

  datatype Env = Env(codec: Codec, curve: Curve, prims: Primitives)

  datatype CoseProblem = NotAMap | NoX | BadX | NoY | BadY | WrongSize | NotOnCurve

  datatype CborReply = Body(b: seq<byte>) | NoStatus | Status(code: byte) | NotReplied(outcome: Outcome)

  datatype Failure =
    | NotCtap2
    | NoPin
    | CannotEncode
    | NoBody(reply: CborReply)
    | ReplyNotAMap
    | NoAgreementKey
    | BadAgreementKey(cose: CoseProblem)
    | NoOwnKey
    | OwnKeyNotAPoint
    | WillNotAgree
    | Crypto(problem: Problem)
    | NoToken
    | TokenNotBytes
    | TokenWillNotDecrypt(why: Problem)
    | WrongTokenLength(length: nat)

  datatype Token = Token(keys: PinKeys, raw: seq<byte>)

  // ------------------------------------------------------------- COSE keys

  /** A coordinate as it is written: the number read from its bytes, filled into the fixed width. */
  function Coordinate(b: seq<byte>): (c: seq<byte>)
    requires |b| == COORDINATE_SIZE
    ensures c == b
  {
    ToBytesInverse(b);
    ToBytes(FromBytes(b), COORDINATE_SIZE)
  }

  function CoseKey(x: seq<byte>, y: seq<byte>): map<int, Value> {
    map[COSE_KTY := Int(2), COSE_ALG := Int(-25), COSE_CRV := Int(1), COSE_X := Octets(x), COSE_Y := Octets(y)]
  }

  function EcdhToCose(pub: seq<byte>): Option<map<int, Value>> {
    if |pub| != POINT_SIZE || pub[0] != UNCOMPRESSED then None
    else Some(CoseKey(Coordinate(pub[1..1 + COORDINATE_SIZE]), Coordinate(pub[1 + COORDINATE_SIZE..])))
  }

  function CoseToEcdh(env: Env, raw: seq<byte>): Result<seq<byte>, CoseProblem> {
    match env.codec.labels(raw)
    case None => Err(NotAMap)
    case Some(m) =>
      if COSE_X !in m then Err(NoX)
      else if env.codec.octets(m[COSE_X]).None? then Err(BadX)
      else if COSE_Y !in m then Err(NoY)
      else if env.codec.octets(m[COSE_Y]).None? then Err(BadY)
      else
        var x, y := env.codec.octets(m[COSE_X]).value, env.codec.octets(m[COSE_Y]).value;
        if |x| != COORDINATE_SIZE || |y| != COORDINATE_SIZE then Err(WrongSize)
        else if !env.curve.onCurve([UNCOMPRESSED] + x + y) then Err(NotOnCurve)
        else Ok([UNCOMPRESSED] + x + y)
  }

  /** Each refusal of a key to agree with, by exactly what is wrong with it. */
  lemma CoseRefusals(env: Env, raw: seq<byte>)
    ensures var r := CoseToEcdh(env, raw);
            match env.codec.labels(raw)
            case None => r == Err(NotAMap)
            case Some(m) =>
              var x := if -2 in m then env.codec.octets(m[-2]) else None;
              var y := if -3 in m then env.codec.octets(m[-3]) else None;
              && (r == Err(NoX) <==> -2 !in m) && (r == Err(BadX) <==> -2 in m && x.None?)
              && (r == Err(NoY) <==> x.Some? && -3 !in m) && (r == Err(BadY) <==> x.Some? && -3 in m && y.None?)
              && (r == Err(WrongSize) <==> x.Some? && y.Some? && !(|x.value| == 32 && |y.value| == 32))
              && (r == Err(NotOnCurve) <==>
                    x.Some? && y.Some? && |x.value| == 32 && |y.value| == 32 && !env.curve.onCurve([0x04] + x.value + y.value))
              && r != Err(NotAMap)
  {
  }

  lemma FieldOf(c: Codec, m: map<int, Value>, key: int)
    requires Faithful(c) && IsParameters(m) && key in m
    ensures c.fields(Raw(c, Map(m))).Some?
    ensures key in c.fields(Raw(c, Map(m))).value && c.fields(Raw(c, Map(m))).value[key] == Raw(c, m[key])
  {
  }

  lemma NoOtherField(c: Codec, m: map<int, Value>, key: int)
    requires Faithful(c) && IsParameters(m) && key !in m
    ensures c.fields(Raw(c, Map(m))).Some? && key !in c.fields(Raw(c, Map(m))).value
  {
  }

  lemma LabelOf(c: Codec, m: map<int, Value>, key: int)
    requires Faithful(c) && IsCoseMap(m) && key in m
    ensures c.labels(Raw(c, Map(m))).Some?
    ensures key in c.labels(Raw(c, Map(m))).value && c.labels(Raw(c, Map(m))).value[key] == Raw(c, m[key])
  {
  }

  lemma IntegerOf(c: Codec, n: int64)
    requires Faithful(c)
    ensures c.integer(Raw(c, Int(n))) == Some(n)
  {
  }

  lemma OctetsOf(c: Codec, b: seq<byte>)
    requires Faithful(c)
    ensures c.octets(Raw(c, Octets(b))) == Some(b)
  {
  }

  /** Exactly uncompressed points are written; the key says EC2 (2), ECDH-ES with HKDF-256 (-25) and P-256
      (1), and the coordinates are the point's own bytes, leading zeros included. */
  lemma CoseCoordinates(pub: seq<byte>)
    ensures EcdhToCose(pub).Some? <==> |pub| == 65 && pub[0] == 0x04
    ensures EcdhToCose(pub).Some? ==>
              EcdhToCose(pub).value == map[1 := Int(2), 3 := Int(-25), -1 := Int(1), -2 := Octets(pub[1..33]), -3 := Octets(pub[33..])]
    ensures EcdhToCose(pub).Some? ==>
              && EcdhToCose(pub).value == CoseKey(pub[1..1 + COORDINATE_SIZE], pub[1 + COORDINATE_SIZE..])
              && [UNCOMPRESSED] + pub[1..1 + COORDINATE_SIZE] + pub[1 + COORDINATE_SIZE..] == pub
  {
  }

  lemma CoseReads(env: Env, raw: seq<byte>, m: map<int, seq<byte>>, x: seq<byte>, y: seq<byte>)
    requires env.codec.labels(raw) == Some(m) && COSE_X in m && COSE_Y in m
    requires env.codec.octets(m[COSE_X]) == Some(x) && env.codec.octets(m[COSE_Y]) == Some(y)
    requires |x| == COORDINATE_SIZE && |y| == COORDINATE_SIZE && env.curve.onCurve([UNCOMPRESSED] + x + y)
    ensures CoseToEcdh(env, raw) == Ok([UNCOMPRESSED] + x + y)
  {
  }

  /** Writing a point as a COSE key and reading it back gives the point. */
  lemma CoseRoundTrip(env: Env, pub: seq<byte>)
    requires Faithful(env.codec) && IsPoint(env.curve, pub)
    ensures EcdhToCose(pub).Some?
    ensures CoseToEcdh(env, Raw(env.codec, Map(EcdhToCose(pub).value))) == Ok(pub)
  {
    CoseCoordinates(pub);
    var x, y := pub[1..1 + COORDINATE_SIZE], pub[1 + COORDINATE_SIZE..];
    CoseKeyFields(env, x, y);
    var raw := Raw(env.codec, Map(CoseKey(x, y)));
    CoseReads(env, raw, env.codec.labels(raw).value, x, y);
  }

  lemma CoseKeyIsCose(x: seq<byte>, y: seq<byte>)
    ensures IsCoseMap(CoseKey(x, y))
    ensures CoseKey(x, y).Keys == {1, 3, -1, -2, -3}
    ensures CoseKey(x, y)[1] == Int(2) && CoseKey(x, y)[3] == Int(-25) && CoseKey(x, y)[-1] == Int(1)
    ensures CoseKey(x, y)[-2] == Octets(x) && CoseKey(x, y)[-3] == Octets(y)
  {
  }

  lemma CoseKeyFields(env: Env, x: seq<byte>, y: seq<byte>)
    requires Faithful(env.codec)
    ensures var labels := env.codec.labels(Raw(env.codec, Map(CoseKey(x, y))));
            && labels.Some? && COSE_X in labels.value && COSE_Y in labels.value
            && env.codec.octets(labels.value[COSE_X]) == Some(x) && env.codec.octets(labels.value[COSE_Y]) == Some(y)
  {
    var m := CoseKey(x, y);
    CoseKeyIsCose(x, y);
    LabelOf(env.codec, m, COSE_X);
    LabelOf(env.codec, m, COSE_Y);
    OctetsOf(env.codec, x);
    OctetsOf(env.codec, y);
  }

  /** Whatever is read from a COSE key is a point of the curve, and its own COSE key has the coordinates
      that were read. */
  lemma CoseReadsPoints(env: Env, raw: seq<byte>)
    requires CoseToEcdh(env, raw).Ok?
    ensures var pub := CoseToEcdh(env, raw).value;
            && IsPoint(env.curve, pub) && EcdhToCose(pub).Some?
            && var m, labels := EcdhToCose(pub).value, env.codec.labels(raw).value;
            && env.codec.octets(labels[COSE_X]) == Some(m[COSE_X].b)
            && env.codec.octets(labels[COSE_Y]) == Some(m[COSE_Y].b)
  {
    var pub := CoseToEcdh(env, raw).value;
    CoseCoordinates(pub);
    var labels := env.codec.labels(raw).value;
    var x, y := env.codec.octets(labels[COSE_X]).value, env.codec.octets(labels[COSE_Y]).value;
    assert pub[1..1 + COORDINATE_SIZE] == x && pub[1 + COORDINATE_SIZE..] == y;
  }

  // --------------------------------------------------------------- the exchange

  predicate SpeaksCtap2(caps: byte) {
    caps / 4 % 2 == 1
  }

  /** The test is the mask of bit 2, the capability to carry CBOR. */
  lemma SpeaksCtap2IsABit(b: bv8)
    ensures SpeaksCtap2(b as int) <==> b & 0x04 == 0x04
  {
    assert SpeaksCtap2(b as int) <==> (b >> 2) & 1 == 1 by {
      assert (b >> 2) as int == (b as int) / 4;
    }
  }

  function ReadStatus(outcome: Outcome): CborReply {
    match outcome
    case Reply(data) =>
      if data == [] then NoStatus
      else if data[0] != STATUS_OK then Status(data[0])
      else Body(data[1..])
    case _ => NotReplied(outcome)
  }

  /** Exactly what each reply is read as: a body follows the byte zero, any other first byte is a status, and
      an empty reply is neither. */
  lemma ReadStatusIff(outcome: Outcome, b: seq<byte>, code: byte)
    ensures ReadStatus(outcome) == Body(b) <==> outcome == Reply([0x00] + b)
    ensures ReadStatus(outcome) == Status(code) <==> code != 0x00 && outcome.Reply? && outcome.data != [] && outcome.data[0] == code
    ensures ReadStatus(outcome) == NoStatus <==> outcome == Reply([])
    ensures ReadStatus(outcome).NotReplied? ==> !outcome.Reply? && ReadStatus(outcome).outcome == outcome
  {
    if outcome.Reply? && outcome.data != [] {
      assert outcome.data == [outcome.data[0]] + outcome.data[1..];
    }
    assert ([0x00] + b)[1..] == b;
  }

  /** What a key is still going to send and which sends are still going to fail. */
  datatype Link = Link(faults: seq<bool>, inbox: seq<Report>)

  /** What came of one command: the body of its reply, the call made for it, and what is left on the link. */
  datatype Asked = Asked(body: Result<seq<byte>, Failure>, calls: seq<Call>, link: Link)

  function CommandBytes(params: seq<byte>): seq<byte> {
    [CMD_CLIENT_PIN] + params
  }

  /** One CTAP2 command over the link. */
  function Ask(env: Env, ch: uint32, params: map<int, Value>, link: Link): Asked {
    match env.codec.encode(Map(params))
    case None => Asked(Err(CannotEncode), [], link)
    case Some(b) =>
      var call := Keys.Attempt(ch, CMD_CBOR, CommandBytes(b), link.faults);
      var called := RoundTrip(ch, call, link.inbox);
      var reply := ReadStatus(called.outcome);
      Asked(if reply.Body? then Ok(reply.b) else Err(NoBody(reply)), [call],
            Link(Keys.RemainingAfter(ch, CMD_CBOR, CommandBytes(b), link.faults), called.rest))
  }

  function AgreementRequest(proto: int64): map<int, Value> {
    map[CP_PROTOCOL := Int(proto), CP_SUBCOMMAND := Int(SUB_KEY_AGREEMENT)]
  }

  function ReadAgreement(env: Env, body: seq<byte>): Result<seq<byte>, Failure> {
    match env.codec.fields(body)
    case None => Err(ReplyNotAMap)
    case Some(m) =>
      if RESP_KEY_AGREEMENT !in m then Err(NoAgreementKey)
      else
        match CoseToEcdh(env, m[RESP_KEY_AGREEMENT])
        case Err(cose) => Err(BadAgreementKey(cose))
        case Ok(pub) => Ok(pub)
  }

  /** The platform's side of the agreement; scalar is its new private key, if one could be made. */
  function Agree(env: Env, proto: int, pub: seq<byte>, scalar: Option<nat>): Result<(map<int, Value>, PinKeys), Failure> {
    if scalar.None? then Err(NoOwnKey)
    else
      var own := EcdhToCose(env.curve.point(scalar.value));
      if own.None? then Err(OwnKeyNotAPoint)
      else
        var secret := env.curve.ecdh(scalar.value, pub);
        if secret.None? then Err(WillNotAgree)
        else
          match DeriveKeys(env.prims, proto, secret.value)
          case Err(e) => Err(Crypto(e))
          case Ok(keys) => Ok((own.value, keys))
  }

  function TokenRequest(proto: int64, own: map<int, Value>, hashEnc: seq<byte>, perms: uint64, rpId: string): map<int, Value> {
    if perms == 0 then
      map[CP_PROTOCOL := Int(proto), CP_SUBCOMMAND := Int(SUB_PIN_TOKEN), CP_KEY_AGREEMENT := Map(own),
          CP_PIN_HASH_ENC := Octets(hashEnc)]
    else
      var req := map[CP_PROTOCOL := Int(proto), CP_SUBCOMMAND := Int(SUB_TOKEN_USING_PIN), CP_KEY_AGREEMENT := Map(own),
                     CP_PIN_HASH_ENC := Octets(hashEnc), CP_PERMISSIONS := Int(perms)];
      if rpId != "" then req[CP_RP_ID := Text(rpId)] else req
  }

  /** A token is 16 or 32 bytes under protocol one and 32 under protocol two. */
  predicate TokenLength(proto: int, n: nat) {
    n == 32 || (proto == ONE && n == 16)
  }

  function Redeem(env: Env, proto: int, keys: PinKeys, body: seq<byte>): Result<Token, Failure> {
    match env.codec.fields(body)
    case None => Err(ReplyNotAMap)
    case Some(m) =>
      if RESP_TOKEN !in m then Err(NoToken)
      else
        match env.codec.octets(m[RESP_TOKEN])
        case None => Err(TokenNotBytes)
        case Some(enc) =>
          match Decrypt(env.prims, keys, enc)
          case Err(e) => Err(TokenWillNotDecrypt(e))
          case Ok(raw) =>
            if !TokenLength(proto, |raw|) then Err(WrongTokenLength(|raw|)) else Ok(Token(keys, raw))
  }

  /** What the caller brings: the PIN, the protocol, what the token is for, and the randomness. */
  datatype Order = Order(pin: seq<byte>, proto: int64, perms: uint64, rpId: string, scalar: Option<nat>, iv: Option<Block>)

  /** The token request and the keys to read its reply with, once the authenticator's point is known. */
  function Prepare(env: Env, o: Order, pub: seq<byte>): Result<(map<int, Value>, PinKeys), Failure> {
    match Agree(env, o.proto, pub, o.scalar)
    case Err(e) => Err(e)
    case Ok((own, keys)) =>
      match PinHash(env.prims, keys, o.iv, o.pin)
      case Err(e) => Err(Crypto(e))
      case Ok(hashEnc) => Ok((TokenRequest(o.proto, own, hashEnc, o.perms, o.rpId), keys))
  }

  /** Each reason for not preparing a request, in the order they are found. */
  lemma PrepareIff(env: Env, o: Order, pub: seq<byte>)
    ensures var r := Prepare(env, o, pub);
            if o.scalar.None? then r == Err(NoOwnKey)
            else
              var own, secret := env.curve.point(o.scalar.value), env.curve.ecdh(o.scalar.value, pub);
              if !(|own| == 65 && own[0] == 0x04) then r == Err(OwnKeyNotAPoint)
              else if secret.None? then r == Err(WillNotAgree)
              else if o.proto != 1 && o.proto != 2 then r == Err(Crypto(UnknownProtocol))
              else if o.proto == 2 &&
                      (env.prims.hkdf(secret.value, seq(32, _ => 0), "CTAP2 HMAC key").None? ||
                       env.prims.hkdf(secret.value, seq(32, _ => 0), "CTAP2 AES key").None?) then r == Err(Crypto(NoExpansion))
              else if o.pin == [] then r == Err(Crypto(EmptyPin))
              else if o.proto == 2 && o.iv.None? then r == Err(Crypto(NoRandomness))
              else r.Ok?
  {
    assert Zeros(DIGEST_SIZE) == seq(32, _ => 0);
    if o.scalar.Some? {
      CoseCoordinates(env.curve.point(o.scalar.value));
    }
  }

  /** A token request, field by field: with no permissions asked for it is the older
      subcommand and names neither permissions nor relying party. */
  function TokenFields(o: Order, own: seq<byte>, hashEnc: seq<byte>): map<int, Value>
    requires |own| == 65
  {
    map[0x01 := Int(o.proto), 0x02 := Int(if o.perms == 0 then 0x05 else 0x09),
        0x03 := Map(map[1 := Int(2), 3 := Int(-25), -1 := Int(1), -2 := Octets(own[1..33]), -3 := Octets(own[33..])]),
        0x06 := Octets(hashEnc)]
    + (if o.perms == 0 then map[] else map[0x07 := Int(o.perms)])
    + (if o.perms == 0 || o.rpId == "" then map[] else map[0x08 := Text(o.rpId)])
  }

  /** A request that says all it should: the platform's point, and the first 16 bytes of the PIN's hash under
      the keys that come of the point it answers. */
  ghost predicate SaysToken(env: Env, o: Order, pub: seq<byte>, request: map<int, Value>, keys: PinKeys) {
    && o.scalar.Some? && env.curve.ecdh(o.scalar.value, pub).Some?
    && DeriveKeys(env.prims, o.proto, env.curve.ecdh(o.scalar.value, pub).value) == Ok(keys)
    && var own := env.curve.point(o.scalar.value);
    && |own| == 65 && own[0] == 0x04
    && 0x06 in request && request[0x06].Octets?
    && Enciphers(env.prims, keys, o.iv, env.prims.sha256(o.pin)[..16], request[0x06].b)
    && request == TokenFields(o, own, request[0x06].b)
  }

  lemma TokenRequestIsItsFields(o: Order, own: seq<byte>, hashEnc: seq<byte>)
    requires EcdhToCose(own).Some?
    ensures |own| == 65 && own[0] == 0x04
    ensures TokenRequest(o.proto, EcdhToCose(own).value, hashEnc, o.perms, o.rpId) == TokenFields(o, own, hashEnc)
  {
    CoseCoordinates(own);
  }

  /** Whatever is prepared says so. */
  lemma PrepareSays(env: Env, o: Order, pub: seq<byte>)
    requires Prepare(env, o, pub).Ok?
    ensures SaysToken(env, o, pub, Prepare(env, o, pub).value.0, Prepare(env, o, pub).value.1)
  {
    var (request, keys) := Prepare(env, o, pub).value;
    var own, hashEnc := env.curve.point(o.scalar.value), PinHash(env.prims, keys, o.iv, o.pin).value;
    EncryptIff(env.prims, keys, o.iv, env.prims.sha256(o.pin)[..16]);
    TokenRequestIsItsFields(o, own, hashEnc);
    assert request == TokenFields(o, own, hashEnc);
  }

  datatype Agreed = Agreed(pub: Result<seq<byte>, Failure>, calls: seq<Call>, link: Link)

  function AskForKey(env: Env, caps: byte, ch: uint32, proto: int64, link: Link): Agreed {
    if !SpeaksCtap2(caps) then Agreed(Err(NotCtap2), [], link)
    else
      var asked := Ask(env, ch, AgreementRequest(proto), link);
      match asked.body
      case Err(e) => Agreed(Err(e), asked.calls, asked.link)
      case Ok(body) => Agreed(ReadAgreement(env, body), asked.calls, asked.link)
  }

  /** What came of an exchange: its result, every call made for it, and what is left on the link. */
  datatype Exchanged = Exchanged(token: Result<Token, Failure>, calls: seq<Call>, link: Link)

  /** The second half: the request for the token, once the authenticator's point is known. */
  function AskForToken(env: Env, ch: uint32, o: Order, pub: seq<byte>, link: Link): Exchanged {
    match Prepare(env, o, pub)
    case Err(e) => Exchanged(Err(e), [], link)
    case Ok((request, keys)) =>
      var asked := Ask(env, ch, request, link);
      Exchanged(match asked.body
                case Err(e) => Err(e)
                case Ok(body) => Redeem(env, o.proto, keys, body),
                asked.calls, asked.link)
  }

  /** The whole exchange over a link. */
  function Exchange(env: Env, caps: byte, ch: uint32, o: Order, link: Link): Exchanged {
    if !SpeaksCtap2(caps) then Exchanged(Err(NotCtap2), [], link)
    else if o.pin == [] then Exchanged(Err(NoPin), [], link)
    else
      var agreed := AskForKey(env, caps, ch, o.proto, link);
      match agreed.pub
      case Err(e) => Exchanged(Err(e), agreed.calls, agreed.link)
      case Ok(pub) =>
        var x := AskForToken(env, ch, o, pub, agreed.link);
        Exchanged(x.token, agreed.calls + x.calls, x.link)
  }

  /** Each reason for not getting a point or a token out of a reply. */
  lemma ReplyRefusals(env: Env, proto: int64, keys: PinKeys, body: seq<byte>)
    ensures var key, token := ReadAgreement(env, body), Redeem(env, proto, keys, body);
            match env.codec.fields(body)
            case None => key == Err(ReplyNotAMap) && token == Err(ReplyNotAMap)
            case Some(m) =>
              && (key == Err(NoAgreementKey) <==> 0x01 !in m)
              && (0x01 in m ==> key == match CoseToEcdh(env, m[0x01]) case Ok(pub) => Ok(pub) case Err(e) => Err(BadAgreementKey(e)))
              && (token == Err(NoToken) <==> 0x02 !in m)
              && (token == Err(TokenNotBytes) <==> 0x02 in m && env.codec.octets(m[0x02]).None?)
              && (0x02 in m && env.codec.octets(m[0x02]).Some? ==>
                    match Decrypt(env.prims, keys, env.codec.octets(m[0x02]).value)
                    case Err(e) => token == Err(TokenWillNotDecrypt(e))
                    case Ok(raw) =>
                      token == if |raw| == 32 || (proto == 1 && |raw| == 16) then Ok(Token(keys, raw)) else Err(WrongTokenLength(|raw|)))
  {
  }

  /** The parameter that authenticates data under a token. */
  function AuthParam(p: Primitives, t: Token, data: seq<byte>): seq<byte> {
    Authenticate(p, PinKeys(t.keys.proto, t.raw, t.raw), data)
  }
}
