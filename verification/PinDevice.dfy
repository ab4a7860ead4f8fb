/**
 * The PIN exchange with the authenticator at the other end: what it receives over the framing, what it
 * answers to that, and what token comes of it.
 */
module PinDevice {
  import opened Bytes
  import opened Wrappers
  import opened Framing
  import opened Session
  import opened PinProtocol
  import opened ClientPin
  import Keys
  import PinExchange

  const STATUS_INVALID_COMMAND: byte := 0x01
  const STATUS_INVALID_PARAMETER: byte := 0x02
  const STATUS_INVALID_CBOR: byte := 0x12
  const STATUS_MISSING_PARAMETER: byte := 0x14
  const STATUS_OTHER: byte := 0x7F

  /** The key of the permissions parameter in section 6.5.5 of CTAP 2.1. */
  const CTAP21_PERMISSIONS := 0x09

  // -------------------------------------------------------------- the authenticator

  /** An authenticator: its private key for each protocol it speaks, the digest of the PIN set on it, the
      token it will issue, what its random source gives for that, and under which key it demands the
      permissions of a request that asks for some, if it looks for them at all. */
  datatype Device = Device(scalars: map<int, nat>, pinDigest: Block, token: seq<byte>, iv: Option<Block>, permissionsAt: Option<int>)

  // It goes by the numbers of the standard, not by the platform's names for them.

  function Offered(env: Env, d: Device, proto: int): seq<byte>
    requires proto in d.scalars
  {
    env.curve.point(d.scalars[proto])
  }

  function AgreementReply(env: Env, d: Device, proto: int): seq<byte> {
    if proto !in d.scalars then [STATUS_INVALID_PARAMETER]
    else
      var pub := Offered(env, d, proto);
      if |pub| != 65 then [STATUS_OTHER]
      else
        [0x00] + Raw(env.codec, Map(map[0x01 := Map(map[1 := Int(2), 3 := Int(-25), -1 := Int(1), -2 := Octets(pub[1..33]), -3 := Octets(pub[33..])])]))
  }

  /** The point in a COSE key that is what it has to be: EC2, ECDH-ES with HKDF-256, P-256. */
  function DevicePoint(env: Env, raw: seq<byte>): Option<seq<byte>> {
    match env.codec.labels(raw)
    case None => None
    case Some(m) =>
      if !({1, 3, -1, -2, -3} <= m.Keys) then None
      else if env.codec.integer(m[1]) != Some(2) || env.codec.integer(m[3]) != Some(-25) || env.codec.integer(m[-1]) != Some(1) then None
      else
        match (env.codec.octets(m[-2]), env.codec.octets(m[-3]))
        case (Some(x), Some(y)) =>
          if |x| == 32 && |y| == 32 && env.curve.onCurve([0x04] + x + y) then Some([0x04] + x + y) else None
        case _ => None
  }

  /** The authenticator's keys, from the platform's point in the request: the parts of its own derivation. */
  function DeviceKeys(env: Env, d: Device, request: seq<byte>): Option<PinKeys> {
    match env.codec.fields(request)
    case None => None
    case Some(m) =>
      if 0x01 !in m || 0x03 !in m then None
      else
        match (env.codec.integer(m[0x01]), DevicePoint(env, m[0x03]))
        case (Some(proto), Some(pub)) => if proto in d.scalars then SharedKeys(env, d.scalars[proto], proto, pub) else None
        case _ => None
  }

  function SharedKeys(env: Env, scalar: nat, proto: int, pub: seq<byte>): Option<PinKeys> {
    match env.curve.ecdh(scalar, pub)
    case None => None
    case Some(secret) =>
      match Kdf(env.prims, proto, secret)
      case None => None
      case Some(all) => if |all| < 32 then None else Some(PinKeys(proto, all[|all| - 32..], all[..32]))
  }

  /** The PIN digest the authenticator finds in the request. */
  function DeviceReads(env: Env, keys: PinKeys, request: seq<byte>): Option<seq<byte>> {
    match env.codec.fields(request)
    case None => None
    case Some(m) =>
      if 0x06 !in m || env.codec.octets(m[0x06]).None? then None
      else
        match Decrypt(env.prims, keys, env.codec.octets(m[0x06]).value)
        case Err(_) => None
        case Ok(digest) => Some(digest)
  }

  function TokenReply(env: Env, d: Device, request: seq<byte>): seq<byte> {
    match DeviceKeys(env, d, request)
    case None => [STATUS_INVALID_PARAMETER]
    case Some(keys) =>
      if DeviceReads(env, keys, request) != Some(d.pinDigest) then [0x31]
      else
        match Encrypt(env.prims, keys, d.iv, d.token)
        case Err(_) => [STATUS_OTHER]
        case Ok(enc) => [0x00] + Raw(env.codec, Map(map[0x02 := Octets(enc)]))
  }

  /** What it answers to a command, by the subcommand it finds there. */
  function Respond(env: Env, d: Device, data: seq<byte>): seq<byte> {
    if data == [] || data[0] != 0x06 then [STATUS_INVALID_COMMAND]
    else
      match env.codec.fields(data[1..])
      case None => [STATUS_INVALID_CBOR]
      case Some(m) =>
        if 0x01 !in m || 0x02 !in m then [STATUS_MISSING_PARAMETER]
        else
          match (env.codec.integer(m[0x01]), env.codec.integer(m[0x02]))
          case (Some(proto), Some(sub)) =>
            if sub == 0x02 then AgreementReply(env, d, proto)
            else if sub == 0x05 then TokenReply(env, d, data[1..])
            else if sub != 0x09 then [STATUS_INVALID_COMMAND]
            else if d.permissionsAt.Some? && d.permissionsAt.value !in m then [STATUS_MISSING_PARAMETER]
            else TokenReply(env, d, data[1..])
          case _ => [STATUS_INVALID_PARAMETER]
  }

  /** Its answers to the messages it received, each after the keepalives it chose to send. */
  function Answers(env: Env, d: Device, received: seq<Message>, busy: seq<seq<seq<byte>>>): seq<Answer>
    requires |busy| == |received|
  {
    if received == [] then []
    else [Answer(busy[0], received[0].cmd, Respond(env, d, received[0].data))] + Answers(env, d, received[1..], busy[1..])
  }

  /** What it computes to check a parameter made under the token it issued for this request. */
  function DeviceAuthParam(env: Env, d: Device, request: seq<byte>, data: seq<byte>): Option<seq<byte>> {
    match DeviceKeys(env, d, request)
    case None => None
    case Some(keys) => Some(env.prims.hmac(d.token, data)[..if keys.proto == 1 then 16 else 32])
  }

  ghost predicate Expands(p: Primitives) {
    forall secret, salt, info :: p.hkdf(secret, salt, info).Some?
  }

  /** The laws of the library, the curve and the ciphers. */
  ghost predicate Lawful(env: Env) {
    Faithful(env.codec) && Commutes(env.curve) && BlockCipher(env.prims) && Expands(env.prims)
  }

  predicate Ready(o: Order, d: Device) {
    && o.pin != [] && o.proto in {1, 2} && o.proto in d.scalars && o.scalar.Some?
    && (o.proto == 2 ==> o.iv.Some? && d.iv.Some?)
    && d.token != [] && WholeBlocks(d.token)
  }

  // ------------------------------------------------------- what the requests say

  lemma AgreementRequestFields(proto: int64)
    ensures IsParameters(AgreementRequest(proto)) && AgreementRequest(proto) == map[0x01 := Int(proto), 0x02 := Int(0x02)]
  {
  }

  /** What a token request says: with no permissions asked for it is the older subcommand and says nothing
      of permissions or relying party; otherwise it says both, the relying party if there is one. */
  lemma TokenRequestFields(proto: int64, own: map<int, Value>, hashEnc: seq<byte>, perms: uint64, rpId: string)
    ensures var m := TokenRequest(proto, own, hashEnc, perms, rpId);
            && 0x01 in m && m[0x01] == Int(proto)
            && 0x02 in m && m[0x02] == Int(if perms == 0 then 0x05 else 0x09)
            && 0x03 in m && m[0x03] == Map(own)
            && 0x06 in m && m[0x06] == Octets(hashEnc)
            && (0x07 in m <==> perms > 0) && (0x07 in m ==> m[0x07] == Int(perms))
            && (0x08 in m <==> perms > 0 && rpId != "") && (0x08 in m ==> m[0x08] == Text(rpId))
            && |m| == 4 + (if perms > 0 then 1 else 0) + (if perms > 0 && rpId != "" then 1 else 0)
  {
  }

  predicate NamedIn(o: Order, key: int) {
    key in {0x01, 0x02, 0x03, 0x06} || (o.perms > 0 && key == 0x07) || (o.perms > 0 && o.rpId != "" && key == 0x08)
  }

  lemma TokenRequestKeys(o: Order, own: map<int, Value>, hashEnc: seq<byte>, key: int)
    ensures key in TokenRequest(o.proto, own, hashEnc, o.perms, o.rpId) <==> NamedIn(o, key)
  {
  }

  lemma TokenRequestIsParameters(proto: int64, own: map<int, Value>, hashEnc: seq<byte>, perms: uint64, rpId: string)
    requires IsCoseMap(own)
    ensures IsParameters(TokenRequest(proto, own, hashEnc, perms, rpId))
  {
    TokenRequestFields(proto, own, hashEnc, perms, rpId);
  }

  lemma RequestFields(c: Codec, m: map<int, Value>)
    requires Faithful(c) && IsParameters(m) && 0x01 in m && 0x03 in m && 0x06 in m
    ensures c.fields(Raw(c, Map(m))).Some?
    ensures var fields := c.fields(Raw(c, Map(m))).value;
            && 0x01 in fields && fields[0x01] == Raw(c, m[0x01])
            && 0x03 in fields && fields[0x03] == Raw(c, m[0x03])
            && 0x06 in fields && fields[0x06] == Raw(c, m[0x06])
  {
    FieldOf(c, m, 0x01);
    FieldOf(c, m, 0x03);
    FieldOf(c, m, 0x06);
  }

  // ------------------------------------------------------------ both sides' keys

  lemma SharedSecret(c: Curve, a: nat, b: nat) returns (secret: Digest)
    requires Commutes(c)
    ensures IsPoint(c, c.point(a)) && IsPoint(c, c.point(b))
    ensures c.ecdh(a, c.point(b)) == Some(secret) && c.ecdh(b, c.point(a)) == Some(secret)
  {
    secret := c.ecdh(a, c.point(b)).value;
  }

  lemma KeysDerive(p: Primitives, proto: int, secret: Digest) returns (keys: PinKeys)
    requires Expands(p) && (proto == ONE || proto == TWO)
    ensures DeriveKeys(p, proto, secret) == Ok(keys) && keys.proto == proto && AesKey(keys.aes)
  {
    keys := DeriveKeys(p, proto, secret).value;
  }

  /** What the platform makes of the authenticator's point. */
  lemma PlatformPrepares(env: Env, o: Order, d: Device)
    returns (secret: Digest, own: map<int, Value>, keys: PinKeys, hashEnc: seq<byte>)
    requires Lawful(env) && Ready(o, d)
    ensures IsPoint(env.curve, env.curve.point(o.scalar.value)) && IsPoint(env.curve, Offered(env, d, o.proto))
    ensures env.curve.ecdh(d.scalars[o.proto], env.curve.point(o.scalar.value)) == Some(secret)
    ensures EcdhToCose(env.curve.point(o.scalar.value)) == Some(own) && IsCoseMap(own)
    ensures DeriveKeys(env.prims, o.proto, secret) == Ok(keys) && keys.proto == o.proto && AesKey(keys.aes)
    ensures PinHash(env.prims, keys, o.iv, o.pin) == Ok(hashEnc)
    ensures Prepare(env, o, Offered(env, d, o.proto)) == Ok((TokenRequest(o.proto, own, hashEnc, o.perms, o.rpId), keys))
  {
    secret := SharedSecret(env.curve, o.scalar.value, d.scalars[o.proto]);
    own := OwnKey(env.curve, o.scalar.value);
    keys := KeysDerive(env.prims, o.proto, secret);
    DecryptUndoesEncrypt(env.prims, keys, o.iv, PinDigest(env.prims, o.pin));
    hashEnc := PinHash(env.prims, keys, o.iv, o.pin).value;
    Prepared(env, o, Offered(env, d, o.proto), secret, own, keys, hashEnc);
  }

  lemma OwnKey(c: Curve, scalar: nat) returns (own: map<int, Value>)
    requires IsPoint(c, c.point(scalar))
    ensures EcdhToCose(c.point(scalar)) == Some(own) && IsCoseMap(own)
  {
    var pub := c.point(scalar);
    CoseCoordinates(pub);
    CoseKeyIsCose(pub[1..1 + COORDINATE_SIZE], pub[1 + COORDINATE_SIZE..]);
    own := EcdhToCose(pub).value;
  }

  lemma Prepared(env: Env, o: Order, pub: seq<byte>, secret: Digest, own: map<int, Value>, keys: PinKeys, hashEnc: seq<byte>)
    requires o.scalar.Some? && EcdhToCose(env.curve.point(o.scalar.value)) == Some(own)
    requires env.curve.ecdh(o.scalar.value, pub) == Some(secret) && DeriveKeys(env.prims, o.proto, secret) == Ok(keys)
    requires PinHash(env.prims, keys, o.iv, o.pin) == Ok(hashEnc)
    ensures Prepare(env, o, pub) == Ok((TokenRequest(o.proto, own, hashEnc, o.perms, o.rpId), keys))
  {
  }

  /** The authenticator finds the platform's point in the key that was written for it. */
  lemma DeviceFindsPoint(env: Env, pub: seq<byte>)
    requires Faithful(env.codec) && IsPoint(env.curve, pub) && EcdhToCose(pub).Some?
    ensures DevicePoint(env, Raw(env.codec, Map(EcdhToCose(pub).value))) == Some(pub)
  {
    CoseCoordinates(pub);
    CoseLabels(env.codec, pub[1..33], pub[33..]);
    FoundPoint(env, Raw(env.codec, Map(EcdhToCose(pub).value)), pub[1..33], pub[33..]);
    assert [0x04] + pub[1..33] + pub[33..] == pub;
  }

  lemma CoseLabels(c: Codec, x: seq<byte>, y: seq<byte>)
    requires Faithful(c)
    ensures var labels := c.labels(Raw(c, Map(CoseKey(x, y))));
            && labels.Some? && {1, 3, -1, -2, -3} <= labels.value.Keys
            && c.integer(labels.value[1]) == Some(2) && c.integer(labels.value[3]) == Some(-25)
            && c.integer(labels.value[-1]) == Some(1)
            && c.octets(labels.value[-2]) == Some(x) && c.octets(labels.value[-3]) == Some(y)
  {
    CoseKeyIsCose(x, y);
    NumberUnder(c, CoseKey(x, y), 1, 2);
    NumberUnder(c, CoseKey(x, y), 3, -25);
    NumberUnder(c, CoseKey(x, y), -1, 1);
    BytesUnder(c, CoseKey(x, y), -2, x);
    BytesUnder(c, CoseKey(x, y), -3, y);
  }

  lemma NumberUnder(c: Codec, m: map<int, Value>, key: int, n: int64)
    requires Faithful(c) && IsCoseMap(m) && key in m && m[key] == Int(n)
    ensures var labels := c.labels(Raw(c, Map(m))); labels.Some? && key in labels.value && c.integer(labels.value[key]) == Some(n)
  {
    LabelOf(c, m, key);
    IntegerOf(c, n);
  }

  lemma BytesUnder(c: Codec, m: map<int, Value>, key: int, b: seq<byte>)
    requires Faithful(c) && IsCoseMap(m) && key in m && m[key] == Octets(b)
    ensures var labels := c.labels(Raw(c, Map(m))); labels.Some? && key in labels.value && c.octets(labels.value[key]) == Some(b)
  {
    LabelOf(c, m, key);
    OctetsOf(c, b);
  }

  lemma FoundPoint(env: Env, raw: seq<byte>, x: seq<byte>, y: seq<byte>)
    requires var labels := env.codec.labels(raw);
             && labels.Some? && {1, 3, -1, -2, -3} <= labels.value.Keys
             && env.codec.integer(labels.value[1]) == Some(2) && env.codec.integer(labels.value[3]) == Some(-25)
             && env.codec.integer(labels.value[-1]) == Some(1)
             && env.codec.octets(labels.value[-2]) == Some(x) && env.codec.octets(labels.value[-3]) == Some(y)
    requires |x| == 32 && |y| == 32 && env.curve.onCurve([0x04] + x + y)
    ensures DevicePoint(env, raw) == Some([0x04] + x + y)
  {
  }

  lemma DeviceDerives(env: Env, d: Device, proto: int64, pub: seq<byte>, secret: Digest, keys: PinKeys, m: map<int, Value>)
    requires Faithful(env.codec) && IsPoint(env.curve, pub) && EcdhToCose(pub).Some?
    requires proto in {1, 2} && proto in d.scalars
    requires env.curve.ecdh(d.scalars[proto], pub) == Some(secret) && DeriveKeys(env.prims, proto, secret) == Ok(keys)
    requires IsParameters(m) && 0x01 in m && 0x03 in m && 0x06 in m
    requires m[0x01] == Int(proto) && m[0x03] == Map(EcdhToCose(pub).value)
    ensures DeviceKeys(env, d, Raw(env.codec, Map(m))) == Some(keys)
  {
    RequestFields(env.codec, m);
    DeviceFindsPoint(env, pub);
    IntegerOf(env.codec, proto);
    KeysDerived(env, d.scalars[proto], proto, pub, secret, keys);
    KeysFound(env, d, Raw(env.codec, Map(m)), proto, pub);
  }

  lemma KeysFound(env: Env, d: Device, request: seq<byte>, proto: int64, pub: seq<byte>)
    requires var fields := env.codec.fields(request);
             && fields.Some? && 0x01 in fields.value && 0x03 in fields.value
             && env.codec.integer(fields.value[0x01]) == Some(proto) && DevicePoint(env, fields.value[0x03]) == Some(pub)
    requires proto in d.scalars
    ensures DeviceKeys(env, d, request) == SharedKeys(env, d.scalars[proto], proto, pub)
  {
  }

  lemma KeysDerived(env: Env, scalar: nat, proto: int64, pub: seq<byte>, secret: Digest, keys: PinKeys)
    requires proto in {1, 2} && env.curve.ecdh(scalar, pub) == Some(secret) && DeriveKeys(env.prims, proto, secret) == Ok(keys)
    ensures SharedKeys(env, scalar, proto, pub) == Some(keys)
  {
    KeysAreParts(env.prims, proto, secret);
    SharedKeysAre(env, scalar, proto, pub, secret);
  }

  lemma SharedKeysAre(env: Env, scalar: nat, proto: int64, pub: seq<byte>, secret: Digest)
    requires env.curve.ecdh(scalar, pub) == Some(secret)
    requires Kdf(env.prims, proto, secret).Some? && |Kdf(env.prims, proto, secret).value| >= 32
    ensures var all := Kdf(env.prims, proto, secret).value;
            SharedKeys(env, scalar, proto, pub) == Some(PinKeys(proto, all[|all| - 32..], all[..32]))
  {
  }

  lemma DeviceDecrypts(env: Env, o: Order, keys: PinKeys, m: map<int, Value>, hashEnc: seq<byte>)
    requires Faithful(env.codec) && BlockCipher(env.prims) && AesKey(keys.aes) && keys.proto == o.proto
    requires (o.proto == TWO ==> o.iv.Some?) && PinHash(env.prims, keys, o.iv, o.pin) == Ok(hashEnc)
    requires IsParameters(m) && 0x01 in m && 0x03 in m && 0x06 in m && m[0x06] == Octets(hashEnc)
    ensures DeviceReads(env, keys, Raw(env.codec, Map(m))) == Some(env.prims.sha256(o.pin)[..16])
  {
    RequestFields(env.codec, m);
    OctetsOf(env.codec, hashEnc);
    DecryptUndoesEncrypt(env.prims, keys, o.iv, PinDigest(env.prims, o.pin));
  }

  /** Both sides derive the same keys, and the authenticator recovers exactly the first 16 bytes of the
      hash of the PIN that was typed. */
  lemma BothSidesAgree(env: Env, o: Order, d: Device) returns (request: map<int, Value>, keys: PinKeys)
    requires Lawful(env) && Ready(o, d)
    ensures Prepare(env, o, Offered(env, d, o.proto)) == Ok((request, keys))
    ensures keys.proto == o.proto && AesKey(keys.aes) && IsParameters(request)
    ensures SaysToken(env, o, Offered(env, d, o.proto), request, keys)
    ensures 0x01 in request && 0x02 in request
    ensures request[0x01] == Int(o.proto) && request[0x02] == Int(if o.perms == 0 then 0x05 else 0x09)
    ensures forall key :: key in request <==> NamedIn(o, key)
    ensures DeviceKeys(env, d, Raw(env.codec, Map(request))) == Some(keys)
    ensures DeviceReads(env, keys, Raw(env.codec, Map(request))) == Some(env.prims.sha256(o.pin)[..16])
  {
    var secret, own, keys', hashEnc := PlatformPrepares(env, o, d);
    request, keys := TokenRequest(o.proto, own, hashEnc, o.perms, o.rpId), keys';
    TokenRequestFields(o.proto, own, hashEnc, o.perms, o.rpId);
    TokenRequestIsParameters(o.proto, own, hashEnc, o.perms, o.rpId);
    PrepareSays(env, o, Offered(env, d, o.proto));
    forall key ensures key in request <==> NamedIn(o, key) {
      TokenRequestKeys(o, own, hashEnc, key);
    }
    DeviceDerives(env, d, o.proto, env.curve.point(o.scalar.value), secret, keys, request);
    DeviceDecrypts(env, o, keys, request, hashEnc);
  }

  // ------------------------------------------------------------------ the answers

  /** The answer to the first request offers the authenticator's point for the protocol it names. */
  lemma DeviceOffers(env: Env, d: Device, proto: int64)
    requires Faithful(env.codec) && proto in d.scalars && IsPoint(env.curve, Offered(env, d, proto))
    ensures var reply := ReadStatus(Reply(Respond(env, d, [0x06] + Raw(env.codec, Map(AgreementRequest(proto))))));
            reply.Body? && ReadAgreement(env, reply.b) == Ok(Offered(env, d, proto))
  {
    var m := AgreementRequest(proto);
    AgreementRequestFields(proto);
    FieldOf(env.codec, m, 0x01);
    FieldOf(env.codec, m, 0x02);
    IntegerOf(env.codec, proto);
    IntegerOf(env.codec, 0x02);
    OpensWithItsCommand(Raw(env.codec, Map(m)));
    OffersItsPoint(env, d, proto);
  }

  lemma OpensWithItsCommand(params: seq<byte>)
    ensures ([0x06] + params)[0] == 0x06 && ([0x06] + params)[1..] == params
  {
  }

  lemma OffersItsPoint(env: Env, d: Device, proto: int64)
    requires Faithful(env.codec) && proto in d.scalars && IsPoint(env.curve, Offered(env, d, proto))
    ensures ReadStatus(Reply(AgreementReply(env, d, proto))).Body?
    ensures ReadAgreement(env, ReadStatus(Reply(AgreementReply(env, d, proto))).b) == Ok(Offered(env, d, proto))
  {
    var pub := Offered(env, d, proto);
    var cose := OwnKey(env.curve, d.scalars[proto]);
    CoseCoordinates(pub);
    CoseRoundTrip(env, pub);
    var m := map[0x01 := Map(cose)];
    FieldOf(env.codec, m, 0x01);
    assert AgreementReply(env, d, proto) == [0x00] + Raw(env.codec, Map(m));
    assert AgreementReply(env, d, proto)[1..] == Raw(env.codec, Map(m));
  }

  /** The authenticator demands the permissions under a key that the request does not have. */
  predicate Withheld(o: Order, d: Device) {
    o.perms > 0 && d.permissionsAt.Some? && !NamedIn(o, d.permissionsAt.value)
  }

  /** What the exchange should come to. */
  function Verdict(env: Env, o: Order, d: Device, keys: PinKeys): Result<Token, Failure> {
    if Withheld(o, d) then Err(NoBody(Status(STATUS_MISSING_PARAMETER)))
    else if env.prims.sha256(o.pin)[..16] != d.pinDigest then Err(NoBody(Status(0x31)))
    else if |d.token| == 32 || (o.proto == 1 && |d.token| == 16) then Ok(Token(keys, d.token))
    else Err(WrongTokenLength(|d.token|))
  }

  function Concluded(env: Env, o: Order, keys: PinKeys, reply: CborReply): Result<Token, Failure> {
    if reply.Body? then Redeem(env, o.proto, keys, reply.b) else Err(NoBody(reply))
  }

  /** What the authenticator's second reply comes to, read with the platform's keys. */
  lemma DeviceReplies(env: Env, o: Order, d: Device, request: map<int, Value>, keys: PinKeys)
    requires Faithful(env.codec) && BlockCipher(env.prims) && Ready(o, d) && AesKey(keys.aes) && keys.proto == o.proto
    requires IsParameters(request) && 0x01 in request && 0x02 in request
    requires request[0x01] == Int(o.proto) && request[0x02] == Int(if o.perms == 0 then 0x05 else 0x09)
    requires forall key :: key in request <==> NamedIn(o, key)
    requires DeviceKeys(env, d, Raw(env.codec, Map(request))) == Some(keys)
    requires DeviceReads(env, keys, Raw(env.codec, Map(request))) == Some(env.prims.sha256(o.pin)[..16])
    ensures var reply := ReadStatus(Reply(Respond(env, d, [0x06] + Raw(env.codec, Map(request)))));
            Concluded(env, o, keys, reply) == Verdict(env, o, d, keys)
  {
    var params := Raw(env.codec, Map(request));
    DeviceDispatches(env, o, d, request);
    if Withheld(o, d) {
      assert ReadStatus(Reply([STATUS_MISSING_PARAMETER])) == Status(STATUS_MISSING_PARAMETER);
    } else {
      TokenDecided(env, o, d, params, keys);
    }
  }

  lemma TokenDecided(env: Env, o: Order, d: Device, request: seq<byte>, keys: PinKeys)
    requires Faithful(env.codec) && BlockCipher(env.prims) && Ready(o, d) && AesKey(keys.aes) && keys.proto == o.proto
    requires DeviceKeys(env, d, request) == Some(keys) && DeviceReads(env, keys, request) == Some(env.prims.sha256(o.pin)[..16])
    requires !Withheld(o, d)
    ensures Concluded(env, o, keys, ReadStatus(Reply(TokenReply(env, d, request)))) == Verdict(env, o, d, keys)
  {
    if env.prims.sha256(o.pin)[..16] == d.pinDigest {
      DecryptUndoesEncrypt(env.prims, keys, d.iv, d.token);
      var enc := Encrypt(env.prims, keys, d.iv, d.token).value;
      TokenReplied(env, d, request, keys, enc);
      RedeemReads(env, o, d, keys, enc);
    } else {
      PinRefused(env, d, request, keys);
    }
  }

  lemma PinRefused(env: Env, d: Device, request: seq<byte>, keys: PinKeys)
    requires DeviceKeys(env, d, request) == Some(keys) && DeviceReads(env, keys, request) != Some(d.pinDigest)
    ensures TokenReply(env, d, request) == [0x31]
  {
  }

  lemma DeviceDispatches(env: Env, o: Order, d: Device, request: map<int, Value>)
    requires Faithful(env.codec) && IsParameters(request) && 0x01 in request && 0x02 in request
    requires request[0x01] == Int(o.proto) && request[0x02] == Int(if o.perms == 0 then 0x05 else 0x09)
    requires forall key :: key in request <==> NamedIn(o, key)
    ensures var params := Raw(env.codec, Map(request));
            Respond(env, d, [0x06] + params) ==
            if Withheld(o, d) then [STATUS_MISSING_PARAMETER] else TokenReply(env, d, params)
  {
    var params := Raw(env.codec, Map(request));
    FieldOf(env.codec, request, 0x01);
    FieldOf(env.codec, request, 0x02);
    IntegerOf(env.codec, o.proto);
    IntegerOf(env.codec, if o.perms == 0 then 0x05 else 0x09);
    if d.permissionsAt.Some? {
      if d.permissionsAt.value in request {
        FieldOf(env.codec, request, d.permissionsAt.value);
      } else {
        NoOtherField(env.codec, request, d.permissionsAt.value);
      }
    }
    Dispatched(env, d, params, o.proto, o.perms != 0);
  }

  lemma Dispatched(env: Env, d: Device, params: seq<byte>, proto: int64, withPermissions: bool)
    requires env.codec.fields(params).Some?
    requires var m := env.codec.fields(params).value;
             && 0x01 in m && 0x02 in m && env.codec.integer(m[0x01]) == Some(proto)
             && env.codec.integer(m[0x02]) == Some(if withPermissions then 0x09 else 0x05)
    ensures Respond(env, d, [0x06] + params) ==
            if withPermissions && d.permissionsAt.Some? && d.permissionsAt.value !in env.codec.fields(params).value
            then [STATUS_MISSING_PARAMETER] else TokenReply(env, d, params)
  {
    OpensWithItsCommand(params);
  }

  lemma TokenReplied(env: Env, d: Device, request: seq<byte>, keys: PinKeys, enc: seq<byte>)
    requires DeviceKeys(env, d, request) == Some(keys) && DeviceReads(env, keys, request) == Some(d.pinDigest)
    requires Encrypt(env.prims, keys, d.iv, d.token) == Ok(enc)
    ensures ReadStatus(Reply(TokenReply(env, d, request))) == Body(Raw(env.codec, Map(map[0x02 := Octets(enc)])))
  {
    var b := Raw(env.codec, Map(map[0x02 := Octets(enc)]));
    assert ([0x00] + b)[1..] == b;
  }

  lemma RedeemReads(env: Env, o: Order, d: Device, keys: PinKeys, enc: seq<byte>)
    requires Faithful(env.codec) && Decrypt(env.prims, keys, enc) == Ok(d.token)
    ensures Redeem(env, o.proto, keys, Raw(env.codec, Map(map[0x02 := Octets(enc)]))) ==
            if TokenLength(o.proto, |d.token|) then Ok(Token(keys, d.token)) else Err(WrongTokenLength(|d.token|))
  {
    FieldOf(env.codec, map[0x02 := Octets(enc)], 0x02);
    OctetsOf(env.codec, enc);
  }

  // ----------------------------------------------------------- over the framing

  /** The call that asking with params makes. */
  function Asking(env: Env, ch: uint32, params: map<int, Value>, faults: seq<bool>): Call {
    Keys.Attempt(ch, 0x10, [0x06] + Raw(env.codec, Map(params)), faults)
  }

  function FaultsAfter(env: Env, ch: uint32, params: map<int, Value>, faults: seq<bool>): seq<bool> {
    Keys.RemainingAfter(ch, 0x10, [0x06] + Raw(env.codec, Map(params)), faults)
  }

  /** The message the authenticator gets of it. */
  function RequestMessage(env: Env, ch: uint32, params: map<int, Value>): Message {
    Message(ch, 0x10, [0x06] + Raw(env.codec, Map(params)))
  }

  function Unsent(c: Call): Failure {
    NoBody(NotReplied(if |c.data| > 7609 then TooLongToSend else CannotSend))
  }

  /** The reports of the channel among inbox are the authenticator's answers to what it received, whatever
      other channels' reports are between them, and then tail. */
  predicate Met(env: Env, d: Device, ch: uint32, received: seq<Message>, busy: seq<seq<seq<byte>>>, inbox: seq<Report>, tail: seq<Report>) {
    && |busy| == |received|
    && (forall a | a in Answers(env, d, received, busy) :: Proper(a))
    && Own(ch, inbox) == AllFrames(ch, Answers(env, d, received, busy)) + tail
  }

  lemma DeliveredFirst(env: Env, ch: uint32, params: map<int, Value>, faults: seq<bool>, more: seq<Call>)
    ensures var c := Asking(env, ch, params, faults);
            Delivered(ch, [c] + more) ==
            (if Whole(ch, c) then [RequestMessage(env, ch, params)] else []) + Delivered(ch, more)
  {
    var c := Asking(env, ch, params, faults);
    assert ([c] + more)[1..] == more;
  }

  /** Having received m first, the authenticator's first answer is the one to m. */
  lemma MetFirst(env: Env, d: Device, ch: uint32, m: Message, received: seq<Message>, busy: seq<seq<seq<byte>>>, inbox: seq<Report>,
                 tail: seq<Report>) returns (answer: Answer, after: seq<Report>)
    requires Met(env, d, ch, [m] + received, busy, inbox, tail)
    ensures busy != [] && answer == Answer(busy[0], m.cmd, Respond(env, d, m.data)) && Proper(answer)
    ensures Own(ch, inbox) == AnswerFrames(ch, answer) + after
    ensures forall rest :: Own(ch, rest) == after ==> Met(env, d, ch, received, busy[1..], rest, tail)
  {
    assert ([m] + received)[1..] == received;
    answer := Answer(busy[0], m.cmd, Respond(env, d, m.data));
    var answers := Answers(env, d, received, busy[1..]);
    assert Answers(env, d, [m] + received, busy) == [answer] + answers;
    assert ([answer] + answers)[1..] == answers;
    after := AllFrames(ch, answers) + tail;
    forall a | a in answers ensures Proper(a) {
      assert a in [answer] + answers;
    }
  }

  /** One command that was sent whole and is answered. */
  lemma AskAnswered(env: Env, ch: uint32, params: map<int, Value>, link: Link, answer: Answer, after: seq<Report>)
    requires env.codec.encode(Map(params)).Some? && Whole(ch, Asking(env, ch, params, link.faults))
    requires Proper(answer) && answer.cmd == CMD_CBOR && Own(ch, link.inbox) == AnswerFrames(ch, answer) + after
    ensures var asked := Ask(env, ch, params, link);
            && asked.calls == [Asking(env, ch, params, link.faults)]
            && asked.link.faults == FaultsAfter(env, ch, params, link.faults) && Own(ch, asked.link.inbox) == after
            && var reply := ReadStatus(Reply(answer.data));
            && asked.body == if reply.Body? then Ok(reply.b) else Err(NoBody(reply))
  {
    AwaitAnswer(Fresh(ch), answer, after);
    AwaitIgnoresForeign(Fresh(ch), link.inbox);
  }

  lemma AskUnsent(env: Env, ch: uint32, params: map<int, Value>, link: Link)
    requires env.codec.encode(Map(params)).Some? && !Whole(ch, Asking(env, ch, params, link.faults))
    ensures var asked := Ask(env, ch, params, link);
            && asked.calls == [Asking(env, ch, params, link.faults)]
            && asked.link == Link(FaultsAfter(env, ch, params, link.faults), link.inbox)
            && asked.body == Err(Unsent(Asking(env, ch, params, link.faults)))
  {
  }

  /** One command to an authenticator that answers all it receives: if the command is sent whole it is
      received, and what comes back is the answer to it; and so it goes on for the calls after it. */
  lemma AskMet(env: Env, d: Device, ch: uint32, params: map<int, Value>, link: Link, more: seq<Call>, busy: seq<seq<seq<byte>>>,
               tail: seq<Report>) returns (busy': seq<seq<seq<byte>>>)
    requires env.codec.encode(Map(params)).Some?
    requires Met(env, d, ch, Delivered(ch, [Asking(env, ch, params, link.faults)] + more), busy, link.inbox, tail)
    ensures var asked, c := Ask(env, ch, params, link), Asking(env, ch, params, link.faults);
            && asked.calls == [c] && asked.link.faults == FaultsAfter(env, ch, params, link.faults)
            && Met(env, d, ch, Delivered(ch, more), busy', asked.link.inbox, tail)
            && var reply := ReadStatus(Reply(Respond(env, d, [0x06] + Raw(env.codec, Map(params)))));
            && asked.body == if !Whole(ch, c) then Err(Unsent(c)) else if reply.Body? then Ok(reply.b) else Err(NoBody(reply))
  {
    DeliveredFirst(env, ch, params, link.faults, more);
    if Whole(ch, Asking(env, ch, params, link.faults)) {
      var answer, after := MetFirst(env, d, ch, RequestMessage(env, ch, params), Delivered(ch, more), busy, link.inbox, tail);
      AskAnswered(env, ch, params, link, answer, after);
      busy' := busy[1..];
      assert Own(ch, Ask(env, ch, params, link).link.inbox) == after;
    } else {
      AskUnsent(env, ch, params, link);
      busy' := busy;
      assert [] + Delivered(ch, more) == Delivered(ch, more);
    }
  }

  /** Nothing received, nothing owed. */
  lemma MetAtLast(env: Env, d: Device, ch: uint32, busy: seq<seq<seq<byte>>>, inbox: seq<Report>, tail: seq<Report>)
    requires Met(env, d, ch, Delivered(ch, []), busy, inbox, tail)
    ensures Own(ch, inbox) == tail
  {
    assert [] + tail == tail;
  }

  lemma AskedOnce(env: Env, ch: uint32, params: map<int, Value>, faults: seq<bool>)
    ensures var c := Asking(env, ch, params, faults);
            Delivered(ch, [c]) == if Whole(ch, c) then [RequestMessage(env, ch, params)] else []
  {
    DeliveredFirst(env, ch, params, faults, []);
    assert [Asking(env, ch, params, faults)] + [] == [Asking(env, ch, params, faults)];
  }

  lemma Encodes(c: Codec, m: map<int, Value>)
    requires Faithful(c) && IsParameters(m)
    ensures c.encode(Map(m)).Some?
  {
  }

  /** The first half against an authenticator that answers all it receives. */
  lemma KeyMet(env: Env, caps: byte, o: Order, d: Device, ch: uint32, link: Link, more: seq<Call>, busy: seq<seq<seq<byte>>>, tail: seq<Report>)
    returns (busy': seq<seq<seq<byte>>>)
    requires Faithful(env.codec) && o.proto in d.scalars && IsPoint(env.curve, Offered(env, d, o.proto)) && SpeaksCtap2(caps)
    requires Met(env, d, ch, Delivered(ch, [Asking(env, ch, AgreementRequest(o.proto), link.faults)] + more), busy, link.inbox, tail)
    ensures var agreed := AskForKey(env, caps, ch, o.proto, link);
            var c := Asking(env, ch, AgreementRequest(o.proto), link.faults);
            && agreed.calls == [c] && agreed.link.faults == FaultsAfter(env, ch, AgreementRequest(o.proto), link.faults)
            && Met(env, d, ch, Delivered(ch, more), busy', agreed.link.inbox, tail)
            && agreed.pub == if Whole(ch, c) then Ok(Offered(env, d, o.proto)) else Err(Unsent(c))
  {
    AgreementRequestFields(o.proto);
    Encodes(env.codec, AgreementRequest(o.proto));
    DeviceOffers(env, d, o.proto);
    busy' := AskMet(env, d, ch, AgreementRequest(o.proto), link, more, busy, tail);
  }

  /** And the second. */
  lemma TokenMet(env: Env, o: Order, d: Device, ch: uint32, link: Link, request: map<int, Value>, keys: PinKeys,
                 busy: seq<seq<seq<byte>>>, tail: seq<Report>)
    requires o.proto in d.scalars && env.codec.encode(Map(request)).Some? && Prepare(env, o, Offered(env, d, o.proto)) == Ok((request, keys))
    requires var reply := ReadStatus(Reply(Respond(env, d, [0x06] + Raw(env.codec, Map(request)))));
             Concluded(env, o, keys, reply) == Verdict(env, o, d, keys)
    requires Met(env, d, ch, Delivered(ch, [Asking(env, ch, request, link.faults)] + []), busy, link.inbox, tail)
    ensures var x, c := AskForToken(env, ch, o, Offered(env, d, o.proto), link), Asking(env, ch, request, link.faults);
            && x.calls == [c] && Own(ch, x.link.inbox) == tail
            && x.token == if Whole(ch, c) then Verdict(env, o, d, keys) else Err(Unsent(c))
  {
    var busy' := AskMet(env, d, ch, request, link, [], busy, tail);
    MetAtLast(env, d, ch, busy', Ask(env, ch, request, link).link.inbox, tail);
  }

  lemma FirstCall(env: Env, caps: byte, ch: uint32, o: Order, link: Link)
    requires Faithful(env.codec) && SpeaksCtap2(caps)
    ensures AskForKey(env, caps, ch, o.proto, link).calls == [Asking(env, ch, AgreementRequest(o.proto), link.faults)]
  {
    AgreementRequestFields(o.proto);
    Encodes(env.codec, AgreementRequest(o.proto));
  }

  /** Both halves, once it is settled what the second request is and what its answer comes to. */
  lemma ExchangeMet(env: Env, caps: byte, o: Order, d: Device, ch: uint32, link: Link, request: map<int, Value>, keys: PinKeys,
                    busy: seq<seq<seq<byte>>>, tail: seq<Report>)
    requires Faithful(env.codec) && o.proto in d.scalars && IsPoint(env.curve, Offered(env, d, o.proto)) && SpeaksCtap2(caps) && o.pin != []
    requires IsParameters(request) && Prepare(env, o, Offered(env, d, o.proto)) == Ok((request, keys))
    requires var reply := ReadStatus(Reply(Respond(env, d, [0x06] + Raw(env.codec, Map(request)))));
             Concluded(env, o, keys, reply) == Verdict(env, o, d, keys)
    requires Met(env, d, ch, Delivered(ch, Exchange(env, caps, ch, o, link).calls), busy, link.inbox, tail)
    ensures var first := Asking(env, ch, AgreementRequest(o.proto), link.faults);
            var second := Asking(env, ch, request, FaultsAfter(env, ch, AgreementRequest(o.proto), link.faults));
            var x := Exchange(env, caps, ch, o, link);
            && x.calls == [first] + (if Whole(ch, first) then [second] else [])
            && x.token == (if !Whole(ch, first) then Err(Unsent(first))
                           else if !Whole(ch, second) then Err(Unsent(second))
                           else Verdict(env, o, d, keys))
            && Own(ch, x.link.inbox) == tail
  {
    FirstCall(env, caps, ch, o, link);
    var agreed := PinExchange.ExchangeSplits(env, caps, ch, o, link);
    if agreed.pub.Ok? {
      BothMet(env, caps, o, d, ch, link, agreed, request, keys, busy, tail);
    } else {
      assert agreed.calls + [] == agreed.calls;
      var busy' := KeyMet(env, caps, o, d, ch, link, [], busy, tail);
      MetAtLast(env, d, ch, busy', agreed.link.inbox, tail);
    }
  }

  lemma BothMet(env: Env, caps: byte, o: Order, d: Device, ch: uint32, link: Link, agreed: Agreed, request: map<int, Value>, keys: PinKeys,
                busy: seq<seq<seq<byte>>>, tail: seq<Report>)
    requires Faithful(env.codec) && o.proto in d.scalars && IsPoint(env.curve, Offered(env, d, o.proto)) && SpeaksCtap2(caps)
    requires IsParameters(request) && Prepare(env, o, Offered(env, d, o.proto)) == Ok((request, keys))
    requires var reply := ReadStatus(Reply(Respond(env, d, [0x06] + Raw(env.codec, Map(request)))));
             Concluded(env, o, keys, reply) == Verdict(env, o, d, keys)
    requires agreed == AskForKey(env, caps, ch, o.proto, link) && agreed.pub.Ok?
    requires agreed.calls == [Asking(env, ch, AgreementRequest(o.proto), link.faults)]
    requires var second := AskForToken(env, ch, o, agreed.pub.value, agreed.link);
             Met(env, d, ch, Delivered(ch, agreed.calls + second.calls), busy, link.inbox, tail)
    ensures Whole(ch, Asking(env, ch, AgreementRequest(o.proto), link.faults))
    ensures var x := AskForToken(env, ch, o, agreed.pub.value, agreed.link);
            var c := Asking(env, ch, request, FaultsAfter(env, ch, AgreementRequest(o.proto), link.faults));
            && x.calls == [c] && Own(ch, x.link.inbox) == tail
            && x.token == if Whole(ch, c) then Verdict(env, o, d, keys) else Err(Unsent(c))
  {
    var more := AskForToken(env, ch, o, agreed.pub.value, agreed.link).calls;
    var busy' := KeyMet(env, caps, o, d, ch, link, more, busy, tail);
    assert more + [] == more;
    Encodes(env.codec, request);
    TokenCalls(env, ch, o, Offered(env, d, o.proto), agreed.link, request, keys);
    TokenMet(env, o, d, ch, agreed.link, request, keys, busy', tail);
  }

  lemma TokenCalls(env: Env, ch: uint32, o: Order, pub: seq<byte>, link: Link, request: map<int, Value>, keys: PinKeys)
    requires env.codec.encode(Map(request)).Some? && Prepare(env, o, pub) == Ok((request, keys))
    ensures AskForToken(env, ch, o, pub, link).calls == [Asking(env, ch, request, link.faults)]
  {
  }

  /** The calls of an exchange, as they are received. */
  lemma BothReceived(env: Env, ch: uint32, params: map<int, Value>, params': map<int, Value>, faults: seq<bool>)
    ensures var first, second := Asking(env, ch, params, faults), Asking(env, ch, params', FaultsAfter(env, ch, params, faults));
            Delivered(ch, [first] + (if Whole(ch, first) then [second] else [])) ==
            if !Whole(ch, first) then []
            else [RequestMessage(env, ch, params)] + if Whole(ch, second) then [RequestMessage(env, ch, params')] else []
  {
    var first, after := Asking(env, ch, params, faults), FaultsAfter(env, ch, params, faults);
    DeliveredFirst(env, ch, params, faults, if Whole(ch, first) then [Asking(env, ch, params', after)] else []);
    AskedOnce(env, ch, params', after);
  }

  /** What an exchange should come to: the two requests the authenticator is handed, as far as they can be
      sent, and the verdict if both can. */
  ghost predicate ComesTo(env: Env, o: Order, d: Device, ch: uint32, faults: seq<bool>, received: seq<Message>, token: Result<Token, Failure>) {
    && o.proto in d.scalars && Prepare(env, o, Offered(env, d, o.proto)).Ok?
    && var (request, keys) := Prepare(env, o, Offered(env, d, o.proto)).value;
    && SaysToken(env, o, Offered(env, d, o.proto), request, keys)
    && var asking := map[0x01 := Int(o.proto), 0x02 := Int(0x02)];
    var first, second := Asking(env, ch, asking, faults), Asking(env, ch, request, FaultsAfter(env, ch, asking, faults));
    if !Whole(ch, first) then
      received == [] && token == Err(Unsent(first))
    else if !Whole(ch, second) then
      received == [RequestMessage(env, ch, asking)] && token == Err(Unsent(second))
    else
      received == [RequestMessage(env, ch, asking), RequestMessage(env, ch, request)] && token == Verdict(env, o, d, keys)
  }

  lemma Settled(env: Env, o: Order, d: Device, ch: uint32, faults: seq<bool>, request: map<int, Value>, keys: PinKeys,
                calls: seq<Call>, token: Result<Token, Failure>)
    requires o.proto in d.scalars && Prepare(env, o, Offered(env, d, o.proto)) == Ok((request, keys))
    requires SaysToken(env, o, Offered(env, d, o.proto), request, keys)
    requires var first := Asking(env, ch, AgreementRequest(o.proto), faults);
             var second := Asking(env, ch, request, FaultsAfter(env, ch, AgreementRequest(o.proto), faults));
             && calls == [first] + (if Whole(ch, first) then [second] else [])
             && token == (if !Whole(ch, first) then Err(Unsent(first))
                          else if !Whole(ch, second) then Err(Unsent(second))
                          else Verdict(env, o, d, keys))
    ensures ComesTo(env, o, d, ch, faults, Delivered(ch, calls), token)
    ensures token.Ok? ==> token == Verdict(env, o, d, keys)
  {
    AgreementRequestFields(o.proto);
    var asking := map[0x01 := Int(o.proto), 0x02 := Int(0x02)];
    BothReceived(env, ch, asking, request, faults);
    var first, second := Asking(env, ch, asking, faults), Asking(env, ch, request, FaultsAfter(env, ch, asking, faults));
    if Whole(ch, first) && Whole(ch, second) {
      Pair(RequestMessage(env, ch, asking), RequestMessage(env, ch, request));
    }
  }

  lemma Pair(m: Message, m': Message)
    ensures [m] + [m'] == [m, m']
  {
  }

  /** What the authenticator is handed of an exchange, whatever its receiver was doing before. */
  function Received(env: Env, caps: byte, o: Order, receiver: State, link: Link): seq<Message> {
    Outputs(receiver, SentLog(receiver.channel, Exchange(env, caps, receiver.channel, o, link).calls))
  }

  /** The whole exchange, over the framing and the session. The authenticator, whatever its receiver was
      doing, is handed the agreement request and then the token request, byte for byte, as far as they can
      be sent; it answers what it is handed, with any number of keepalives and any interleaving with other
      channels' reports. Then its token is returned if the PIN has the digest set on it, the token has a
      legal length and nothing it demands is missing; the exchange is refused otherwise; all its answers
      are used up; and what the token authenticates later is what it computes itself. */
  lemma PinBuysToken(env: Env, caps: byte, o: Order, d: Device, receiver: State, link: Link,
                     busy: seq<seq<seq<byte>>>, tail: seq<Report>, data: seq<byte>)
    requires Lawful(env) && Ready(o, d) && SpeaksCtap2(caps)
    requires Met(env, d, receiver.channel, Received(env, caps, o, receiver, link), busy, link.inbox, tail)
    ensures var x := Exchange(env, caps, receiver.channel, o, link);
            && ComesTo(env, o, d, receiver.channel, link.faults, Received(env, caps, o, receiver, link), x.token)
            && Own(receiver.channel, x.link.inbox) == tail
            && (x.token.Ok? ==>
                  var (request, _) := Prepare(env, o, Offered(env, d, o.proto)).value;
                  Some(AuthParam(env.prims, x.token.value, data)) == DeviceAuthParam(env, d, Raw(env.codec, Map(request)), data))
  {
    var ch := receiver.channel;
    var request, keys := BothSidesAgree(env, o, d);
    var x := Exchange(env, caps, ch, o, link);
    DeviceReceives(receiver, x.calls);
    PointIsPoint(env.curve, d.scalars[o.proto]);
    DeviceReplies(env, o, d, request, keys);
    ExchangeMet(env, caps, o, d, ch, link, request, keys, busy, tail);
    Settled(env, o, d, ch, link.faults, request, keys, x.calls, x.token);
    if x.token.Ok? {
      ParametersAgree(env, o, d, Raw(env.codec, Map(request)), keys, data);
    }
  }

  lemma PointIsPoint(c: Curve, scalar: nat)
    requires Commutes(c)
    ensures IsPoint(c, c.point(scalar))
  {
  }

  lemma ParametersAgree(env: Env, o: Order, d: Device, request: seq<byte>, keys: PinKeys, data: seq<byte>)
    requires DeviceKeys(env, d, request) == Some(keys) && Verdict(env, o, d, keys).Ok?
    ensures Some(AuthParam(env.prims, Verdict(env, o, d, keys).value, data)) == DeviceAuthParam(env, d, request, data)
  {
    var sum := env.prims.hmac(d.token, data);
    assert sum[..DIGEST_SIZE] == sum;
  }

  /** An authenticator that looks for the permissions where section 6.5.5 of CTAP 2.1 numbers them does not
      find them in this exchange: exactly the requests that ask for permissions are refused for a missing
      parameter, whatever the PIN, once they are received. */
  lemma MissedPermissions(env: Env, caps: byte, o: Order, d: Device, receiver: State, link: Link, busy: seq<seq<seq<byte>>>, tail: seq<Report>)
    requires Lawful(env) && Ready(o, d) && SpeaksCtap2(caps) && d.permissionsAt == Some(CTAP21_PERMISSIONS)
    requires Met(env, d, receiver.channel, Received(env, caps, o, receiver, link), busy, link.inbox, tail)
    ensures var token := Exchange(env, caps, receiver.channel, o, link).token;
            && (o.perms > 0 ==> token.Err?)
            && (|Received(env, caps, o, receiver, link)| == 2 ==>
                  (o.perms > 0 <==> token == Err(NoBody(Status(STATUS_MISSING_PARAMETER)))))
  {
    var token, received := ExchangeComesTo(env, caps, o, d, receiver, link, busy, tail);
    RefusedAsMissing(env, o, d, receiver.channel, link.faults, received, token);
  }

  lemma RefusedAsMissing(env: Env, o: Order, d: Device, ch: uint32, faults: seq<bool>, received: seq<Message>, token: Result<Token, Failure>)
    requires ComesTo(env, o, d, ch, faults, received, token) && d.permissionsAt == Some(CTAP21_PERMISSIONS)
    ensures o.perms > 0 ==> token.Err?
    ensures |received| == 2 ==> (o.perms > 0 <==> token == Err(NoBody(Status(STATUS_MISSING_PARAMETER))))
  {
  }

  lemma ExchangeComesTo(env: Env, caps: byte, o: Order, d: Device, receiver: State, link: Link, busy: seq<seq<seq<byte>>>, tail: seq<Report>)
    returns (token: Result<Token, Failure>, received: seq<Message>)
    requires Lawful(env) && Ready(o, d) && SpeaksCtap2(caps)
    requires Met(env, d, receiver.channel, Received(env, caps, o, receiver, link), busy, link.inbox, tail)
    ensures token == Exchange(env, caps, receiver.channel, o, link).token && received == Received(env, caps, o, receiver, link)
    ensures ComesTo(env, o, d, receiver.channel, link.faults, received, token)
  {
    PinBuysToken(env, caps, o, d, receiver, link, busy, tail, []);
    token, received := Exchange(env, caps, receiver.channel, o, link).token, Received(env, caps, o, receiver, link);
  }
}
