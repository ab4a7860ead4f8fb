/**
 * Authenticator data: a fixed header, then parts the flag byte announces, one of them a CBOR item whose
 * length is stated nowhere. Reading and writing are proved to be each other's inverse, whatever room the
 * CBOR decoder has.
 */
module Authenticator {
  import opened Bytes
  import opened Wrappers
  import Cbor

  const HASH_SIZE := 32
  const HEADER_SIZE := HASH_SIZE + 1 + 4
  const AAGUID_SIZE := 16
  const ID_LENGTH_SIZE := 2

  datatype AuthData = AuthData(
    rpIdHash: seq<byte>, flags: byte, signCount: uint32,
    aaguid: seq<byte>, credentialId: seq<byte>, coseKey: seq<byte>,
    extensions: seq<byte>)

  datatype Problem = ShortHeader | ShortAttestedHeader | ShortCredentialId | KeyNotCbor | ExtensionsNotCbor | UnaccountedBytes

  datatype Read = Parsed(data: AuthData) | Refused(problem: Problem)

  /** Flag 6, AT: attested credential data follows. */
  predicate HasAttested(flags: byte) {
    flags / 0x40 % 2 == 1
  }

  /** Flag 7, ED: extension data follows. */
  predicate HasExtensions(flags: byte) {
    flags / 0x80 == 1
  }

  /** The two tests are the masks of bits 6 and 7. */
  lemma FlagsAreBits(b: bv8)
    ensures HasAttested(b as int) <==> b & 0x40 == 0x40
    ensures HasExtensions(b as int) <==> b & 0x80 == 0x80
  {
    assert HasAttested(b as int) <==> (b >> 6) & 1 == 1 by {
      assert (b >> 6) as int == (b as int) / 0x40;
    }
  }

  // ------------------------------------------------------------------ layout

  /** The values authenticator data can carry: each part is there if and only if its flag is set, the
      credential id fits its length field, and the key and the extensions are one CBOR item each. */
  predicate WellFormed(room: Cbor.Room, a: AuthData) {
    && |a.rpIdHash| == HASH_SIZE && |a.aaguid| == AAGUID_SIZE
    && (if HasAttested(a.flags) then |a.credentialId| < 0x1_0000 && Cbor.Scan(room, a.coseKey) == Cbor.Ends(|a.coseKey|)
        else a.aaguid == Zeros(AAGUID_SIZE) && a.credentialId == [] && a.coseKey == [])
    && (if HasExtensions(a.flags) then Cbor.Scan(room, a.extensions) == Cbor.Ends(|a.extensions|) else a.extensions == [])
  }

  function EncodeHeader(a: AuthData): seq<byte> {
    a.rpIdHash + [a.flags] + PutUint32(a.signCount)
  }

  function EncodeAttested(a: AuthData): seq<byte>
    requires |a.credentialId| < 0x1_0000
  {
    a.aaguid + PutUint16(|a.credentialId|) + a.credentialId + a.coseKey
  }

  function Encode(a: AuthData): seq<byte>
    requires |a.credentialId| < 0x1_0000
  {
    EncodeHeader(a) + (if HasAttested(a.flags) then EncodeAttested(a) else []) + a.extensions
  }

  // ----------------------------------------------------------------- reading

  function ReadHeader(b: seq<byte>): AuthData
    requires |b| >= HEADER_SIZE
  {
    AuthData(b[..HASH_SIZE], b[HASH_SIZE], Uint32(b[HASH_SIZE + 1..HEADER_SIZE]), Zeros(AAGUID_SIZE), [], [], [])
  }

  datatype Attested = Attested(data: AuthData, rest: seq<byte>) | Bad(problem: Problem)

  /** Reads the attested credential data at the front of rest. */
  function ReadAttested(room: Cbor.Room, a: AuthData, rest: seq<byte>): Attested {
    if |rest| < AAGUID_SIZE + ID_LENGTH_SIZE then Bad(ShortAttestedHeader)
    else
      var n := Uint16(rest[AAGUID_SIZE..AAGUID_SIZE + ID_LENGTH_SIZE]);
      var tail := rest[AAGUID_SIZE + ID_LENGTH_SIZE..];
      if |tail| < n then Bad(ShortCredentialId)
      else
        match Cbor.Scan(room, tail[n..])
        case NotWellFormed => Bad(KeyNotCbor)
        case Ends(at) =>
          Attested(a.(aaguid := rest[..AAGUID_SIZE], credentialId := tail[..n], coseKey := tail[n..][..at]), tail[n..][at..])
  }

  function ReadEnd(room: Cbor.Room, a: AuthData, rest: seq<byte>): Read {
    if HasExtensions(a.flags) then
      if Cbor.Scan(room, rest) == Cbor.Ends(|rest|) then Parsed(a.(extensions := rest)) else Refused(ExtensionsNotCbor)
    else if rest != [] then Refused(UnaccountedBytes)
    else Parsed(a)
  }

  function Parse(room: Cbor.Room, b: seq<byte>): Read {
    if |b| < HEADER_SIZE then Refused(ShortHeader)
    else
      var a, rest := ReadHeader(b), b[HEADER_SIZE..];
      if HasAttested(a.flags) then
        match ReadAttested(room, a, rest)
        case Bad(problem) => Refused(problem)
        case Attested(a', rest') => ReadEnd(room, a', rest')
      else ReadEnd(room, a, rest)
  }

  /** The parser as it runs: the value filled in field by field while the cursor moves along. */
  method ParseAuthData(room: Cbor.Room, b: seq<byte>) returns (r: Read)
    ensures r == Parse(room, b)
    ensures forall a :: r == Parsed(a) <==> WellFormed(room, a) && Encode(a) == b
    ensures r.Parsed? ==> StandsIn(r.data, b)
  {
    if Parse(room, b).Parsed? {
      ParsedBytes(room, b);
    }
    forall a ensures Parse(room, b) == Parsed(a) <==> WellFormed(room, a) && Encode(a) == b {
      ParseIff(room, b, a);
    }
    if |b| < HEADER_SIZE {
      return Refused(ShortHeader);
    }
    var a := AuthData(b[..HASH_SIZE], 0, 0, Zeros(AAGUID_SIZE), [], [], []);
    a := a.(flags := b[HASH_SIZE]);
    a := a.(signCount := Uint32(b[HASH_SIZE + 1..HEADER_SIZE]));
    var rest := b[HEADER_SIZE..];
    if HasAttested(a.flags) {
      if |rest| < AAGUID_SIZE + ID_LENGTH_SIZE {
        return Refused(ShortAttestedHeader);
      }
      a := a.(aaguid := rest[..AAGUID_SIZE]);
      var n := Uint16(rest[AAGUID_SIZE..AAGUID_SIZE + ID_LENGTH_SIZE]);
      rest := rest[AAGUID_SIZE + ID_LENGTH_SIZE..];
      if |rest| < n {
        return Refused(ShortCredentialId);
      }
      a := a.(credentialId := rest[..n]);
      rest := rest[n..];
      var key := Cbor.Scan(room, rest);
      if key.NotWellFormed? {
        return Refused(KeyNotCbor);
      }
      a := a.(coseKey := rest[..key.at]);
      rest := rest[key.at..];
    }
    if HasExtensions(a.flags) {
      if Cbor.Scan(room, rest) != Cbor.Ends(|rest|) {
        return Refused(ExtensionsNotCbor);
      }
      a := a.(extensions := rest);
      return Parsed(a);
    }
    if |rest| != 0 {
      return Refused(UnaccountedBytes);
    }
    return Parsed(a);
  }

  /** Where each part stands in the bytes it was read from. */
  predicate StandsIn(a: AuthData, b: seq<byte>) {
    && |b| >= 37 && a.rpIdHash == b[..32] && a.flags == b[32] && a.signCount == Weigh4(b[33], b[34], b[35], b[36])
    && if b[32] / 0x40 % 2 == 1 then
         |b| >= 55 &&
         var n: int := Weigh2(b[53], b[54]);
         && a.aaguid == b[37..53]
         && 55 + n + |a.coseKey| <= |b| && a.credentialId == b[55..55 + n]
         && a.coseKey == b[55 + n..55 + n + |a.coseKey|] && a.extensions == b[55 + n + |a.coseKey|..]
       else
         a.aaguid == seq(16, _ => 0) && a.credentialId == [] && a.coseKey == [] && a.extensions == b[37..]
  }

  lemma HeaderBytes(b: seq<byte>)
    requires |b| >= 37
    ensures var a := ReadHeader(b);
            && a.rpIdHash == b[..32] && a.flags == b[32] && a.signCount == Weigh4(b[33], b[34], b[35], b[36])
            && a.aaguid == seq(16, _ => 0) && a.credentialId == [] && a.coseKey == [] && a.extensions == []
  {
    Uint32Weighs(b[33..37]);
  }

  lemma ParsedBytes(room: Cbor.Room, b: seq<byte>)
    requires Parse(room, b).Parsed?
    ensures StandsIn(Parse(room, b).data, b)
  {
    HeaderBytes(b);
    var a, rest := ReadHeader(b), b[37..];
    if HasAttested(a.flags) {
      var n, at := AttestedUnfolds(room, a, rest);
      var read := ReadAttested(room, a, rest);
      Uint16Weighs(rest[16..18]);
      assert rest[..16] == b[37..53] && rest[16] == b[53] && rest[17] == b[54] && rest[18..] == b[55..];
      Slices(b, n, at);
      EndGives(room, read.data, read.rest);
    } else {
      EndGives(room, a, rest);
    }
  }

  lemma Slices(b: seq<byte>, n: nat, at: nat)
    requires 55 + n + at <= |b|
    ensures b[55..][..n] == b[55..55 + n] && b[55..][n..][..at] == b[55 + n..55 + n + at] && b[55..][n..][at..] == b[55 + n + at..]
  {
  }

  // ---------------------------------------------------------------- bijection

  lemma HeaderOfEncoding(a: AuthData, tail: seq<byte>)
    requires |a.rpIdHash| == HASH_SIZE
    ensures var b := EncodeHeader(a) + tail;
            && |EncodeHeader(a)| == HEADER_SIZE
            && ReadHeader(b) == AuthData(a.rpIdHash, a.flags, a.signCount, Zeros(AAGUID_SIZE), [], [], [])
            && b[HEADER_SIZE..] == tail
  {
    var b := EncodeHeader(a) + tail;
    Uint32Inverse(a.signCount);
    assert b[HASH_SIZE + 1..HEADER_SIZE] == PutUint32(a.signCount);
    assert b[..HASH_SIZE] == a.rpIdHash;
  }

  lemma EncodingOfHeader(b: seq<byte>)
    requires |b| >= HEADER_SIZE
    ensures EncodeHeader(ReadHeader(b)) + b[HEADER_SIZE..] == b
  {
    PutUint32Inverse(b[HASH_SIZE + 1..HEADER_SIZE]);
  }

  lemma AttestedOfEncoding(room: Cbor.Room, a: AuthData, start: AuthData, tail: seq<byte>)
    requires |a.aaguid| == AAGUID_SIZE && |a.credentialId| < 0x1_0000 && Cbor.Scan(room, a.coseKey) == Cbor.Ends(|a.coseKey|)
    ensures ReadAttested(room, start, EncodeAttested(a) + tail) ==
            Attested(start.(aaguid := a.aaguid, credentialId := a.credentialId, coseKey := a.coseKey), tail)
  {
    var rest := EncodeAttested(a) + tail;
    Uint16Inverse(|a.credentialId|);
    assert rest[..AAGUID_SIZE] == a.aaguid;
    assert rest[AAGUID_SIZE..AAGUID_SIZE + ID_LENGTH_SIZE] == PutUint16(|a.credentialId|);
    var after := rest[AAGUID_SIZE + ID_LENGTH_SIZE..];
    assert after == a.credentialId + (a.coseKey + tail);
    assert after[|a.credentialId|..] == a.coseKey + tail;
    Cbor.ScanIgnoresWhatFollows(room, a.coseKey, tail);
    assert a.coseKey[..|a.coseKey|] == a.coseKey;
  }

  lemma SplitAt(b: seq<byte>, n: nat)
    requires n <= |b|
    ensures b[..n] + b[n..] == b
  {
  }

  lemma Pieces(rest: seq<byte>, n: nat, at: nat)
    requires AAGUID_SIZE + ID_LENGTH_SIZE + n + at <= |rest|
    ensures var tail := rest[AAGUID_SIZE + ID_LENGTH_SIZE..];
            rest[..AAGUID_SIZE] + rest[AAGUID_SIZE..AAGUID_SIZE + ID_LENGTH_SIZE] + tail[..n] + tail[n..][..at] + tail[n..][at..] == rest
  {
    var tail := rest[AAGUID_SIZE + ID_LENGTH_SIZE..];
    var front := rest[..AAGUID_SIZE] + rest[AAGUID_SIZE..AAGUID_SIZE + ID_LENGTH_SIZE];
    SplitAt(tail, n);
    SplitAt(tail[n..], at);
    assert front + tail == rest;
    FourParts(front, tail[..n], tail[n..][..at], tail[n..][at..]);
  }

  lemma FourParts(a: seq<byte>, b: seq<byte>, c: seq<byte>, d: seq<byte>)
    ensures a + b + c + d == a + (b + (c + d))
  {
  }

  /** What was read, in terms of the bytes it was read from. */
  lemma AttestedUnfolds(room: Cbor.Room, start: AuthData, rest: seq<byte>) returns (n: uint16, at: nat)
    requires ReadAttested(room, start, rest).Attested?
    ensures AAGUID_SIZE + ID_LENGTH_SIZE + n + at <= |rest|
    ensures n == Uint16(rest[AAGUID_SIZE..AAGUID_SIZE + ID_LENGTH_SIZE])
    ensures var tail := rest[AAGUID_SIZE + ID_LENGTH_SIZE..];
            && Cbor.Scan(room, tail[n..]) == Cbor.Ends(at)
            && ReadAttested(room, start, rest) ==
               Attested(start.(aaguid := rest[..AAGUID_SIZE], credentialId := tail[..n], coseKey := tail[n..][..at]), tail[n..][at..])
  {
    n := Uint16(rest[AAGUID_SIZE..AAGUID_SIZE + ID_LENGTH_SIZE]);
    at := Cbor.Scan(room, rest[AAGUID_SIZE + ID_LENGTH_SIZE..][n..]).at;
  }

  lemma EncodingOfAttested(room: Cbor.Room, start: AuthData, rest: seq<byte>)
    requires ReadAttested(room, start, rest).Attested?
    ensures var read := ReadAttested(room, start, rest);
            && read.data == start.(aaguid := read.data.aaguid, credentialId := read.data.credentialId, coseKey := read.data.coseKey)
            && |read.data.aaguid| == AAGUID_SIZE && |read.data.credentialId| < 0x1_0000
            && Cbor.Scan(room, read.data.coseKey) == Cbor.Ends(|read.data.coseKey|)
            && EncodeAttested(read.data) + read.rest == rest
  {
    var n, at := AttestedUnfolds(room, start, rest);
    var body := rest[AAGUID_SIZE + ID_LENGTH_SIZE..][n..];
    PutUint16Inverse(rest[AAGUID_SIZE..AAGUID_SIZE + ID_LENGTH_SIZE]);
    Pieces(rest, n, at);
    Cbor.ScanIgnoresWhatFollows(room, body, []);
    assert body[..at] + [] == body[..at];
  }

  lemma ParseOfEncoding(room: Cbor.Room, a: AuthData)
    requires WellFormed(room, a)
    ensures Parse(room, Encode(a)) == Parsed(a)
  {
    var attested := if HasAttested(a.flags) then EncodeAttested(a) else [];
    HeaderOfEncoding(a, attested + a.extensions);
    EncodingInParts(a, EncodeHeader(a), attested);
    if HasAttested(a.flags) {
      AttestedOfEncoding(room, a, ReadHeader(Encode(a)), a.extensions);
    } else {
      assert attested + a.extensions == a.extensions;
    }
  }

  lemma EndGives(room: Cbor.Room, a: AuthData, rest: seq<byte>)
    requires ReadEnd(room, a, rest).Parsed? && a.extensions == []
    ensures ReadEnd(room, a, rest).data == a.(extensions := rest)
    ensures if HasExtensions(a.flags) then Cbor.Scan(room, rest) == Cbor.Ends(|rest|) else rest == []
  {
  }

  lemma EncodingInParts(a: AuthData, header: seq<byte>, attested: seq<byte>)
    requires |a.credentialId| < 0x1_0000 && header == EncodeHeader(a)
    requires attested == if HasAttested(a.flags) then EncodeAttested(a) else []
    ensures Encode(a) == header + (attested + a.extensions)
  {
  }

  lemma EncodingOfParse(room: Cbor.Room, b: seq<byte>)
    requires Parse(room, b).Parsed?
    ensures WellFormed(room, Parse(room, b).data) && Encode(Parse(room, b).data) == b
  {
    var a, rest := ReadHeader(b), b[HEADER_SIZE..];
    var whole, header := Parse(room, b).data, EncodeHeader(ReadHeader(b));
    EncodingOfHeader(b);
    if HasAttested(a.flags) {
      EncodingOfAttested(room, a, rest);
      var read := ReadAttested(room, a, rest);
      EndGives(room, read.data, read.rest);
      EncodingInParts(whole, header, EncodeAttested(read.data));
    } else {
      EndGives(room, a, rest);
      EncodingInParts(whole, header, []);
      assert [] + rest == rest;
    }
  }

  /** Where the parts before the extensions end. */
  function PartsEnd(room: Cbor.Room, b: seq<byte>): Option<nat>
    requires |b| >= 37
  {
    if b[32] / 0x40 % 2 != 1 then Some(37)
    else if |b| < 55 then None
    else
      var n: int := Weigh2(b[53], b[54]);
      if |b| < 55 + n then None
      else
        match Cbor.Scan(room, b[55 + n..])
        case NotWellFormed => None
        case Ends(at) => Some(55 + n + at)
  }

  /** Each refusal, by exactly the bytes that draw it. */
  lemma RefusalsIff(room: Cbor.Room, b: seq<byte>)
    ensures Parse(room, b) == Refused(ShortHeader) <==> |b| < 37
    ensures |b| >= 37 ==>
              var r, attested, k := Parse(room, b), b[32] / 0x40 % 2 == 1, PartsEnd(room, b);
              && (r == Refused(ShortAttestedHeader) <==> attested && |b| < 55)
              && (r == Refused(ShortCredentialId) <==> attested && |b| >= 55 && |b| < 55 + Weigh2(b[53], b[54]))
              && (r == Refused(KeyNotCbor) <==> attested && |b| >= 55 && |b| >= 55 + Weigh2(b[53], b[54]) && k.None?)
              && (k.Some? ==>
                    && k.value <= |b|
                    && (r == Refused(ExtensionsNotCbor) <==> b[32] >= 0x80 && Cbor.Scan(room, b[k.value..]) != Cbor.Ends(|b| - k.value))
                    && (r == Refused(UnaccountedBytes) <==> b[32] < 0x80 && k.value < |b|))
              && (r in {Refused(ExtensionsNotCbor), Refused(UnaccountedBytes)} ==> k.Some?)
  {
    if |b| >= 37 {
      var a := ReadHeader(b);
      if HasAttested(a.flags) {
        AttestedOutcomes(room, b, a);
        if PartsEnd(room, b).Some? {
          EndOutcomes(room, ReadAttested(room, a, b[37..]).data, b, PartsEnd(room, b).value);
        }
      } else {
        EndOutcomes(room, a, b, 37);
      }
    }
  }

  lemma EndOutcomes(room: Cbor.Room, a: AuthData, b: seq<byte>, k: nat)
    requires k <= |b|
    ensures ReadEnd(room, a, b[k..]) == Refused(ExtensionsNotCbor) <==>
            a.flags >= 0x80 && Cbor.Scan(room, b[k..]) != Cbor.Ends(|b| - k)
    ensures ReadEnd(room, a, b[k..]) == Refused(UnaccountedBytes) <==> a.flags < 0x80 && k < |b|
    ensures ReadEnd(room, a, b[k..]).Refused? ==> ReadEnd(room, a, b[k..]).problem in {ExtensionsNotCbor, UnaccountedBytes}
  {
  }

  lemma AttestedOutcomes(room: Cbor.Room, b: seq<byte>, a: AuthData)
    requires |b| >= 37 && b[32] / 0x40 % 2 == 1
    ensures var read, k := ReadAttested(room, a, b[37..]), PartsEnd(room, b);
            && (read == Bad(ShortAttestedHeader) <==> |b| < 55)
            && (read == Bad(ShortCredentialId) <==> |b| >= 55 && |b| < 55 + Weigh2(b[53], b[54]))
            && (read == Bad(KeyNotCbor) <==> |b| >= 55 && |b| >= 55 + Weigh2(b[53], b[54]) && k.None?)
            && (read.Bad? ==> read.problem in {ShortAttestedHeader, ShortCredentialId, KeyNotCbor})
            && (read.Attested? <==> k.Some?)
            && (k.Some? ==> k.value <= |b| && read.rest == b[k.value..] && read.data.flags == a.flags)
  {
    if |b| >= 55 {
      var rest := b[37..];
      Uint16Weighs(rest[16..18]);
      assert rest[16] == b[53] && rest[17] == b[54] && rest[18..] == b[55..];
      var n: nat := Weigh2(b[53], b[54]);
      if 55 + n <= |b| {
        assert b[55..][n..] == b[55 + n..];
        if Cbor.Scan(room, b[55 + n..]).Ends? {
          Slices(b, n, Cbor.Scan(room, b[55 + n..]).at);
        }
      }
    }
  }

  /** Bytes after a complete encoding are never overlooked: they are refused, as unaccounted for or, when
      extensions were announced, as part of extension data that is not one item. */
  lemma NothingMayFollow(room: Cbor.Room, a: AuthData, tail: seq<byte>)
    requires WellFormed(room, a) && tail != []
    ensures Parse(room, Encode(a) + tail) == Refused(if HasExtensions(a.flags) then ExtensionsNotCbor else UnaccountedBytes)
  {
    var attested := if HasAttested(a.flags) then EncodeAttested(a) else [];
    var rest := a.extensions + tail;
    HeaderOfEncoding(a, attested + rest);
    EncodingInParts(a, EncodeHeader(a), attested);
    FourParts(EncodeHeader(a), attested, a.extensions, tail);
    if HasAttested(a.flags) {
      AttestedOfEncoding(room, a, ReadHeader(Encode(a) + tail), rest);
    } else {
      assert attested + rest == rest;
    }
    EndRefuses(room, a, tail);
  }

  lemma EndRefuses(room: Cbor.Room, a: AuthData, tail: seq<byte>)
    requires WellFormed(room, a) && tail != []
    ensures a.extensions + tail != []
    ensures HasExtensions(a.flags) ==> Cbor.Scan(room, a.extensions + tail) != Cbor.Ends(|a.extensions + tail|)
  {
    if HasExtensions(a.flags) {
      Cbor.ScanIgnoresWhatFollows(room, a.extensions, tail);
      assert a.extensions[..|a.extensions|] == a.extensions;
    }
  }

  /** An accepted input cut short anywhere is refused. */
  lemma NothingMayBeMissing(room: Cbor.Room, b: seq<byte>, n: nat)
    requires Parse(room, b).Parsed? && n < |b|
    ensures Parse(room, b[..n]).Refused?
  {
    assert b[..n] + b[n..] == b;
    if Parse(room, b[..n]).Parsed? {
      EncodingOfParse(room, b[..n]);
      NothingMayFollow(room, Parse(room, b[..n]).data, b[n..]);
    }
  }

  /** The bytes are read as a exactly when they are a's encoding: nothing is dropped, shared or left over,
      and every well-formed value can be read back, under each of the four settings of the two flags. */
  lemma ParseIff(room: Cbor.Room, b: seq<byte>, a: AuthData)
    ensures Parse(room, b) == Parsed(a) <==> WellFormed(room, a) && Encode(a) == b
  {
    if Parse(room, b).Parsed? {
      EncodingOfParse(room, b);
    }
    if WellFormed(room, a) {
      ParseOfEncoding(room, a);
    }
  }
}
