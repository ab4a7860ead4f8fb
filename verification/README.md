# A verified model of go-authn/fido

`fido` talks to a FIDO security key: it cuts messages into 64-byte CTAPHID reports and puts replies
back together, negotiates a channel and waits for answers on a key other programs may be using at the
same time, reads authenticator data, and exchanges a PIN for a token. This project models those parts
in Dafny 4.11 and proves what they promise each other, over every trace of reports and every run of
calls. `dafny verify dfyconfig.toml` checks all of it.

## How it is laid out

| file | what it holds |
|---|---|
| `Bytes.dfy`, `Wrappers.dfy` | bytes, big-endian numbers of fixed and of any width, bit 7; `Option` and `Result` |
| `Framing.dfy` | `Split` and `Feed` as functions: `Cut` (the cutting loop for data of any length, its fields truncated as the conversions truncate them), the receiver's `State`, runs over traces |
| `FramingTheorems.dfy` | the packets of a message produce that message, from any state and under noise; the 7609-byte limit |
| `Wire.dfy` | the packets byte by byte, and what a receiver makes of the bytes of a report |
| `Provenance.dfy` | which reports a completed message came from; the converse inverse |
| `Reassembly.dfy` | the cutting loop over 64-byte buffers and the `Reassembler` class |
| `Session.dfy` | the receive loop as a function of the reports that arrive, and sessions of many calls |
| `Handshake.dfy` | the INIT handshake, and several programs opening one key |
| `Keys.dfy` | the transport and the `Key` class: sending, receiving, `Open`, `Close` |
| `Cbor.dfy` | the extent of a CBOR item for a decoder with limits: a scanner, and a grammar it is proved against |
| `Authenticator.dfy` | authenticator data, read and written |
| `PinProtocol.dfy` | both PIN/UV auth protocols over an abstract block cipher |
| `ClientPin.dfy` | COSE agreement keys, and the PIN-to-token exchange as a function of the link: its result, the calls it makes, what it leaves |
| `PinExchange.dfy` | the exchange as it runs over a key, and what it guarantees against any authenticator |
| `PinDevice.dfy` | an authenticator that reads what it receives and answers it, and what the exchange comes to with it |

## How the parts fit

A receiver is a `State`; `Feed` takes one report and yields a new state and an event: `Pending`,
`Done` or `Rejected`. The class `Reassembler` keeps its fields equal to the run of that function over
everything ever fed to it. Interleaving is stated through `Own(ch, inbox)`, the trace with other
channels' reports deleted: saying that it equals a list of packets says that the packets arrive in
order with anything of other channels between them. A transport is a log of what was sent, the finite
list of reports still to come (after which receiving fails), and a list saying which of the coming
sends fail. The class `Key` remembers, as ghosts, every call made since its channel was negotiated, and
its invariant ties what was sent, returned and left on the link to those calls, whatever they were.

Cryptography, the curve and the CBOR library are records of functions with stated laws: the block
cipher's two directions undo each other, both sides of an ECDH exchange come to the same secret, and
what the exchange encodes (64-bit numbers, strings, COSE keys and maps of those) decodes to what it was.
Randomness is an argument. The authenticator of `PinDevice` is a function from a received message to an
answer, and its answers in `PinBuysToken` are those to the messages its own receiver put together from
the reports the exchange sent: that it was asked anything is a conclusion, not a hypothesis. It goes by
the numbers of the standard: it reads and writes parameters, labels and statuses as literal numbers, has
a key of its own for each protocol, and takes only COSE keys that name the right type, algorithm and curve.

What a field means is stated apart from the functions that write and read it: byte order by what each
byte weighs (`Bytes.Weigh2`, `Bytes.Weigh4`), exclusive or bit by bit, the chaining of blocks block by
block, packets and replies byte by byte, requests as literal maps.

## Where the code differs from a comment or a standard

- A comment at `credential.go:88-89` says that encoding parsed authenticator data again would not
  reproduce the bytes. `Authenticator.ParseIff` shows that it does, for every accepted input.
- `Split` takes any command byte, but one of 0x80 or more comes back without its high bit:
  `FramingTheorems.RoundTripIff` gives the exact condition.
- A comment at `clientpin.go:162-165` says that an authenticator without "pinUvAuthToken" among its options
  is asked the older way. The code asks the older way exactly when no permissions are asked for, and looks
  at no options: `PinDevice.TokenRequestFields`.
- The code sends the permissions under key 0x07 and the relying party id under
  0x08 (`clientpin.go:43-44`), where section 6.5.5 of CTAP 2.1 numbers them 0x09 and 0x0A. The model
  follows the code, and its authenticator has a parameter for the key under which it demands permissions:
  none, as the repository's own test authenticator, or any. `PinDevice.MissedPermissions` shows what an
  authenticator that follows the standard does: it refuses exactly the exchanges that ask for permissions,
  with status 0x14.

## Model

| member | source | states |
|---|---|---|
| FramingTheorems.CutShape | fido.go:134-152 | a message of any length gives 1 + ceil((len-57)/59) packets of exactly 64 bytes on its channel, the first an initialisation packet, each later one numbered by its index |
| FramingTheorems.NumbersStayClearOfCommandsIff | fido.go:93-107 | every continuation reads as a continuation with its own number if and only if the message has at most 7609 bytes; past that, packet 129 reads as an initialisation packet |
| FramingTheorems.SelfStabilises | fido.go:134-232 | whatever state a receiver on the channel is in, the packets of a message complete it exactly at the last packet, never before, and give back channel, command and data |
| FramingTheorems.PartialDeliversNothing | key.go:135-143 | a request whose sending stops before its last packet delivers nothing |
| FramingTheorems.RunBounded | fido.go:97-107 | over every trace of reports of at most 64 bytes, at most 128 continuations are counted, the buffer never exceeds 57 + 59 per continuation, and no message of more than 7609 bytes comes out |
| FramingTheorems.OverlongNeverCompletes | fido.go:202-231 | a message announced longer than 7609 bytes never completes under any continuations |
| FramingTheorems.OverlongIsRecoveredFrom | fido.go:202-210 | and the next message is received all the same |
| FramingTheorems.RoundTripIff | fido.go:134-232 | from whatever state, the cutting loop without its guard round-trips a message if and only if it has at most 7609 bytes and its command is below 0x80 |
| FramingTheorems.OnlyAcceptedMatters | fido.go:194-221 | the messages of a trace and the state it leaves are those of its accepted reports |
| FramingTheorems.StreamSurvivesNoise | fido.go:194-232 | a list of messages comes out whole and in order from every trace whose accepted reports are their packets, rejected ones standing anywhere |
| FramingTheorems.AlwaysRejected | fido.go:195-217 | which reports are rejected in every state: under 5 bytes, of another channel, or an initialisation packet without its length |
| FramingTheorems.DuplicateIsRejected | fido.go:214-216 | a continuation accepted once is out of order whenever it comes again, whatever came between, until a message begins anew |
| Provenance.TrailExplains | fido.go:194-232 | after any trace the receiver's state is a function of the reports accepted since the last initialisation packet |
| Provenance.NoSplicing | fido.go:202-231 | on every trace a completed message is the announced number of bytes of one initialisation packet and the continuations 0..k-1 after it, with no message begun between, completed at the first report that brings enough |
| Provenance.InitForgetsThePast | fido.go:202-210 | after an initialisation packet everything is received as by a new receiver |
| Provenance.ReassembledMessageCutsBack | fido.go:134-152 | if reports of 64 bytes, zero past the announced length, complete a message, cutting the message gives those reports, byte for byte |
| Provenance.CompletedMessageCutsBack | fido.go:134-232 | on every trace, with anything between them, the reports a completed message came from are the packets of that message, if they are 64 bytes and zero past the announced length |
| Provenance.CutIsInjective | fido.go:134-152 | different messages have different packets |
| Reassembly.Split | fido.go:134-152 | refuses exactly the data of more than 7609 bytes, and otherwise returns 1 + ceil((len-57)/59) packets of 64 bytes with, byte by byte, the channel and the length most significant byte first, the command with bit 7 or the packet's number, the data in order and zeros after it; these are the packets the theorems are about |
| Reassembly.Reassembler.constructor | fido.go:183-185 | starts with nothing collected |
| Reassembly.Reassembler.Feed | fido.go:194-221 | keeps the fields equal to the run over everything fed so far; a rejection changes nothing; an initialisation packet completes at once if and only if it holds as many bytes as its fifth and sixth bytes announce, 256 times the one plus the other; a completed message comes from one message's reports in that log |
| Wire.PacketBytes | fido.go:134-152 | every byte of every packet of data of any length, its number and length truncated to their widths |
| Wire.ReportMeans | fido.go:194-232 | for a report of any bytes in any state: the error it is rejected with, or the new state and the message its bytes complete |
| Reassembly.Reassembler.Finish | fido.go:224-232 | completes once enough bytes are there, trimmed to the announced length, and starts over |
| FramingTheorems.FramesDeliver | fido.go:134-232 | the packets of a list of messages, one after another, come out as that list |
| Session.AwaitStopsIff | key.go:144-186 | the receive loop ends at an event after n reports if and only if those reports, other channels' left out, lead to it through partial reports and keepalives alone |
| Session.AwaitIsSilentIff | key.go:145-149 | it runs out of reports if and only if the trace brings its channel nothing but keepalives and an unfinished message |
| Session.ReplyIff | key.go:144-186 | a request is answered with d if and only if the trace brings its channel keepalives, then a message under the very command sent with data d; never for the keepalive and error commands |
| Session.OutcomeIff | key.go:144-186 | each other outcome by what the trace brings: no answer, if and only if nothing but keepalives and unfinished messages; a framing error, if and only if the channel's report that is not taken comes first; a refusal with its code (zero if it has none) and an answer to another command likewise |
| Session.AwaitIgnoresForeign | key.go:151-158 | the loop ends alike on a trace and on the trace without other channels' reports, and leaves alike |
| Session.SessionCorrelates | key.go:134-186 | over any number of calls, if each request delivered is met with keepalives and one answer under any interleaving, call i returns exactly answer i or its refusal, and the calls use up exactly those answers |
| Session.DeviceReceives | key.go:135-143 | a device in any state is handed exactly the requests sent whole, once each and in order, however many others were cut short |
| Session.SessionSeesOnlyItsChannel | key.go:151-158 | a session's results depend on its own channel's reports alone |
| Handshake.InitReplyInverse | fido.go:307-317 | reading an INIT reply inverts writing one, whatever follows |
| Handshake.InitReplyBytes | fido.go:307-317 | where each part of the reply stands: nonce 0-7, channel 8-11 most significant byte first, the four versions 12-15, capabilities 16 |
| Handshake.InitRequestBytes | key.go:83-92 | the request is one report: FF FF FF FF 86 00 08, the nonce, zeros |
| Handshake.ParsedInitAccountsForItsBytes | fido.go:307-317 | a reply is read if and only if it has 17 bytes, and what is read accounts for all of them |
| Handshake.OpenIff | key.go:83-105 | on every trace, Open succeeds if and only if keepalives and then an INIT reply with its own nonce are what the broadcast channel brings, and then holds the channel that reply names; it names another program if and only if the nonce there is that program's, and calls the reply malformed if and only if it has fewer than 17 bytes |
| Handshake.TwoPrograms | key.go:83-105 | two programs with different nonces, each listening from its own point on an arbitrary interleaving of reports, that both open a key which grants fresh channels hold different channels, each issued for its own nonce, and neither's later replies depend on the other's reports |
| Handshake.BothCanSucceed | key.go:83-105 | two programs can indeed both succeed on one bus: two replies that grant different channels, one after the other, each open the key for the program that listens from its own |
| Keys.Transport.Send | key.go:24-35 | logs the report unless this send fails |
| Keys.Transport.Receive | key.go:24-35 | takes the next report, or fails when there is none |
| Keys.Transport.Close | key.go:24-35 | counts the closing |
| Keys.Key.Close | key.go:65-72 | after it the transport has been closed exactly once since the key was made, however often it is called |
| Keys.Key.SendAll | key.go:139-143 | sends the packets up to the first that fails |
| Keys.Key.Listen | key.go:144-169 | the loop over the reassembler computes the function the session theorems are about, and leaves the link right after the report it ended at |
| Keys.Key.Exchange | key.go:134-186 | a request's packets, outcome and leftover reports are those of the session model |
| Keys.Key.RoundTrip | key.go:134-186 | the same, and the key's record of all its calls stays true |
| Keys.Open | key.go:83-105 | sends the one report FF FF FF FF 86 00 08 and the nonce; every failure closes the transport exactly once and hands over no key; success closes nothing, and the key owns the transport and holds the channel of the reply |
| Keys.KeyOnARun | key.go:134-186 | for every key after any run of calls: the results are the answers', nothing but the tail is left, and the device received exactly the whole requests |
| Cbor.ScanEncoded | authdata.go:138-148 | the scanner stops exactly at the end of an encoded item within the decoder's limits, whatever follows it |
| Cbor.ScanIff | authdata.go:138-148 | whatever the decoder's limits on nesting, elements and pairs, an item ends at n if and only if the first n bytes are the encoding of a well-formed item within them |
| Cbor.EncodingsArePrefixFree | authdata.go:138-148 | whatever the limits, no item's encoding begins another's, so a key of unstated length has one end |
| Cbor.ScanIgnoresWhatFollows | authdata.go:138-148 | the extensions after a key do not move its end |
| Cbor.WithinIff | authdata.go:138-148 | an item keeps to a decoder's limits if and only if its depth, counted from the inside out, is at most the levels, and its largest array and largest map hold no more than they may |
| Cbor.HeadBytes | authdata.go:138-148 | type, size and argument of an item as its bytes give them, the argument most significant byte first |
| Cbor.OpenMarks | authdata.go:138-148 | an item of indefinite length opens with 5F, 7F, 9F or BF and ends with FF |
| Authenticator.ParseAuthData | authdata.go:115-163 | whatever the decoder's limits, the parser with its moving cursor returns a if and only if a is well formed under them and the input is its encoding; and each part stands where it should: the hash in bytes 0-31, the flags in 32, the count in 33-36 most significant byte first, the AAGUID in 37-52, the credential id after its length in 53-54, then the key, then the extensions |
| Authenticator.ParseIff | authdata.go:115-163 | reading and writing authenticator data are inverse in all four settings of the AT and ED flags and under all limits of the decoder: no byte is dropped, shared or unaccounted for |
| Authenticator.RefusalsIff | authdata.go:115-163 | each of the six refusals, by exactly the bytes that draw it |
| Authenticator.FlagsAreBits | authdata.go:35-41 | the two flag tests are the masks of bits 6 and 7 |
| Authenticator.NothingMayFollow | authdata.go:151-163 | bytes after a complete encoding are refused: as unaccounted for, or as extension data that is not one item |
| Authenticator.NothingMayBeMissing | authdata.go:115-163 | an accepted input cut short anywhere is refused |
| PinProtocol.DecryptUndoesEncrypt | pinproto.go:99-141 | under both protocols and every vector, exactly the non-empty whole-block plaintexts encrypt, and decrypting gives them back |
| PinProtocol.DecryptIff | pinproto.go:122-141 | exactly non-empty whole blocks under a key of 16, 24 or 32 bytes decrypt (two or more under protocol two), and encrypting the result with the same vector restores the ciphertext |
| PinProtocol.EncryptIff | pinproto.go:99-119 | what is encrypted, and the vector and chained blocks that come of it |
| PinProtocol.EncryptRefusals | pinproto.go:99-112 | each refusal to encrypt, by exactly what draws it |
| PinProtocol.DecryptRefusals | pinproto.go:122-137 | each refusal to decrypt, by exactly what draws it |
| PinProtocol.XorIsBitwise | pinproto.go:113-114 | blocks are combined by exclusive or: each of the 128 bits is set if and only if the two it is made of differ |
| PinProtocol.EncryptBlocks | pinproto.go:113-114 | filling the buffer block by block is CBC encryption: each block is the cipher's image of a block whose bits say where the plain block differs from the ciphertext block before it, or from the vector |
| PinProtocol.DecryptBlocks | pinproto.go:138-139 | filling the buffer block by block is CBC decryption: the bits of each block say where the deciphered block differs from the ciphertext block before it, or from the vector |
| PinProtocol.EncryptBytes | pinproto.go:99-119 | encrypts exactly non-empty whole blocks under a key of 16, 24 or 32 bytes, with randomness if protocol two; under it the result is the vector and then the blocks chained from it, under the other the blocks chained from zeros |
| PinProtocol.DecryptBytes | pinproto.go:122-141 | what is decrypted is unchained from the vector in front of it under protocol two, from zeros under the other; the refusals are those of the inverse laws |
| PinProtocol.DeriveKeys | pinproto.go:71-91 | keys exist only under protocols one and two, carry their protocol and fit AES |
| PinProtocol.KeysAreParts | pinproto.go:61-91 | the AES key is the last and the HMAC key the first 32 bytes of the derivation, the same bytes under protocol one; keys exist exactly when the derivation does |
| Bytes.HighBitIsBitSeven | fido.go:201-205 | the command byte's test, setting and clearing are the masks of bit 7 |
| Bytes.ToBytesInverse | clientpin.go:283-288 | filling a fixed width with the number read from that many bytes restores them, leading zeros included |
| Bytes.Uint32Weighs | fido.go:198 | a 32-bit field is read most significant byte first |
| Bytes.FromBytesWeighs | clientpin.go:283-288 | a number of one, two or four bytes is read most significant byte first |
| ClientPin.CoseCoordinates | clientpin.go:278-296 | exactly uncompressed points are written, as the map of the five labels 1, 3, -1, -2, -3 with 2, -25, 1 and the point's own bytes as coordinates |
| ClientPin.CoseRoundTrip | clientpin.go:241-296 | reading the COSE key written for a point gives the point |
| ClientPin.CoseReadsPoints | clientpin.go:241-271 | whatever is read is a point of the curve with the coordinates that were sent |
| ClientPin.CoseRefusals | clientpin.go:241-271 | each refusal of a key to agree with, by exactly what is wrong with it |
| ClientPin.PrepareSays | clientpin.go:184-212 | whatever request is prepared is, number by number, the map it should be, and its field 6 holds the first 16 bytes of the PIN's SHA-256, chained and encrypted under the keys of this agreement |
| ClientPin.PrepareIff | pinproto.go:160-198 | each reason for not preparing a request, in the order they are found: no own key, not a point, no agreement, an unknown protocol, no expansion under the two names and a salt of 32 zeros, no PIN, no randomness |
| ClientPin.ReplyRefusals | clientpin.go:125-237 | each reason for not getting a point out of field 1, or a token out of field 2, of a reply |
| ClientPin.ReadStatusIff | ctap2.go:171-183 | a reply is read as a body b if and only if it is a zero byte and b; every other first byte is that status; an empty reply is neither |
| ClientPin.SpeaksCtap2IsABit | fido.go:242 | the capability test is the mask 0x04 |
| PinExchange.CborCall | ctap2.go:171-183 | the packets of the command byte and the encoded parameters are sent, and the reply's body is returned if its status byte is zero; the key's record, what is left to be received and the sends still to fail are those of that one call |
| PinExchange.KeyAgreement | clientpin.go:114-134 | makes at most one call, command 0x10 with 06 and the map of 1 to the protocol asked for and 2 to 2, sends its packets and nothing else, and reads the point offered; nothing is sent without CTAP2 |
| PinExchange.PINToken | clientpin.go:173-238 | the result, the requests sent, the reports left and the key's record are those of the exchange model; the calls are none, the key agreement request, or that and a token request that says what `ClientPin.PrepareSays` says to the point offered; a key without CTAP2 or an empty PIN sends nothing |
| PinExchange.BuyToken | clientpin.go:184-238 | the second half alone: none, or the one request that carries the PIN's digest to the point offered |
| PinExchange.ReadToken | clientpin.go:217-238 | the token, or the refusal, that the second reply's fields make |
| PinDevice.TokenRequestFields | clientpin.go:192-212 | with no permissions the request is the older subcommand and names neither permissions nor relying party; otherwise the newer one names the permissions, and the relying party if there is one; nothing else is in it |
| PinExchange.RedeemIff | clientpin.go:225-237 | whatever the reply, it buys a token if and only if its token field holds 16 or 32 bytes under protocol one, 48 under protocol two |
| PinExchange.TokensAreLegal | clientpin.go:173-238 | against any authenticator, a token handed out has its protocol's length, carries that protocol, and is the decryption of a token field of 16 or 32 bytes (protocol one) or 48 (two) in the reply to the very request prepared |
| PinDevice.BothSidesAgree | pinproto.go:177-198 | from the request it receives the authenticator derives the platform's keys, and recovers exactly the first 16 bytes of the SHA-256 of the PIN |
| PinDevice.DeviceReplies | clientpin_test.go:77-116 | the authenticator's answer to the token request, read with the platform's keys, is the issued token or the refusal due |
| PinDevice.PinBuysToken | clientpin.go:173-238 | over the framing, from any state of the authenticator's receiver, whatever sends fail and however reports interleave: it is handed exactly the agreement request for the order's protocol and then the token request, as far as they are sent whole; the token it issued is returned if and only if both are, the first 16 bytes of the PIN's SHA-256 are the digest set on it, no parameter it demands is missing and the token's length is legal, with the refusal for each other case; its answers are used up exactly; and later parameters match those it computes from the request it received |
| PinDevice.MissedPermissions | clientpin.go:43-44 | an authenticator that looks for permissions under 0x09 refuses, once it received both requests, exactly the exchanges that ask for permissions, with status 0x14 |

## Left out

- Real transport I/O, contexts, timeouts and blocking: a transport is a finite list of reports that ends in a receive failure, so nothing is said about an endless stream of keepalives, which only the context bounds.
- Use of a key after `Close` (its transport is nil there), the error a transport's own Close may return, and two keys sharing one transport object.
- `Ping`, `Wink`, `GetInfo`, `MakeCredential`, `GetAssertion`, `PINRetries`, `AuthData.PublicKey`: each is one call of what is modelled here plus field checks settled by reading a branch.
- `String` methods, status names and error wording; errors are values of a datatype.
- AES, SHA-256, HMAC, HKDF and P-256 arithmetic: functions given by their laws; nothing is claimed about secrecy.
- The CBOR library, whose source is not part of this model: the scanner follows section 3 of RFC 8949, with indefinite lengths, and limits on nesting, elements and pairs that are parameters (`Cbor.DEFAULT` holds the library's own); maps are encoded and decoded by functions whose laws cover the values the exchange encodes.
- The difference between a nil and an empty byte slice in `AuthData`: an absent part is the empty sequence.
- Slices of the buffers that `Feed` and `ParseAuthData` hand out share memory with them in the original; here they are values.
- The authenticator's PIN retry counter and lockout, which live in the device.
- Handshake.TwoPrograms: takes from the key that each INIT reply is a single report, as seventeen bytes are, and that no two grant the same channel.
- PinDevice.PinBuysToken: takes a platform that can make its own key, knows the protocol and has randomness, and an authenticator whose token is one or more whole blocks; the other branches of the exchange are in `ClientPin.Exchange` and in the methods over the key.
