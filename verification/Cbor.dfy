/**
 * The extent of a CBOR data item (section 3 of RFC 8949): where the first well-formed item of a byte
 * string ends, for a decoder with limits. The scanner follows the bytes; the grammar it is proved against
 * builds them.
 */
module Cbor {
  import opened Bytes

  datatype Extent = Ends(at: nat) | NotWellFormed

  const BREAK: byte := 0xFF
  const INDEFINITE := 31

  // ----------------------------------------------------------------- limits

  /** What a decoder still has room for: so many more levels, and so many elements in any one array and
      pairs in any one map. Arrays and maps take a level, and so does a tag directly inside a tag. */
  datatype Room = Room(levels: nat, tagged: bool, elements: nat, pairs: nat)

  /** The library's own limits. */
  const DEFAULT := Room(32, false, 0x2_0000, 0x2_0000)

  function Inside(r: Room): Room
    requires r.levels > 0
  {
    r.(levels := r.levels - 1, tagged := false)
  }

  predicate MayTag(r: Room) {
    r.tagged ==> r.levels > 0
  }

  function InTag(r: Room): Room
    requires MayTag(r)
  {
    r.(levels := if r.tagged then r.levels - 1 else r.levels, tagged := true)
  }

  /** How many items one array, or one map, may hold. */
  function Capacity(r: Room, pairs: bool): nat {
    if pairs then 2 * r.pairs else r.elements
  }

  // ---------------------------------------------------------------- scanner

  /** The first bytes of an item: its major type, the five bits beside it, the argument and their size. */
  datatype Head = Head(major: nat, info: nat, arg: nat, size: nat) | NoHead

  function ArgumentSize(info: nat): nat {
    if info == 24 then 1 else if info == 25 then 2 else if info == 26 then 4 else if info == 27 then 8 else 0
  }

  function ReadHead(b: seq<byte>): (h: Head)
    ensures h.Head? ==> h.major < 8 && h.info < 32 && 1 <= h.size <= |b|
  {
    if b == [] then NoHead
    else
      var major, info := b[0] / 32, b[0] % 32;
      if info < 24 then Head(major, info, info, 1)
      else if info == INDEFINITE then Head(major, info, 0, 1)
      else if info > 27 || |b| < 1 + ArgumentSize(info) then NoHead
      else Head(major, info, FromBytes(b[1..1 + ArgumentSize(info)]), 1 + ArgumentSize(info))
  }

  function Plus(n: nat, e: Extent): Extent {
    match e
    case NotWellFormed => NotWellFormed
    case Ends(at) => Ends(n + at)
  }

  /** The end of the first item of b. */
  function Scan(r: Room, b: seq<byte>): (e: Extent)
    ensures e.Ends? ==> 1 <= e.at <= |b|
    decreases |b|, 0
  {
    var h := ReadHead(b);
    if h.NoHead? then NotWellFormed
    else if h.major <= 1 then
      if h.info == INDEFINITE then NotWellFormed else Ends(h.size)
    else if h.major <= 3 then
      if h.info == INDEFINITE then Plus(1, ScanChunks(b[1..], h.major))
      else if h.size + h.arg <= |b| then Ends(h.size + h.arg) else NotWellFormed
    else if h.major <= 5 then
      var pairs := h.major == 5;
      if r.levels == 0 then NotWellFormed
      else if h.info == INDEFINITE then Plus(1, ScanToBreak(Inside(r), b[1..], pairs, true, Capacity(r, pairs)))
      else if h.arg > (if pairs then r.pairs else r.elements) then NotWellFormed
      else Plus(h.size, ScanMany(Inside(r), b[h.size..], if pairs then 2 * h.arg else h.arg))
    else if h.major == 6 then
      if h.info == INDEFINITE || !MayTag(r) then NotWellFormed else Plus(h.size, Scan(InTag(r), b[h.size..]))
    else
      if h.info == INDEFINITE || (h.info == 24 && h.arg < 32) then NotWellFormed else Ends(h.size)
  }

  /** The end of the first count items of b. */
  function ScanMany(r: Room, b: seq<byte>, count: nat): (e: Extent)
    ensures e.Ends? ==> e.at <= |b|
    decreases |b|, 1, count
  {
    if count == 0 then Ends(0)
    else
      match Scan(r, b)
      case NotWellFormed => NotWellFormed
      case Ends(n) => Plus(n, ScanMany(r, b[n..], count - 1))
  }

  /** The end of the items of b, at most left of them, up to and including a break; in pairs, the break
      comes after a whole pair. */
  function ScanToBreak(r: Room, b: seq<byte>, pairs: bool, even: bool, left: nat): (e: Extent)
    ensures e.Ends? ==> 1 <= e.at <= |b|
    decreases |b|, 1
  {
    if b == [] then NotWellFormed
    else if b[0] == BREAK then
      if pairs && !even then NotWellFormed else Ends(1)
    else
      match Scan(r, b)
      case NotWellFormed => NotWellFormed
      case Ends(n) => if left == 0 then NotWellFormed else Plus(n, ScanToBreak(r, b[n..], pairs, !even, left - 1))
  }

  /** The end of the definite-length strings of one type up to and including a break. */
  function ScanChunks(b: seq<byte>, major: nat): (e: Extent)
    ensures e.Ends? ==> 1 <= e.at <= |b|
    decreases |b|, 1
  {
    if b == [] then NotWellFormed
    else if b[0] == BREAK then Ends(1)
    else
      var h := ReadHead(b);
      if h.NoHead? || h.major != major || h.info == INDEFINITE || h.size + h.arg > |b| then NotWellFormed
      else Plus(h.size + h.arg, ScanChunks(b[h.size + h.arg..], major))
  }

  // ---------------------------------------------------------------- grammar

  /** How an argument is carried: beside the type, or as 1, 2, 4 or 8 bytes after it. */
  datatype Argument = Beside(n: nat) | After(octets: seq<byte>)

  datatype Chunks = NoChunks | Chunk(length: Argument, data: seq<byte>, rest: Chunks)

  datatype Items = NoItems | More(item: Item, rest: Items)

  datatype Item =
    | Leaf(major: nat, arg: Argument)                             // an integer, a simple value or a float
    | String(text: bool, length: Argument, data: seq<byte>)
    | Chunked(text: bool, chunks: Chunks)                         // a string of indefinite length
    | Group(pairs: bool, count: Argument, items: Items)           // an array of count items, or a map of count pairs
    | OpenGroup(pairs: bool, items: Items)                        // the same, of indefinite length
    | Tagged(tag: Argument, content: Item)

  function Value(a: Argument): nat {
    match a
    case Beside(n) => n
    case After(octets) => FromBytes(octets)
  }

  function Octets(a: Argument): seq<byte> {
    match a
    case Beside(_) => []
    case After(octets) => octets
  }

  function Info(a: Argument): nat {
    match a
    case Beside(n) => n
    case After(octets) => if |octets| == 1 then 24 else if |octets| == 2 then 25 else if |octets| == 4 then 26 else 27
  }

  predicate Carried(a: Argument) {
    match a
    case Beside(n) => n < 24
    case After(octets) => |octets| in {1, 2, 4, 8}
  }

  function Count(items: Items): nat {
    match items
    case NoItems => 0
    case More(_, rest) => 1 + Count(rest)
  }

  predicate ChunksOk(chunks: Chunks) {
    match chunks
    case NoChunks => true
    case Chunk(length, data, rest) => Carried(length) && Value(length) == |data| && ChunksOk(rest)
  }

  predicate ItemsOk(items: Items) {
    match items
    case NoItems => true
    case More(item, rest) => Ok(item) && ItemsOk(rest)
  }

  predicate Even(items: Items) {
    match items
    case NoItems => true
    case More(_, rest) => !Even(rest)
  }

  /** Lengths and counts are true, maps hold whole pairs, and one-byte simple values are at least 32. */
  predicate Ok(i: Item) {
    match i
    case Leaf(major, arg) => Carried(arg) && (major <= 1 || (major == 7 && (|Octets(arg)| == 1 ==> Value(arg) >= 32)))
    case String(_, length, data) => Carried(length) && Value(length) == |data|
    case Chunked(_, chunks) => ChunksOk(chunks)
    case Group(pairs, count, items) => Carried(count) && ItemsOk(items) && Count(items) == (if pairs then 2 * Value(count) else Value(count))
    case OpenGroup(pairs, items) => ItemsOk(items) && (pairs ==> Even(items))
    case Tagged(tag, content) => Carried(tag) && Ok(content)
  }

  /** The item keeps to the limits. */
  predicate Within(r: Room, i: Item)
    decreases i
  {
    match i
    case Group(pairs, _, items) => r.levels > 0 && Count(items) <= Capacity(r, pairs) && ItemsWithin(Inside(r), items)
    case OpenGroup(pairs, items) => r.levels > 0 && Count(items) <= Capacity(r, pairs) && ItemsWithin(Inside(r), items)
    case Tagged(_, content) => MayTag(r) && Within(InTag(r), content)
    case _ => true
  }

  predicate ItemsWithin(r: Room, items: Items)
    decreases items
  {
    match items
    case NoItems => true
    case More(item, rest) => Within(r, item) && ItemsWithin(r, rest)
  }

  function PutHead(major: nat, a: Argument): seq<byte>
    requires major < 8 && Carried(a)
  {
    [major * 32 + Info(a)] + Octets(a)
  }

  function PutOpen(major: nat): seq<byte>
    requires major < 8
  {
    [major * 32 + INDEFINITE]
  }

  function StringMajor(text: bool): nat {
    if text then 3 else 2
  }

  function GroupMajor(pairs: bool): nat {
    if pairs then 5 else 4
  }

  function EncodeChunks(text: bool, chunks: Chunks): seq<byte>
    requires ChunksOk(chunks)
  {
    match chunks
    case NoChunks => [BREAK]
    case Chunk(length, data, rest) => PutHead(StringMajor(text), length) + data + EncodeChunks(text, rest)
  }

  function EncodeItems(items: Items): seq<byte>
    requires ItemsOk(items)
  {
    match items
    case NoItems => []
    case More(item, rest) => Encode(item) + EncodeItems(rest)
  }

  function Encode(i: Item): seq<byte>
    requires Ok(i)
  {
    match i
    case Leaf(major, arg) => PutHead(major, arg)
    case String(text, length, data) => PutHead(StringMajor(text), length) + data
    case Chunked(text, chunks) => PutOpen(StringMajor(text)) + EncodeChunks(text, chunks)
    case Group(pairs, count, items) => PutHead(GroupMajor(pairs), count) + EncodeItems(items)
    case OpenGroup(pairs, items) => PutOpen(GroupMajor(pairs)) + EncodeItems(items) + [BREAK]
    case Tagged(tag, content) => PutHead(6, tag) + Encode(content)
  }

  // ------------------------------------------- every item is scanned whole

  lemma InitialByte(major: nat, info: nat)
    requires major < 8 && info < 32
    ensures (major * 32 + info) / 32 == major && (major * 32 + info) % 32 == info
    ensures info < INDEFINITE ==> major * 32 + info != BREAK
  {
  }

  lemma ReadPutHead(major: nat, a: Argument, tail: seq<byte>)
    requires major < 8 && Carried(a)
    ensures var h := PutHead(major, a);
            && ReadHead(h + tail) == Head(major, Info(a), Value(a), |h|)
            && h[0] != BREAK
            && Info(a) != INDEFINITE
  {
    InitialByte(major, Info(a));
    var b := PutHead(major, a) + tail;
    assert b[0] == major * 32 + Info(a);
    assert b[1..1 + |Octets(a)|] == Octets(a);
  }

  lemma ScanChunk(major: nat, length: Argument, data: seq<byte>, more: seq<byte>)
    requires major < 8 && Carried(length) && Value(length) == |data|
    ensures var h := PutHead(major, length);
            ScanChunks(h + data + more, major) == Plus(|h| + |data|, ScanChunks(more, major))
  {
    var h := PutHead(major, length);
    var b := h + data + more;
    ReadPutHead(major, length, data + more);
    assert b == h + (data + more);
    assert b[|h| + |data|..] == more;
  }

  lemma ScanLeaf(r: Room, major: nat, arg: Argument, tail: seq<byte>)
    requires Ok(Leaf(major, arg))
    ensures Scan(r, PutHead(major, arg) + tail) == Ends(|PutHead(major, arg)|)
  {
    ReadPutHead(major, arg, tail);
  }

  /** A head followed by a body and whatever comes after. */
  lemma ReadHeadOf(major: nat, a: Argument, body: seq<byte>, tail: seq<byte>)
    requires major < 8 && Carried(a)
    ensures ReadHead(PutHead(major, a) + body + tail) == Head(major, Info(a), Value(a), |PutHead(major, a)|)
    ensures Info(a) != INDEFINITE
  {
    var h := PutHead(major, a);
    ReadPutHead(major, a, body + tail);
    assert h + body + tail == h + (body + tail);
  }

  lemma ScanAfter(r: Room, h: seq<byte>, body: seq<byte>, tail: seq<byte>, major: nat, info: nat, arg: nat)
    requires major in {2, 3, 6} && info != INDEFINITE && ReadHead(h + body + tail) == Head(major, info, arg, |h|)
    requires if major == 6 then MayTag(r) && Scan(InTag(r), body + tail) == Ends(|body|) else arg == |body|
    ensures Scan(r, h + body + tail) == Ends(|h + body|)
  {
    assert (h + body + tail)[|h|..] == body + tail;
  }

  lemma ScanGroup(r: Room, h: seq<byte>, body: seq<byte>, tail: seq<byte>, pairs: bool, info: nat, arg: nat)
    requires info != INDEFINITE && ReadHead(h + body + tail) == Head(GroupMajor(pairs), info, arg, |h|)
    requires r.levels > 0 && (if pairs then arg <= r.pairs else arg <= r.elements)
    requires ScanMany(Inside(r), body + tail, if pairs then 2 * arg else arg) == Ends(|body|)
    ensures Scan(r, h + body + tail) == Ends(|h + body|)
  {
    assert (h + body + tail)[|h|..] == body + tail;
  }

  lemma ReadPutOpen(major: nat, body: seq<byte>)
    requires 2 <= major <= 5
    ensures ReadHead(PutOpen(major) + body) == Head(major, INDEFINITE, 0, 1)
    ensures (PutOpen(major) + body)[1..] == body
  {
  }

  lemma ScanOpenString(r: Room, text: bool, body: seq<byte>, tail: seq<byte>)
    requires ScanChunks(body + tail, StringMajor(text)) == Ends(|body|)
    ensures Scan(r, PutOpen(StringMajor(text)) + body + tail) == Ends(|PutOpen(StringMajor(text)) + body|)
  {
    ReadPutOpen(StringMajor(text), body + tail);
    assert PutOpen(StringMajor(text)) + body + tail == PutOpen(StringMajor(text)) + (body + tail);
  }

  lemma ScanOpenGroup(r: Room, pairs: bool, body: seq<byte>, tail: seq<byte>)
    requires r.levels > 0 && ScanToBreak(Inside(r), body + tail, pairs, true, Capacity(r, pairs)) == Ends(|body|)
    ensures Scan(r, PutOpen(GroupMajor(pairs)) + body + tail) == Ends(|PutOpen(GroupMajor(pairs)) + body|)
  {
    ReadPutOpen(GroupMajor(pairs), body + tail);
    assert PutOpen(GroupMajor(pairs)) + body + tail == PutOpen(GroupMajor(pairs)) + (body + tail);
  }

  lemma ScanNext(r: Room, b: seq<byte>, one: seq<byte>, more: seq<byte>, count: nat)
    requires b == one + more && Scan(r, b) == Ends(|one|)
    ensures ScanMany(r, b, count + 1) == Plus(|one|, ScanMany(r, more, count))
  {
    assert b[|one|..] == more;
  }

  lemma ScanNextToBreak(r: Room, b: seq<byte>, one: seq<byte>, more: seq<byte>, pairs: bool, even: bool, left: nat)
    requires b == one + more && Scan(r, b) == Ends(|one|) && b[0] != BREAK && left > 0
    ensures ScanToBreak(r, b, pairs, even, left) == Plus(|one|, ScanToBreak(r, more, pairs, !even, left - 1))
  {
    assert b[|one|..] == more;
  }

  lemma {:induction false} ScanChunksEncoded(text: bool, chunks: Chunks, tail: seq<byte>)
    requires ChunksOk(chunks)
    ensures ScanChunks(EncodeChunks(text, chunks) + tail, StringMajor(text)) == Ends(|EncodeChunks(text, chunks)|)
  {
    match chunks
    case NoChunks =>
    case Chunk(length, data, rest) =>
      var h := PutHead(StringMajor(text), length);
      assert EncodeChunks(text, chunks) + tail == h + data + (EncodeChunks(text, rest) + tail);
      ScanChunk(StringMajor(text), length, data, EncodeChunks(text, rest) + tail);
      ScanChunksEncoded(text, rest, tail);
  }

  lemma {:induction false} ScanManyEncoded(r: Room, items: Items, tail: seq<byte>)
    requires ItemsOk(items) && ItemsWithin(r, items)
    ensures ScanMany(r, EncodeItems(items) + tail, Count(items)) == Ends(|EncodeItems(items)|)
    decreases items
  {
    match items
    case NoItems =>
    case More(item, rest) =>
      var one, body := Encode(item), EncodeItems(rest);
      ScanEncoded(r, item, body + tail);
      ScanManyEncoded(r, rest, tail);
      assert one + body + tail == one + (body + tail);
      ScanNext(r, one + body + tail, one, body + tail, Count(rest));
  }

  lemma ScanBreak(r: Room, pairs: bool, even: bool, left: nat, tail: seq<byte>)
    requires pairs ==> even
    ensures var body := EncodeItems(NoItems) + [BREAK];
            ScanToBreak(r, body + tail, pairs, even, left) == Ends(|body|)
  {
  }

  lemma EncodedBeforeBreak(item: Item, rest: Items, tail: seq<byte>)
    requires Ok(item) && ItemsOk(rest)
    ensures EncodeItems(More(item, rest)) + [BREAK] == Encode(item) + (EncodeItems(rest) + [BREAK])
    ensures EncodeItems(More(item, rest)) + [BREAK] + tail == Encode(item) + (EncodeItems(rest) + [BREAK] + tail)
  {
  }

  lemma {:induction false} ScanToBreakEncoded(r: Room, items: Items, pairs: bool, even: bool, left: nat, tail: seq<byte>)
    requires ItemsOk(items) && ItemsWithin(r, items) && (pairs ==> (Even(items) <==> even)) && Count(items) <= left
    ensures ScanToBreak(r, EncodeItems(items) + [BREAK] + tail, pairs, even, left) == Ends(|EncodeItems(items) + [BREAK]|)
    decreases items
  {
    match items
    case NoItems =>
      ScanBreak(r, pairs, even, left, tail);
    case More(item, rest) =>
      ScanEncoded(r, item, EncodeItems(rest) + [BREAK] + tail);
      ScanToBreakEncoded(r, rest, pairs, !even, left - 1, tail);
      ScanMoreToBreak(r, item, rest, pairs, even, left, tail);
  }

  lemma ScanMoreToBreak(r: Room, item: Item, rest: Items, pairs: bool, even: bool, left: nat, tail: seq<byte>)
    requires Ok(item) && ItemsOk(rest) && left > 0
    requires Scan(r, Encode(item) + (EncodeItems(rest) + [BREAK] + tail)) == Ends(|Encode(item)|)
    requires ScanToBreak(r, EncodeItems(rest) + [BREAK] + tail, pairs, !even, left - 1) == Ends(|EncodeItems(rest) + [BREAK]|)
    ensures var body := EncodeItems(More(item, rest)) + [BREAK];
            ScanToBreak(r, body + tail, pairs, even, left) == Ends(|body|)
  {
    var one, more := Encode(item), EncodeItems(rest) + [BREAK] + tail;
    FirstByte(item);
    EncodedBeforeBreak(item, rest, tail);
    ScanNextToBreak(r, one + more, one, more, pairs, even, left);
  }

  lemma FirstByte(i: Item)
    requires Ok(i)
    ensures Encode(i) != [] && Encode(i)[0] != BREAK
  {
  }

  /** The scanner stops exactly at the end of an item that keeps to the limits, whatever follows it. */
  lemma {:induction false} ScanEncoded(r: Room, i: Item, tail: seq<byte>)
    requires Ok(i) && Within(r, i)
    ensures Scan(r, Encode(i) + tail) == Ends(|Encode(i)|)
    decreases i
  {
    match i
    case Leaf(major, arg) =>
      ScanLeaf(r, major, arg, tail);
    case String(text, length, data) =>
      ReadHeadOf(StringMajor(text), length, data, tail);
      ScanAfter(r, PutHead(StringMajor(text), length), data, tail, StringMajor(text), Info(length), |data|);
    case Chunked(text, chunks) =>
      ScanChunksEncoded(text, chunks, tail);
      ScanOpenString(r, text, EncodeChunks(text, chunks), tail);
    case Group(pairs, count, items) =>
      ScanManyEncoded(Inside(r), items, tail);
      ReadHeadOf(GroupMajor(pairs), count, EncodeItems(items), tail);
      ScanGroup(r, PutHead(GroupMajor(pairs), count), EncodeItems(items), tail, pairs, Info(count), Value(count));
    case OpenGroup(pairs, items) =>
      ScanToBreakEncoded(Inside(r), items, pairs, true, Capacity(r, pairs), tail);
      assert Encode(i) == PutOpen(GroupMajor(pairs)) + (EncodeItems(items) + [BREAK]);
      ScanOpenGroup(r, pairs, EncodeItems(items) + [BREAK], tail);
    case Tagged(tag, content) =>
      ScanEncoded(InTag(r), content, tail);
      ReadHeadOf(6, tag, Encode(content), tail);
      ScanAfter(r, PutHead(6, tag), Encode(content), tail, 6, Info(tag), Value(tag));
  }

  // -------------------------------- and whatever is scanned is an item

  /** A head that was read is put back by its argument. */
  lemma PutReadHead(b: seq<byte>) returns (a: Argument)
    requires ReadHead(b).Head? && ReadHead(b).info != INDEFINITE
    ensures var h := ReadHead(b);
            && Carried(a) && Value(a) == h.arg && (|Octets(a)| == 1 <==> h.info == 24)
            && PutHead(h.major, a) == b[..h.size]
  {
    var h := ReadHead(b);
    a := if h.info < 24 then Beside(h.info) else After(b[1..h.size]);
    assert b[..h.size] == [b[0]] + b[1..h.size];
  }

  lemma ReadOpen(b: seq<byte>)
    requires ReadHead(b).Head? && ReadHead(b).info == INDEFINITE
    ensures PutOpen(ReadHead(b).major) == b[..1] && ReadHead(b).size == 1
  {
  }

  lemma Cut2(b: seq<byte>, n: nat, m: nat)
    requires n <= |b| && m <= |b[n..]|
    ensures b[..n + m] == b[..n] + b[n..][..m]
  {
  }

  lemma {:induction false} ChunksScanned(b: seq<byte>, text: bool) returns (chunks: Chunks)
    requires ScanChunks(b, StringMajor(text)).Ends?
    ensures ChunksOk(chunks) && EncodeChunks(text, chunks) == b[..ScanChunks(b, StringMajor(text)).at]
    decreases |b|
  {
    if b[0] == BREAK {
      return NoChunks;
    }
    var length, n, m := ChunkUnfolds(b, StringMajor(text));
    var rest := ChunksScanned(b[n..], text);
    var size := |PutHead(StringMajor(text), length)|;
    chunks := Chunk(length, b[size..n], rest);
    Cut2(b, n, m);
    assert b[..n] == b[..size] + b[size..n];
  }

  lemma ChunkUnfolds(b: seq<byte>, major: nat) returns (length: Argument, n: nat, m: nat)
    requires major < 8 && ScanChunks(b, major).Ends? && b[0] != BREAK
    ensures Carried(length) && 1 <= |PutHead(major, length)| <= n <= |b|
    ensures PutHead(major, length) == b[..|PutHead(major, length)|]
    ensures Value(length) == n - |PutHead(major, length)|
    ensures ScanChunks(b[n..], major) == Ends(m) && ScanChunks(b, major) == Ends(n + m)
  {
    var h := ReadHead(b);
    length := PutReadHead(b);
    n := h.size + h.arg;
    m := ScanChunks(b[n..], major).at;
  }

  lemma {:induction false} ManyScanned(r: Room, b: seq<byte>, count: nat) returns (items: Items)
    requires ScanMany(r, b, count).Ends?
    ensures ItemsOk(items) && ItemsWithin(r, items) && Count(items) == count
    ensures EncodeItems(items) == b[..ScanMany(r, b, count).at]
    decreases |b|, 3, count
  {
    if count == 0 {
      items := NoItems;
    } else {
      var n, m := ManyUnfolds(r, b, count);
      var item := ItemScanned(r, b);
      var rest := ManyScanned(r, b[n..], count - 1);
      items := More(item, rest);
      Cut2(b, n, m);
      assert EncodeItems(items) == Encode(item) + EncodeItems(rest);
    }
  }

  lemma ManyUnfolds(r: Room, b: seq<byte>, count: nat) returns (n: nat, m: nat)
    requires count > 0 && ScanMany(r, b, count).Ends?
    ensures Scan(r, b) == Ends(n) && 1 <= n <= |b| && ScanMany(r, b[n..], count - 1) == Ends(m)
    ensures ScanMany(r, b, count) == Ends(n + m)
  {
    n := Scan(r, b).at;
    m := ScanMany(r, b[n..], count - 1).at;
  }

  lemma ToBreakUnfolds(r: Room, b: seq<byte>, pairs: bool, even: bool, left: nat) returns (n: nat, m: nat)
    requires ScanToBreak(r, b, pairs, even, left).Ends? && b[0] != BREAK
    ensures left > 0 && Scan(r, b) == Ends(n) && n <= |b| && ScanToBreak(r, b[n..], pairs, !even, left - 1) == Ends(m)
    ensures ScanToBreak(r, b, pairs, even, left) == Ends(n + m)
  {
    n := Scan(r, b).at;
    m := ScanToBreak(r, b[n..], pairs, !even, left - 1).at;
  }

  lemma ToBreakStops(r: Room, b: seq<byte>, pairs: bool, even: bool, left: nat)
    requires ScanToBreak(r, b, pairs, even, left).Ends? && b[0] == BREAK
    ensures ScanToBreak(r, b, pairs, even, left) == Ends(1) && b[..1] == [BREAK] && (pairs ==> even)
  {
  }

  lemma BrokenOff(b: seq<byte>, n: nat, m: nat, item: Item, rest: Items)
    requires n <= |b| && m <= |b[n..]| && Ok(item) && ItemsOk(rest)
    requires Encode(item) == b[..n] && EncodeItems(rest) + [BREAK] == b[n..][..m]
    ensures EncodeItems(More(item, rest)) + [BREAK] == b[..n + m]
  {
    Cut2(b, n, m);
    EncodedBeforeBreak(item, rest, []);
  }

  lemma {:induction false} ToBreakScanned(r: Room, b: seq<byte>, pairs: bool, even: bool, left: nat) returns (items: Items)
    requires ScanToBreak(r, b, pairs, even, left).Ends?
    ensures ItemsOk(items) && ItemsWithin(r, items) && (pairs ==> (Even(items) <==> even)) && Count(items) <= left
    ensures EncodeItems(items) + [BREAK] == b[..ScanToBreak(r, b, pairs, even, left).at]
    decreases |b|, 3
  {
    if b[0] == BREAK {
      ToBreakStops(r, b, pairs, even, left);
      items := NoItems;
    } else {
      var n, m := ToBreakUnfolds(r, b, pairs, even, left);
      var item := ItemScanned(r, b);
      var rest := ToBreakScanned(r, b[n..], pairs, !even, left - 1);
      items := More(item, rest);
      BrokenOff(b, n, m, item, rest);
    }
  }

  lemma {:induction false} ItemScanned(r: Room, b: seq<byte>) returns (i: Item)
    requires Scan(r, b).Ends?
    ensures Ok(i) && Within(r, i) && Encode(i) == b[..Scan(r, b).at]
    decreases |b|, 2
  {
    if ReadHead(b).info == INDEFINITE {
      i := OpenScanned(r, b);
    } else {
      i := ClosedScanned(r, b);
    }
  }

  lemma OpenUnfolds(r: Room, b: seq<byte>) returns (major: nat, body: seq<byte>, n: nat)
    requires Scan(r, b).Ends? && ReadHead(b).info == INDEFINITE
    ensures 2 <= major <= 5 && Scan(r, b) == Ends(1 + n)
    ensures major <= 3 ==> ScanChunks(body, major) == Ends(n)
    ensures major > 3 ==> r.levels > 0 && ScanToBreak(Inside(r), body, major == 5, true, Capacity(r, major == 5)) == Ends(n)
    ensures body == b[1..] && |body| < |b| && n <= |body| && b[..1 + n] == PutOpen(major) + body[..n]
  {
    major, body, n := ReadHead(b).major, b[1..], Scan(r, b).at - 1;
    ReadOpen(b);
    Cut2(b, 1, n);
  }

  lemma {:induction false} OpenScanned(r: Room, b: seq<byte>) returns (i: Item)
    requires Scan(r, b).Ends? && ReadHead(b).info == INDEFINITE
    ensures Ok(i) && Within(r, i) && Encode(i) == b[..Scan(r, b).at]
    decreases |b|, 1
  {
    var major, body, n := OpenUnfolds(r, b);
    if major <= 3 {
      var chunks := ChunksScanned(body, major == 3);
      i := Chunked(major == 3, chunks);
    } else {
      var items := ToBreakScanned(Inside(r), body, major == 5, true, Capacity(r, major == 5));
      i := OpenGroup(major == 5, items);
      assert Encode(i) == PutOpen(major) + (EncodeItems(items) + [BREAK]);
    }
  }

  /** An item with a definite head: the head, and what the scanner does with the rest. */
  lemma ClosedUnfolds(r: Room, b: seq<byte>) returns (h: Head, a: Argument, body: seq<byte>, n: nat)
    requires Scan(r, b).Ends? && ReadHead(b).info != INDEFINITE
    ensures h.Head? && h.major < 8 && Carried(a) && Value(a) == h.arg && |body| < |b| && n <= |body|
    ensures Scan(r, b) == Ends(h.size + n) && b[..h.size + n] == PutHead(h.major, a) + body[..n]
    ensures h.major <= 1 || h.major == 7 ==> n == 0 && (h.major == 7 && |Octets(a)| == 1 ==> h.arg >= 32)
    ensures 2 <= h.major <= 3 ==> n == h.arg
    ensures h.major == 4 ==> r.levels > 0 && h.arg <= r.elements && ScanMany(Inside(r), body, h.arg) == Ends(n)
    ensures h.major == 5 ==> r.levels > 0 && h.arg <= r.pairs && ScanMany(Inside(r), body, 2 * h.arg) == Ends(n)
    ensures h.major == 6 ==> MayTag(r) && Scan(InTag(r), body) == Ends(n)
  {
    h := ReadHead(b);
    body, n := b[h.size..], Scan(r, b).at - h.size;
    a := PutReadHead(b);
    Cut2(b, h.size, n);
  }

  lemma {:induction false} ClosedScanned(r: Room, b: seq<byte>) returns (i: Item)
    requires Scan(r, b).Ends? && ReadHead(b).info != INDEFINITE
    ensures Ok(i) && Within(r, i) && Encode(i) == b[..Scan(r, b).at]
    decreases |b|, 1
  {
    var h, a, body, n := ClosedUnfolds(r, b);
    if h.major <= 1 || h.major == 7 {
      i := Leaf(h.major, a);
    } else if h.major <= 3 {
      i := String(h.major == 3, a, body[..n]);
    } else if h.major <= 5 {
      var items := ManyScanned(Inside(r), body, if h.major == 5 then 2 * h.arg else h.arg);
      i := Group(h.major == 5, a, items);
    } else {
      var content := ItemScanned(InTag(r), body);
      i := Tagged(a, content);
    }
  }

  /** An item is scanned at n exactly when the first n bytes are the encoding of a well-formed item that
      keeps to the limits. */
  lemma ScanIff(r: Room, b: seq<byte>, n: nat)
    ensures Scan(r, b) == Ends(n) <==> n <= |b| && exists i :: Ok(i) && Within(r, i) && Encode(i) == b[..n]
  {
    if Scan(r, b) == Ends(n) {
      var i := ItemScanned(r, b);
    }
    if n <= |b| {
      forall i | Ok(i) && Within(r, i) && Encode(i) == b[..n] ensures Scan(r, b) == Ends(n) {
        ScanEncoded(r, i, b[n..]);
        assert b == b[..n] + b[n..];
      }
    }
  }

  /** What a head says, byte by byte: three bits of type, five that are the argument or the size of it, and
      the argument most significant byte first. */
  lemma HeadBytes(b: seq<byte>)
    requires ReadHead(b).Head?
    ensures var h := ReadHead(b);
            && h.major == b[0] / 0x20 && h.info == b[0] % 0x20
            && (h.info < 24 ==> h.size == 1 && h.arg == h.info)
            && (h.info == 24 ==> h.size == 2 && h.arg == b[1])
            && (h.info == 25 ==> h.size == 3 && h.arg == Weigh2(b[1], b[2]))
            && (h.info == 26 ==> h.size == 5 && h.arg == Weigh4(b[1], b[2], b[3], b[4]))
            && (h.info == 27 ==>
                  h.size == 9 && h.arg == 0x1_0000_0000 * Weigh4(b[1], b[2], b[3], b[4]) + Weigh4(b[5], b[6], b[7], b[8]))
            && h.info !in {28, 29, 30}
            && (h.info == 31 ==> h.size == 1)
  {
    var h := ReadHead(b);
    var argument := b[1..h.size];
    FromBytesWeighs(argument);
    if h.info == 27 {
      FromEightBytesWeighs(argument);
      FromBytesWeighs(argument[..4]);
      FromBytesWeighs(argument[4..]);
    }
  }

  /** An item of indefinite length opens with one of four bytes and ends with 0xFF. */
  lemma OpenMarks(r: Room, b: seq<byte>)
    requires Scan(r, b).Ends? && b[0] % 0x20 == 31
    ensures b[0] in {0x5F, 0x7F, 0x9F, 0xBF} && b[Scan(r, b).at - 1] == 0xFF
  {
    var major, body, n := OpenUnfolds(r, b);
    InitialByte(major, INDEFINITE);
    if major <= 3 {
      BreakEndsChunks(body, major);
    } else {
      BreakEndsItems(Inside(r), body, major == 5, true, Capacity(r, major == 5));
    }
    assert b[0] == PutOpen(major)[0] by {
      assert b[..1 + n][0] == b[0];
    }
  }

  lemma {:induction false} BreakEndsChunks(b: seq<byte>, major: nat)
    requires ScanChunks(b, major).Ends?
    ensures b[ScanChunks(b, major).at - 1] == 0xFF
    decreases |b|
  {
    if b[0] != BREAK {
      BreakEndsChunks(b[ReadHead(b).size + ReadHead(b).arg..], major);
    }
  }

  lemma {:induction false} BreakEndsItems(r: Room, b: seq<byte>, pairs: bool, even: bool, left: nat)
    requires ScanToBreak(r, b, pairs, even, left).Ends?
    ensures b[ScanToBreak(r, b, pairs, even, left).at - 1] == 0xFF
    decreases |b|
  {
    if b[0] != BREAK {
      var n, m := ToBreakUnfolds(r, b, pairs, even, left);
      BreakEndsItems(r, b[n..], pairs, !even, left - 1);
    }
  }

  // ------------------------------------------------- what the limits leave alone

  function Max(a: nat, b: nat): nat {
    if a < b then b else a
  }

  /** How deep an item goes: its arrays and maps, and its tags directly inside tags. */
  function Depth(i: Item, tagged: bool): nat {
    match i
    case Group(_, _, items) => 1 + ItemsDepth(items)
    case OpenGroup(_, items) => 1 + ItemsDepth(items)
    case Tagged(_, content) => (if tagged then 1 else 0) + Depth(content, true)
    case _ => 0
  }

  function ItemsDepth(items: Items): nat {
    match items
    case NoItems => 0
    case More(item, rest) => Max(Depth(item, false), ItemsDepth(rest))
  }

  /** How many items its largest array has, or its largest map. */
  function Widest(i: Item, pairs: bool): nat {
    match i
    case Group(p, _, items) => Max(if p == pairs then Count(items) else 0, ItemsWidest(items, pairs))
    case OpenGroup(p, items) => Max(if p == pairs then Count(items) else 0, ItemsWidest(items, pairs))
    case Tagged(_, content) => Widest(content, pairs)
    case _ => 0
  }

  function ItemsWidest(items: Items, pairs: bool): nat {
    match items
    case NoItems => 0
    case More(item, rest) => Max(Widest(item, pairs), ItemsWidest(rest, pairs))
  }

  /** The limits, each by itself: an item keeps to them if and only if it is no deeper than there are levels
      and no array or map in it is larger than it may be. */
  lemma {:induction false} WithinIff(r: Room, i: Item)
    ensures Within(r, i) <==> Depth(i, r.tagged) <= r.levels && Widest(i, false) <= r.elements && Widest(i, true) <= 2 * r.pairs
    decreases i
  {
    match i
    case Group(pairs, _, items) =>
      if r.levels > 0 {
        ItemsWithinIff(Inside(r), items);
      }
    case OpenGroup(pairs, items) =>
      if r.levels > 0 {
        ItemsWithinIff(Inside(r), items);
      }
    case Tagged(_, content) =>
      if MayTag(r) {
        WithinIff(InTag(r), content);
      }
    case _ =>
  }

  lemma {:induction false} ItemsWithinIff(r: Room, items: Items)
    requires !r.tagged
    ensures ItemsWithin(r, items) <==>
            ItemsDepth(items) <= r.levels && ItemsWidest(items, false) <= r.elements && ItemsWidest(items, true) <= 2 * r.pairs
    decreases items
  {
    match items
    case NoItems =>
    case More(item, rest) =>
      WithinIff(r, item);
      ItemsWithinIff(r, rest);
  }

  lemma SplitPrefix(e: seq<byte>, f: seq<byte>)
    requires e <= f
    ensures e + f[|e|..] == f
  {
  }

  /** No item's encoding begins another's, whatever the limits. */
  lemma EncodingsArePrefixFree(i: Item, j: Item)
    requires Ok(i) && Ok(j) && Encode(i) <= Encode(j)
    ensures Encode(i) == Encode(j)
  {
    var e, f := Encode(i), Encode(j);
    var r := Room(Max(Depth(i, false), Depth(j, false)), false, Max(Widest(i, false), Widest(j, false)), Max(Widest(i, true), Widest(j, true)));
    WithinIff(r, i);
    WithinIff(r, j);
    ScanEncoded(r, j, []);
    ScanEncoded(r, i, f[|e|..]);
    assert f + [] == f;
    SplitPrefix(e, f);
  }

  /** What follows an item does not move its end. */
  lemma ScanIgnoresWhatFollows(r: Room, b: seq<byte>, tail: seq<byte>)
    requires Scan(r, b).Ends?
    ensures Scan(r, b[..Scan(r, b).at] + tail) == Scan(r, b)
  {
    var i := ItemScanned(r, b);
    ScanEncoded(r, i, tail);
  }
}
