/**
  Object headers: three variable-length sections behind length fields, closed by a checksum. The checksum
  and the UTF-8 test are arbitrary deterministic functions. Length fields keep 16 or 32 bits, so longer
  strings and lists are written with a truncated length, exactly as the source does.
*/
module ObjectHeaders {

  import opened ByteOrder
  import opened Codecs
  import opened Common
  import opened Extents

  type Checksum = seq<Byte> -> seq<Byte>
  type Utf8 = seq<Byte> -> bool

  datatype RelationshipKind = GeneratedFrom | DependsOn | References | Contains | BelongsTo

  datatype RelationshipEdge = RelationshipEdge(kind: RelationshipKind, target: seq<Byte>)

  type Attribute = (seq<Byte>, seq<Byte>)

  datatype Header = Header(
    objectId: seq<Byte>,
    payloadSize: nat,
    extents: seq<Extent>,
    attributes: seq<Attribute>,
    relationships: seq<RelationshipEdge>,
    checksum: seq<Byte>)

  /** What the field types of the source guarantee. */
  ghost predicate Typed(h: Header, utf8: Utf8) {
    && |h.objectId| == 16 && h.payloadSize < Power(8)
    && (forall e :: e in h.extents ==> TypedExtent(e))
    && (forall a :: a in h.attributes ==> TypedAttribute(a, utf8))
    && (forall e :: e in h.relationships ==> TypedEdge(e))
  }

  predicate TypedExtent(e: Extent) {
    e.startBlock < Power(8) && e.numBlocks < Power(4)
  }

  predicate TypedAttribute(a: Attribute, utf8: Utf8) {
    utf8(a.0) && utf8(a.1)
  }

  predicate TypedEdge(e: RelationshipEdge) {
    |e.target| == 16
  }

  predicate ShortAttribute(a: Attribute) {
    |a.0| < Power(2) && |a.1| < Power(2)
  }

  /** Every length fits its field. */
  ghost predicate WithinLimits(h: Header) {
    && |h.extents| < Power(4) && |h.attributes| < Power(4) && |h.relationships| < Power(4)
    && (forall a :: a in h.attributes ==> ShortAttribute(a))
  }

  // ---------- elements ----------

  function WriteExtent(e: Extent): seq<Byte> {
    Bytes(e.startBlock, 8) + Bytes(e.numBlocks, 4)
  }

  function ParseExtent(s: seq<Byte>): Parsed<Extent> {
    match ParseNumber(8, s)
    case Err(e) => Err(e)
    case Ok((start, s1)) =>
      match ParseNumber(4, s1)
      case Err(e) => Err(e)
      case Ok((num, s2)) => Ok((Extent(start, num), s2))
  }

  function WriteString(x: seq<Byte>): seq<Byte> {
    Bytes(|x|, 2) + x
  }

  function ParseString(utf8: Utf8, s: seq<Byte>): Parsed<seq<Byte>> {
    match ParseNumber(2, s)
    case Err(e) => Err(e)
    case Ok((n, s1)) =>
      match ParseBytes(n, s1)
      case Err(e) => Err(e)
      case Ok((x, s2)) => if utf8(x) then Ok((x, s2)) else Err(ChecksumMismatch)
  }

  function WriteAttribute(a: Attribute): seq<Byte> {
    WriteString(a.0) + WriteString(a.1)
  }

  function ParseAttribute(utf8: Utf8, s: seq<Byte>): Parsed<Attribute> {
    match ParseString(utf8, s)
    case Err(e) => Err(e)
    case Ok((k, s1)) =>
      match ParseString(utf8, s1)
      case Err(e) => Err(e)
      case Ok((v, s2)) => Ok(((k, v), s2))
  }

  function Code(k: RelationshipKind): nat {
    match k
    case GeneratedFrom => 1
    case DependsOn => 2
    case References => 3
    case Contains => 4
    case BelongsTo => 5
  }

  function KindOf(code: nat): Option<RelationshipKind> {
    if code == 1 then Some(GeneratedFrom)
    else if code == 2 then Some(DependsOn)
    else if code == 3 then Some(References)
    else if code == 4 then Some(Contains)
    else if code == 5 then Some(BelongsTo)
    else None
  }

  function WriteEdge(e: RelationshipEdge): seq<Byte> {
    Bytes(Code(e.kind), 2) + e.target
  }

  function ParseEdge(s: seq<Byte>): Parsed<RelationshipEdge> {
    match ParseNumber(2, s)
    case Err(e) => Err(e)
    case Ok((code, s1)) =>
      match KindOf(code)
      case None => Err(ChecksumMismatch)
      case Some(kind) =>
        match ParseBytes(16, s1)
        case Err(e) => Err(e)
        case Ok((target, s2)) => Ok((RelationshipEdge(kind, target), s2))
  }

  lemma ExtentCodec(e: Extent)
    requires TypedExtent(e)
    ensures Inverts(WriteExtent, ParseExtent, e)
  {
    hide Bytes, ParseNumber, Power;
    forall post ensures ParseExtent(WriteExtent(e) + post) == Ok((e, post)) {
      NumberRoundTrip(e.startBlock, 8, Bytes(e.numBlocks, 4) + post);
      NumberRoundTrip(e.numBlocks, 4, post);
      assert WriteExtent(e) + post == Bytes(e.startBlock, 8) + (Bytes(e.numBlocks, 4) + post);
    }
  }

  lemma StringCodec(utf8: Utf8, x: seq<Byte>, post: seq<Byte>)
    requires |x| < Power(2) && utf8(x)
    ensures ParseString(utf8, WriteString(x) + post) == Ok((x, post))
  {
    hide Bytes, ParseNumber, Power;
    NumberRoundTrip(|x|, 2, x + post);
    BytesRoundTrip(x, post);
    assert WriteString(x) + post == Bytes(|x|, 2) + (x + post);
  }

  lemma AttributeCodec(utf8: Utf8, a: Attribute)
    requires ShortAttribute(a) && TypedAttribute(a, utf8)
    ensures Inverts(WriteAttribute, s => ParseAttribute(utf8, s), a)
  {
    hide WriteString, ParseString, Power;
    var p := s => ParseAttribute(utf8, s);
    forall post ensures p(WriteAttribute(a) + post) == Ok((a, post)) {
      StringCodec(utf8, a.0, WriteString(a.1) + post);
      StringCodec(utf8, a.1, post);
      assert WriteAttribute(a) + post == WriteString(a.0) + (WriteString(a.1) + post);
    }
  }

  lemma EdgeCodec(e: RelationshipEdge)
    requires TypedEdge(e)
    ensures Inverts(WriteEdge, ParseEdge, e)
  {
    FixedPowers();
    hide Bytes, ParseNumber, Power;
    forall post ensures ParseEdge(WriteEdge(e) + post) == Ok((e, post)) {
      NumberRoundTrip(Code(e.kind), 2, e.target + post);
      BytesRoundTrip(e.target, post);
      assert WriteEdge(e) + post == Bytes(Code(e.kind), 2) + (e.target + post);
    }
  }

  // ---------- whole headers ----------

  function WriteCounted<T>(w: Writer<T>, xs: seq<T>): seq<Byte> {
    Bytes(|xs|, 4) + WriteList(w, xs)
  }

  function ParseCounted<T>(p: Parser<T>, s: seq<Byte>): Parsed<seq<T>> {
    match ParseNumber(4, s)
    case Err(e) => Err(e)
    case Ok((n, rest)) => ParseList(n, p, rest)
  }

  lemma CountedRoundTrip<T(!new)>(w: Writer<T>, p: Parser<T>, xs: seq<T>, post: seq<Byte>)
    requires |xs| < Power(4) && forall i :: 0 <= i < |xs| ==> Inverts(w, p, xs[i])
    ensures ParseCounted(p, WriteCounted(w, xs) + post) == Ok((xs, post))
  {
    hide Bytes, ParseNumber, Power, Inverts, ParseList, WriteList;
    NumberRoundTrip(|xs|, 4, WriteList(w, xs) + post);
    ListRoundTrip(w, p, xs, post);
    assert WriteCounted(w, xs) + post == Bytes(|xs|, 4) + (WriteList(w, xs) + post);
  }

  /** Everything but the checksum. */
  function Body(h: Header): seq<Byte> {
    h.objectId + (Bytes(h.payloadSize, 8)
      + (WriteCounted(WriteExtent, h.extents)
      + (WriteCounted(WriteAttribute, h.attributes)
      + WriteCounted(WriteEdge, h.relationships))))
  }

  function Encode(h: Header, sum: Checksum): seq<Byte> {
    Body(h) + sum(Body(h))
  }

  /** The encoded length of a header without relationships, by the number of its extents. */
  function HeaderLength(extents: nat, attributes: seq<Attribute>): nat {
    68 + 12 * extents + |WriteList(WriteAttribute, attributes)|
  }

  lemma {:induction false} ExtentListLength(es: seq<Extent>)
    ensures |WriteList(WriteExtent, es)| == 12 * |es|
  {
    if es != [] {
      ExtentListLength(es[1..]);
    }
  }

  lemma {:induction false} ExtentAt(es: seq<Extent>, i: nat)
    requires i < |es|
    ensures 12 * i + 12 <= |WriteList(WriteExtent, es)| && WriteList(WriteExtent, es)[12 * i..12 * i + 12] == WriteExtent(es[i])
  {
    var first, rest := WriteExtent(es[0]), WriteList(WriteExtent, es[1..]);
    hide WriteExtent;
    assert |first| == 12;
    if i > 0 {
      ExtentAt(es[1..], i - 1);
      assert (first + rest)[12 * i..12 * i + 12] == rest[12 * (i - 1)..12 * (i - 1) + 12];
    }
  }

  /**
    Where things are in a written header: the object's id, its size and the number of extents in little
    endian, then twelve bytes for each extent, the number of attributes, and at the end the checksum of all before it.
  */
  lemma HeaderLayout(h: Header, sum: Checksum, i: nat)
    requires |h.objectId| == 16 && h.payloadSize < Power(8) && |h.extents| < Power(4) && Digest(sum)
    requires |h.attributes| < Power(4) && (i < |h.extents| ==> TypedExtent(h.extents[i]))
    ensures var e, n := Encode(h, sum), |h.extents|;
      && |e| >= 64 + 12 * n
      && e[0..16] == h.objectId && LittleEndian(e[16..24]) == h.payloadSize && LittleEndian(e[24..28]) == n
      && (i < n ==> LittleEndian(e[28 + 12 * i..36 + 12 * i]) == h.extents[i].startBlock)
      && (i < n ==> LittleEndian(e[36 + 12 * i..40 + 12 * i]) == h.extents[i].numBlocks)
      && LittleEndian(e[28 + 12 * n..32 + 12 * n]) == |h.attributes|
      && e[|e| - 32..] == sum(e[..|e| - 32])
  {
    hide Bytes, Power, LittleEndian, WriteList, WriteExtent, Encode, Body, Digest;
    BytesDenote(h.payloadSize, 8);
    BytesDenote(|h.extents|, 4);
    BytesDenote(|h.attributes|, 4);
    var e, list := Encode(h, sum), WriteList(WriteExtent, h.extents);
    ExtentListLength(h.extents);
    var rest := EncodeParts(h, sum);
    FrontSlices(h.objectId, Bytes(h.payloadSize, 8), Bytes(|h.extents|, 4), list, rest, e);
    if i < |h.extents| {
      ExtentAt(h.extents, i);
      ExtentParts(h.extents[i]);
      SubSlices(list, e, 12 * i);
    }
  }

  lemma ExtentParts(e: Extent)
    requires TypedExtent(e)
    ensures |WriteExtent(e)| == 12
    ensures LittleEndian(WriteExtent(e)[..8]) == e.startBlock && LittleEndian(WriteExtent(e)[8..]) == e.numBlocks
  {
    BytesDenote(e.startBlock, 8);
    BytesDenote(e.numBlocks, 4);
    hide Bytes, LittleEndian, Power;
    assert WriteExtent(e)[..8] == Bytes(e.startBlock, 8) && WriteExtent(e)[8..] == Bytes(e.numBlocks, 4);
  }

  lemma EncodeParts(h: Header, sum: Checksum) returns (rest: seq<Byte>)
    requires Digest(sum)
    ensures Encode(h, sum) ==
      h.objectId + (Bytes(h.payloadSize, 8) + (Bytes(|h.extents|, 4) + (WriteList(WriteExtent, h.extents) + rest)))
    ensures |rest| >= 36 && rest[..4] == Bytes(|h.attributes|, 4)
    ensures var e := Encode(h, sum); e[|e| - 32..] == sum(e[..|e| - 32])
  {
    hide Bytes, WriteList;
    var tail, sections := sum(Body(h)), WriteCounted(WriteAttribute, h.attributes) + WriteCounted(WriteEdge, h.relationships);
    assert |tail| == 32;
    EndSlices(Body(h), tail, Encode(h, sum));
    CountedIs(WriteAttribute, h.attributes);
    hide WriteCounted;
    rest := sections + tail;
    assert WriteCounted(WriteExtent, h.extents) == Bytes(|h.extents|, 4) + WriteList(WriteExtent, h.extents) by { CountedIs(WriteExtent, h.extents); }
  }

  lemma CountedIs<T>(w: Writer<T>, xs: seq<T>)
    ensures WriteCounted(w, xs) == Bytes(|xs|, 4) + WriteList(w, xs)
  {
  }

  lemma FrontSlices(a: seq<Byte>, b: seq<Byte>, c: seq<Byte>, d: seq<Byte>, r: seq<Byte>, e: seq<Byte>)
    requires e == a + (b + (c + (d + r))) && |a| == 16 && |b| == 8 && |c| == 4
    ensures |e| == 28 + |d| + |r|
    ensures e[0..16] == a && e[16..24] == b && e[24..28] == c && e[28..28 + |d|] == d
    ensures |r| >= 4 ==> e[28 + |d|..32 + |d|] == r[..4]
  {
  }

  lemma SubSlices(d: seq<Byte>, e: seq<Byte>, k: nat)
    requires 28 + |d| <= |e| && e[28..28 + |d|] == d && k + 12 <= |d|
    ensures e[28 + k..36 + k] == d[k..k + 12][..8] && e[36 + k..40 + k] == d[k..k + 12][8..]
  {
    assert forall i :: 0 <= i < |d| ==> d[i] == e[28 + i];
  }

  lemma EndSlices(a: seq<Byte>, b: seq<Byte>, e: seq<Byte>)
    requires e == a + b && |b| == 32
    ensures e[..|e| - 32] == a && e[|e| - 32..] == b
  {
  }

  /** The length of an encoded header depends on lengths only. */
  lemma EncodedLength(h: Header, sum: Checksum)
    requires Digest(sum) && |h.objectId| == 16 && h.relationships == []
    ensures |Encode(h, sum)| == HeaderLength(|h.extents|, h.attributes)
  {
    hide Bytes, WriteExtent, WriteAttribute;
    ExtentListLength(h.extents);
  }

  function ParseSections(id: seq<Byte>, size: nat, utf8: Utf8, s: seq<Byte>, checksum: seq<Byte>): Parsed<Header> {
    match ParseCounted(ParseExtent, s)
    case Err(e) => Err(e)
    case Ok((extents, s1)) =>
      match ParseCounted(t => ParseAttribute(utf8, t), s1)
      case Err(e) => Err(e)
      case Ok((attributes, s2)) =>
        match ParseCounted(ParseEdge, s2)
        case Err(e) => Err(e)
        case Ok((edges, s3)) => Ok((Header(id, size, extents, attributes, edges, checksum), s3))
  }

  /** The parser; bytes of the body after the last section are ignored. */
  function Decode(buf: seq<Byte>, sum: Checksum, utf8: Utf8): Result<Header, CodecError> {
    if |buf| < 60 then Err(OutOfBounds)
    else
      var body, checksum := buf[..|buf| - 32], buf[|buf| - 32..];
      if sum(body) != checksum then Err(ChecksumMismatch)
      else
        match ParseSections(body[..16], LittleEndian(body[16..24]), utf8, body[24..], checksum)
        case Err(e) => Err(e)
        case Ok((h, _)) => Ok(h)
  }

  /** The checksum of the source always has 32 bytes. */
  ghost predicate Digest(sum: Checksum) {
    forall s :: |sum(s)| == 32
  }

  lemma SectionsRoundTrip(h: Header, utf8: Utf8, id: seq<Byte>, size: nat, checksum: seq<Byte>)
    requires Typed(h, utf8) && WithinLimits(h)
    ensures ParseSections(id, size, utf8,
              WriteCounted(WriteExtent, h.extents)
              + (WriteCounted(WriteAttribute, h.attributes)
              + WriteCounted(WriteEdge, h.relationships)), checksum)
         == Ok((Header(id, size, h.extents, h.attributes, h.relationships, checksum), []))
  {
    forall i | 0 <= i < |h.extents| ensures Inverts(WriteExtent, ParseExtent, h.extents[i]) {
      ExtentCodec(h.extents[i]);
    }
    var p := t => ParseAttribute(utf8, t);
    forall i | 0 <= i < |h.attributes| ensures Inverts(WriteAttribute, p, h.attributes[i]) {
      AttributeCodec(utf8, h.attributes[i]);
    }
    forall i | 0 <= i < |h.relationships| ensures Inverts(WriteEdge, ParseEdge, h.relationships[i]) {
      EdgeCodec(h.relationships[i]);
    }
    hide WriteCounted, ParseCounted, Inverts, Power;
    var edges := WriteCounted(WriteEdge, h.relationships);
    var attributes := WriteCounted(WriteAttribute, h.attributes);
    CountedRoundTrip(WriteExtent, ParseExtent, h.extents, attributes + edges);
    CountedRoundTrip(WriteAttribute, p, h.attributes, edges);
    CountedRoundTrip(WriteEdge, ParseEdge, h.relationships, []);
    assert edges + [] == edges;
  }

  /** A header comes back with its recomputed checksum exactly when every length fits its field. */
  lemma RoundTripIff(h: Header, sum: Checksum, utf8: Utf8)
    requires Digest(sum) && Typed(h, utf8)
    ensures Decode(Encode(h, sum), sum, utf8) == Ok(h.(checksum := sum(Body(h)))) <==> WithinLimits(h)
  {
    if WithinLimits(h) {
      RoundTrip(h, sum, utf8);
    }
    if Decode(Encode(h, sum), sum, utf8) == Ok(h.(checksum := sum(Body(h)))) {
      DecodedWithinLimits(Encode(h, sum), sum, utf8);
    }
  }

  lemma RoundTrip(h: Header, sum: Checksum, utf8: Utf8)
    requires Digest(sum) && Typed(h, utf8) && WithinLimits(h)
    ensures Decode(Encode(h, sum), sum, utf8) == Ok(h.(checksum := sum(Body(h))))
  {
    BodyParts(h);
    SectionsRoundTrip(h, utf8, h.objectId, h.payloadSize, sum(Body(h)));
    BytesDenote(h.payloadSize, 8);
    hide WriteCounted, ParseSections, Body, LittleEndian, Bytes;
    var buf := Encode(h, sum);
    assert buf[..|buf| - 32] == Body(h) && buf[|buf| - 32..] == sum(Body(h));
  }

  lemma BodyParts(h: Header)
    requires |h.objectId| == 16
    ensures |Body(h)| >= 28 && Body(h)[..16] == h.objectId && Body(h)[16..24] == Bytes(h.payloadSize, 8)
    ensures Body(h)[24..] == WriteCounted(WriteExtent, h.extents)
              + (WriteCounted(WriteAttribute, h.attributes) + WriteCounted(WriteEdge, h.relationships))
  {
    CountedLength(WriteExtent, h.extents);
    hide Bytes, WriteCounted;
    var sections := WriteCounted(WriteExtent, h.extents)
      + (WriteCounted(WriteAttribute, h.attributes) + WriteCounted(WriteEdge, h.relationships));
    assert Body(h) == h.objectId + (Bytes(h.payloadSize, 8) + sections);
  }

  lemma CountedLength<T>(w: Writer<T>, xs: seq<T>)
    ensures |WriteCounted(w, xs)| >= 4
  {
  }

  // ---------- what the parser accepts ----------

  lemma CountedLimit<T(!new)>(p: Parser<T>, s: seq<Byte>, good: T -> bool)
    requires ParseCounted(p, s).Ok?
    requires forall t :: p(t).Ok? ==> good(p(t).value.0)
    ensures |ParseCounted(p, s).value.0| < Power(4)
    ensures forall x :: x in ParseCounted(p, s).value.0 ==> good(x)
  {
    NumberExact(4, s);
    var (n, rest) := ParseNumber(4, s).value;
    ListElements(n, p, rest, good);
    ListLength(n, p, rest);
  }

  lemma {:induction false} ListLength<T>(n: nat, p: Parser<T>, s: seq<Byte>)
    requires ParseList(n, p, s).Ok?
    ensures |ParseList(n, p, s).value.0| == n
  {
    if n > 0 {
      ListLength(n - 1, p, p(s).value.1);
    }
  }

  lemma ParsedString(utf8: Utf8, s: seq<Byte>)
    requires ParseString(utf8, s).Ok?
    ensures var (x, rest) := ParseString(utf8, s).value;
      |x| < Power(2) && utf8(x) && s == WriteString(x) + rest
  {
    NumberExact(2, s);
    hide Bytes, Power, LittleEndian;
    var (n, s1) := ParseNumber(2, s).value;
    var (x, rest) := ParseBytes(n, s1).value;
    assert s1 == x + rest;
    assert s == WriteString(x) + rest;
  }

  lemma ParsedAttribute(utf8: Utf8, s: seq<Byte>)
    requires ParseAttribute(utf8, s).Ok?
    ensures var (a, rest) := ParseAttribute(utf8, s).value;
      ShortAttribute(a) && TypedAttribute(a, utf8) && s == WriteAttribute(a) + rest
  {
    ParsedString(utf8, s);
    var (k, s1) := ParseString(utf8, s).value;
    ParsedString(utf8, s1);
    hide WriteString, ParseString, Power;
    var (v, s2) := ParseString(utf8, s1).value;
    assert s == WriteAttribute((k, v)) + s2;
  }

  lemma ParsedExtent(s: seq<Byte>)
    requires ParseExtent(s).Ok?
    ensures var (e, rest) := ParseExtent(s).value; TypedExtent(e) && s == WriteExtent(e) + rest
  {
    NumberExact(8, s);
    var (start, s1) := ParseNumber(8, s).value;
    NumberExact(4, s1);
    hide Bytes, Power, ParseNumber;
    var (num, s2) := ParseNumber(4, s1).value;
    assert s == WriteExtent(Extent(start, num)) + s2;
  }

  lemma ParsedEdge(s: seq<Byte>)
    requires ParseEdge(s).Ok?
    ensures var (e, rest) := ParseEdge(s).value; TypedEdge(e) && s == WriteEdge(e) + rest
  {
    NumberExact(2, s);
    hide Bytes, Power, ParseNumber;
    var (code, s1) := ParseNumber(2, s).value;
    var (target, s2) := ParseBytes(16, s1).value;
    assert s1 == target + s2;
    assert s == WriteEdge(RelationshipEdge(KindOf(code).value, target)) + s2;
  }

  lemma ExactReaders(utf8: Utf8)
    ensures Exact(WriteExtent, ParseExtent) && Exact(WriteEdge, ParseEdge)
    ensures Exact(WriteAttribute, t => ParseAttribute(utf8, t))
  {
    var p := t => ParseAttribute(utf8, t);
    forall s ensures Reproduces(WriteExtent, ParseExtent, s) && Reproduces(WriteEdge, ParseEdge, s)
      && Reproduces(WriteAttribute, p, s)
    {
      if ParseExtent(s).Ok? {
        ParsedExtent(s);
      }
      if ParseEdge(s).Ok? {
        ParsedEdge(s);
      }
      if ParseAttribute(utf8, s).Ok? {
        ParsedAttribute(utf8, s);
      }
    }
  }

  lemma DecodedWithinLimits(buf: seq<Byte>, sum: Checksum, utf8: Utf8)
    requires Decode(buf, sum, utf8).Ok?
    ensures WithinLimits(Decode(buf, sum, utf8).value)
  {
    var s := buf[..|buf| - 32][24..];
    var p := t => ParseAttribute(utf8, t);
    forall t | p(t).Ok? ensures ShortAttribute(p(t).value.0) {
      ParsedAttribute(utf8, t);
    }
    hide Power, ParseExtent, ParseAttribute, ParseEdge;
    CountedLimit(ParseExtent, s, _ => true);
    var s1 := ParseCounted(ParseExtent, s).value.1;
    CountedLimit(p, s1, ShortAttribute);
    var s2 := ParseCounted(p, s1).value.1;
    CountedLimit(ParseEdge, s2, _ => true);
  }

  lemma CountedExact<T(!new)>(w: Writer<T>, p: Parser<T>, s: seq<Byte>)
    requires Exact(w, p) && ParseCounted(p, s).Ok?
    ensures var (xs, rest) := ParseCounted(p, s).value; s == WriteCounted(w, xs) + rest
  {
    NumberExact(4, s);
    var (n, s1) := ParseNumber(4, s).value;
    ListExact(w, p, n, s1);
    hide Bytes, Power, ParseNumber, Exact, WriteList, ParseList;
    var (xs, rest) := ParseList(n, p, s1).value;
    assert s == WriteCounted(w, xs) + rest;
  }

  /** An accepted buffer starts with the encoding of what was read: only bytes after the last section are free. */
  lemma DecodedIsPrefix(buf: seq<Byte>, sum: Checksum, utf8: Utf8)
    requires Decode(buf, sum, utf8).Ok?
    ensures var h := Decode(buf, sum, utf8).value;
      Body(h) <= buf[..|buf| - 32] && h.checksum == sum(buf[..|buf| - 32]) == buf[|buf| - 32..]
  {
    hide *;
    DecodeLong(buf, sum, utf8);
    var body := buf[..|buf| - 32];
    var p := t => ParseAttribute(utf8, t);
    ExactReaders(utf8);
    NumberDenotes(body[16..24]);
    DecodeSteps(buf, sum, utf8);
    var s := body[24..];
    CountedExact(WriteExtent, ParseExtent, s);
    var (extents, s1) := ParseCounted(ParseExtent, s).value;
    CountedExact(WriteAttribute, p, s1);
    var (attributes, s2) := ParseCounted(p, s1).value;
    CountedExact(WriteEdge, ParseEdge, s2);
    var (edges, s3) := ParseCounted(ParseEdge, s2).value;
    var h := Decode(buf, sum, utf8).value;
    BodyIs(h);
    assert body == h.objectId + (body[16..24] + s);
    Reassociate(h.objectId, body[16..24], WriteCounted(WriteExtent, extents), WriteCounted(WriteAttribute, attributes),
                WriteCounted(WriteEdge, edges), s3);
  }

  lemma DecodeLong(buf: seq<Byte>, sum: Checksum, utf8: Utf8)
    ensures Decode(buf, sum, utf8).Ok? ==> |buf| >= 60
  {
  }

  lemma Reassociate(a: seq<Byte>, b: seq<Byte>, c: seq<Byte>, d: seq<Byte>, e: seq<Byte>, f: seq<Byte>)
    ensures a + (b + (c + (d + (e + f)))) == (a + (b + (c + (d + e)))) + f
  {
    assert d + (e + f) == (d + e) + f;
    assert c + ((d + e) + f) == (c + (d + e)) + f;
    assert b + ((c + (d + e)) + f) == (b + (c + (d + e))) + f;
  }

  lemma BodyIs(h: Header)
    ensures Body(h) == h.objectId + (Bytes(h.payloadSize, 8)
      + (WriteCounted(WriteExtent, h.extents)
      + (WriteCounted(WriteAttribute, h.attributes)
      + WriteCounted(WriteEdge, h.relationships))))
  {
  }

  /** What an accepted buffer says, section by section. */
  lemma DecodeSteps(buf: seq<Byte>, sum: Checksum, utf8: Utf8)
    requires Decode(buf, sum, utf8).Ok?
    ensures |buf| >= 60
    ensures var body := buf[..|buf| - 32]; var h := Decode(buf, sum, utf8).value;
      var s := body[24..]; var p := (t: seq<Byte>) => ParseAttribute(utf8, t);
      && ParseCounted(ParseExtent, s).Ok?
      && var s1 := ParseCounted(ParseExtent, s).value.1;
      && ParseCounted(p, s1).Ok?
      && var s2 := ParseCounted(p, s1).value.1;
      && ParseCounted(ParseEdge, s2).Ok?
      && h == Header(body[..16], LittleEndian(body[16..24]), ParseCounted(ParseExtent, s).value.0,
                     ParseCounted(p, s1).value.0, ParseCounted(ParseEdge, s2).value.0, buf[|buf| - 32..])
      && sum(body) == buf[|buf| - 32..]
  {
  }

  // ---------- the code ----------

  method Serialize(h: Header, sum: Checksum) returns (buf: seq<Byte>)
    ensures buf == Encode(h, sum)
  {
    hide Bytes, WriteList, WriteExtent, WriteAttribute, WriteEdge;
    buf := h.objectId;
    buf := buf + Bytes(h.payloadSize, 8);
    buf := buf + Bytes(|h.extents|, 4);
    buf := AppendList(buf, WriteExtent, h.extents);
    buf := buf + Bytes(|h.attributes|, 4);
    buf := AppendList(buf, WriteAttribute, h.attributes);
    buf := buf + Bytes(|h.relationships|, 4);
    buf := AppendList(buf, WriteEdge, h.relationships);
    assert buf == Body(h);
    buf := buf + sum(buf);
  }

  method ReadCounted<T>(p: Parser<T>, s: seq<Byte>) returns (r: Parsed<seq<T>>)
    ensures r == ParseCounted(p, s)
  {
    var n := ParseNumber(4, s);
    if n.Err? {
      return Err(n.error);
    }
    r := ReadList(n.value.0, p, n.value.1);
  }

  method Deserialize(buf: seq<Byte>, sum: Checksum, utf8: Utf8) returns (r: Result<Header, CodecError>)
    ensures r == Decode(buf, sum, utf8)
  {
    if |buf| < 60 {
      return Err(OutOfBounds);
    }
    var body, checksum := buf[..|buf| - 32], buf[|buf| - 32..];
    if sum(body) != checksum {
      return Err(ChecksumMismatch);
    }
    var id, size := body[..16], LittleEndian(body[16..24]);
    hide ParseCounted, LittleEndian, ParseExtent, ParseAttribute, ParseEdge;
    var extents := ReadCounted(ParseExtent, body[24..]);
    if extents.Err? {
      return Err(extents.error);
    }
    var attributes := ReadCounted(t => ParseAttribute(utf8, t), extents.value.1);
    if attributes.Err? {
      return Err(attributes.error);
    }
    var edges := ReadCounted(ParseEdge, attributes.value.1);
    if edges.Err? {
      return Err(edges.error);
    }
    r := Ok(Header(id, size, extents.value.0, attributes.value.0, edges.value.0, checksum));
  }
}
