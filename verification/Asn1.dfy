/**
 The raw ASN.1 field walker of the KDC (kdc_util.c): `asn1length` reads a length, definite or
 indefinite, and `fetch_asn1_field` finds a context field of an encoded message by walking
 over identifiers. A read past the end of the buffer is an outcome of its own here.
 */
module Asn1 {
  import opened Bytes

  // ----- Lengths -----

  datatype Length = Length(length: int, pos: nat) | Bad | Overrun

  /** The octets of a length: a number, or the mark of the indefinite form. */
  datatype Head = Definite(n: nat, pos: nat) | Indefinite(pos: nat) | BadHead | HeadOverrun

  /** Big-endian value of n octets from position p on, at most three. */
  function Value(s: seq<byte>, p: nat, n: nat): nat
    requires n <= 3 && p + n <= |s|
  {
    if n == 0 then 0
    else if n == 1 then s[p]
    else if n == 2 then s[p] as int * 256 + s[p + 1] as int
    else (s[p] as int * 256 + s[p + 1] as int) * 256 + s[p + 2] as int
  }

  function HeadAt(s: seq<byte>, p: nat): (h: Head)
    ensures h.Definite? || h.Indefinite? ==> p < h.pos <= |s|
  {
    if p >= |s| then HeadOverrun
    else if s[p] < 0x80 then Definite(s[p], p + 1)
    else
      var blen := s[p] as int - 0x80;
      if blen > 3 then BadHead
      else if p + 1 + blen > |s| then HeadOverrun
      else
        var q := p + 1 + blen;
        var n := Value(s, p + 1, blen);
        if n != 0 then Definite(n, q) else Indefinite(q)
  }

  /** The length that starts at position p, and the position after its octets. */
  function LengthAt(s: seq<byte>, p: nat): (r: Length)
    ensures r.Length? ==> p < r.pos <= |s| && r.length >= 0
  {
    match HeadAt(s, p)
    case Definite(n, q) => Length(n, q)
    case Indefinite(q) =>
      var e := EndOfContents(s, q + 1);
      if e.Length? then Length(e.pos - q, q) else e
    case BadHead => Bad
    case HeadOverrun => Overrun
  }

  /** Skips values until two zero octets end the indefinite form; the result is the position after them. */
  function EndOfContents(s: seq<byte>, p: nat): (r: Length)
    ensures r.Length? ==> p < r.pos <= |s|
    decreases |s| - p
  {
    match HeadAt(s, p)
    case Definite(n, q) => Closing(s, p, q + n)
    case Indefinite(q) =>
      if q + 1 >= |s| then Overrun
      else
        var sub := EndOfContents(s, q + 1);
        if sub.Length? then Closing(s, p, sub.pos) else sub
    case BadHead => Bad
    case HeadOverrun => Overrun
  }

  /** After a value that ends at e: the closing octets, or the next value. */
  function Closing(s: seq<byte>, p: nat, e: nat): (r: Length)
    requires p < e
    ensures r.Length? ==> e < r.pos <= |s|
    decreases |s| - p, 0
  {
    if e + 1 >= |s| then Overrun
    else if s[e] == 0 && s[e + 1] == 0 then Length(0, e + 2)
    else EndOfContents(s, e + 1)
  }

  /** The octets of a length, one by one. */
  method ReadHead(s: seq<byte>, p: nat) returns (h: Head)
    ensures h == HeadAt(s, p)
  {
    if p >= |s| { return HeadOverrun; }
    if s[p] < 0x80 { return Definite(s[p], p + 1); }
    var blen := s[p] as int - 0x80;
    if blen > 3 { return BadHead; }
    if p + 1 + blen > |s| { return HeadOverrun; }
    var n, i: nat := 0, 0;
    while i < blen
      invariant 0 <= i <= blen && n == Value(s, p + 1, i)
    {
      n, i := n * 256 + s[p + 1 + i] as int, i + 1;
    }
    return if n != 0 then Definite(n, p + 1 + blen) else Indefinite(p + 1 + blen);
  }

  /** asn1length: the values of an indefinite form are gone through to find its end. */
  method Asn1Length(s: seq<byte>, p: nat) returns (r: Length)
    ensures r == LengthAt(s, p)
    decreases |s| - p
  {
    var h := ReadHead(s, p);
    match h
    case Definite(n, q) => return Length(n, q);
    case BadHead => return Bad;
    case HeadOverrun => return Overrun;
    case Indefinite(q) =>
      var pp := q + 1;
      while true
        invariant pp > q
        invariant EndOfContents(s, pp) == EndOfContents(s, q + 1)
        decreases |s| - pp
      {
        if pp >= |s| { return Overrun; }
        var sub := Asn1Length(s, pp);
        EndOfContentsStep(s, pp);
        if !sub.Length? { return sub; }
        var e := sub.pos + sub.length;
        if e + 1 >= |s| { return Overrun; }
        if s[e] == 0 && s[e + 1] == 0 { return Length(e + 2 - q, q); }
        pp := e + 1;
      }
  }

  /** One value of an indefinite form, in terms of its length. */
  lemma EndOfContentsStep(s: seq<byte>, p: nat)
    requires p < |s|
    ensures EndOfContents(s, p) ==
            var sub := LengthAt(s, p);
            if !sub.Length? then sub else Closing(s, p, sub.pos + sub.length)
  {
    var h := HeadAt(s, p);
    if h.Indefinite? && h.pos + 1 >= |s| {
      assert EndOfContents(s, h.pos + 1) == Overrun;
    }
  }

  // ----- The walk -----

  datatype Fetched = Found(data: seq<byte>) | NotFound | PastEnd

  predicate Constructed(id: byte) {
    id / 0x20 % 2 == 1
  }

  predicate Context(id: byte) {
    id / 0x40 == 2
  }

  function Tag(id: byte): nat {
    id % 0x20
  }

  /** The levels seen so far, the last tag, and the last tag at the level wanted. */
  datatype Walker = Walker(levels: nat, last: int, classes: int)

  /** A context tag that does not grow starts a new level. */
  function Meet(w: Walker, id: byte): Walker {
    if !Context(id) then w
    else if Tag(id) <= w.last then Walker(w.levels + 1, Tag(id), -1)
    else w.(last := Tag(id))
  }

  /** The contents of the field whose identifier is at pos. */
  function Contents(s: seq<byte>, pos: nat): Fetched
    requires pos < |s|
  {
    match LengthAt(s, pos + 1)
    case Bad => NotFound
    case Overrun => PastEnd
    case Length(n, q) =>
      var n' := if s[pos + 1] == 0x80 then n - 2 else n;
      if n' < 0 || q + n' > |s| then PastEnd else Found(s[q..q + n'])
  }

  datatype Verdict = Hit | Repeated | Over | Into

  /** What to do at an identifier: it is the field wanted, or a mistake, or its value is passed over or entered. */
  function Visit(w: Walker, id: byte, level: nat, field: nat): (Walker, Verdict) {
    var v := Meet(w, id);
    if v.levels != level then (v, Into)
    else if !Context(id) then (v, Over)
    else if Tag(id) == field then (v, Hit)
    else if Tag(id) <= v.classes then (v, Repeated)
    else (v.(classes := Tag(id)), Over)
  }

  function Walk(s: seq<byte>, pos: nat, end: int, w: Walker, level: nat, field: nat): Fetched
    decreases |s| - pos
  {
    if pos >= end then NotFound
    else if pos >= |s| then PastEnd
    else if !Constructed(s[pos]) then NotFound
    else
      var (v, verdict) := Visit(w, s[pos], level, field);
      if verdict == Hit then Contents(s, pos)
      else if verdict == Repeated then NotFound
      else
        match LengthAt(s, pos + 1)
        case Bad => NotFound
        case Overrun => PastEnd
        case Length(n, q) => Walk(s, if verdict == Over then q + n else q, end, v, level, field)
  }

  const BEGIN: Walker := Walker(0, 1000, -1)

  /** The end of the stream is counted from the first length octet, not from the octet after the length. */
  function FetchSpec(s: seq<byte>, level: nat, field: nat): Fetched {
    match LengthAt(s, 1)
    case Bad => NotFound
    case Overrun => PastEnd
    case Length(n, q) => Walk(s, q, 1 + n, BEGIN, level, field)
  }

  /** The field is there: its length, less the two closing octets of an indefinite form, and its data. */
  method FetchContents(s: seq<byte>, pos: nat) returns (r: Fetched)
    requires pos < |s|
    ensures r == Contents(s, pos)
  {
    var len := Asn1Length(s, pos + 1);
    if len.Bad? { return NotFound; }
    if len.Overrun? { return PastEnd; }
    var n := len.length;
    if s[pos + 1] == 0x80 { n := n - 2; }
    if n < 0 || len.pos + n > |s| { return PastEnd; }
    return Found(s[len.pos..len.pos + n]);
  }

  /** The bookkeeping at one identifier. */
  method VisitId(w: Walker, id: byte, level: nat, field: nat) returns (v: Walker, verdict: Verdict)
    ensures (v, verdict) == Visit(w, id, level, field)
  {
    var levels, last, classes := w.levels, w.last, w.classes;
    if Context(id) {
      var tag := Tag(id);
      if tag <= last {
        levels := levels + 1;
        classes := -1;
      }
      last := tag;
      if levels == level {
        if tag == field {
          return Walker(levels, last, classes), Hit;
        } else if tag <= classes {
          return Walker(levels, last, classes), Repeated;
        }
        classes := tag;
      }
    }
    return Walker(levels, last, classes), if levels == level then Over else Into;
  }

  /** fetch_asn1_field. */
  method FetchAsn1Field(s: seq<byte>, level: nat, field: nat) returns (r: Fetched)
    ensures r == FetchSpec(s, level, field)
  {
    var len := Asn1Length(s, 1);
    if len.Bad? { return NotFound; }
    if len.Overrun? { return PastEnd; }
    var pos, end := len.pos, 1 + len.length;
    var w, verdict := BEGIN, Into;
    ghost var goal := Walk(s, pos, end, w, level, field);
    while pos < end
      invariant Walk(s, pos, end, w, level, field) == goal
      decreases |s| - pos
    {
      if pos >= |s| { return PastEnd; }
      if !Constructed(s[pos]) { return NotFound; }
      w, verdict := VisitId(w, s[pos], level, field);
      if verdict == Hit {
        r := FetchContents(s, pos);
        return;
      }
      if verdict == Repeated { return NotFound; }
      len := Asn1Length(s, pos + 1);
      if len.Bad? { return NotFound; }
      if len.Overrun? { return PastEnd; }
      pos := len.pos;
      if verdict == Over { pos := pos + len.length; }
    }
    return NotFound;
  }

  // ----- Encoded messages -----

  datatype Field = Field(tag: nat, contents: seq<byte>)

  const LIMIT: nat := 0x100_0000

  /** The shortest definite length, of at most four octets. */
  function EncodedLength(n: nat): (e: seq<byte>)
    requires n < LIMIT
    ensures 1 <= |e| <= 4 && e[0] != 0x80
  {
    if n < 0x80 then [n]
    else if n < 0x100 then [0x81, n]
    else if n < 0x1_0000 then [0x82, n / 0x100, n % 0x100]
    else [0x83, n / 0x1_0000, n / 0x100 % 0x100, n % 0x100]
  }

  /** A constructed value: identifier, length, contents. */
  function Encoded(id: byte, contents: seq<byte>): seq<byte>
    requires |contents| < LIMIT
  {
    [id] + EncodedLength(|contents|) + contents
  }

  /** Low tags, every field short enough to be encoded. */
  predicate Encodable(fields: seq<Field>) {
    forall i :: 0 <= i < |fields| ==> fields[i].tag < 31 && |fields[i].contents| < LIMIT
  }

  function Body(fields: seq<Field>): seq<byte>
    requires Encodable(fields)
  {
    if fields == [] then []
    else Encoded(0xA0 + fields[0].tag, fields[0].contents) + Body(fields[1..])
  }

  predicate Fits(fields: seq<Field>) {
    Encodable(fields) && |Body(fields)| < LIMIT - 5
  }

  /** The SEQUENCE of the fields, and the message with its application tag. */
  function Sequence(fields: seq<Field>): (s: seq<byte>)
    requires Fits(fields)
    ensures 2 <= |s| < LIMIT
  {
    Encoded(0x30, Body(fields))
  }

  function Message(app: nat, fields: seq<Field>): seq<byte>
    requires app < 31 && Fits(fields)
  {
    Encoded(0x60 + app, Sequence(fields))
  }

  predicate Increasing(fields: seq<Field>) {
    forall i, j :: 0 <= i < j < |fields| ==> fields[i].tag < fields[j].tag
  }

  // ----- Finding a field -----

  /** The octets e stand in s from position p on. */
  predicate At(s: seq<byte>, p: nat, e: seq<byte>) {
    p + |e| <= |s| && forall k :: 0 <= k < |e| ==> s[p + k] == e[k]
  }

  lemma AtConcat(s: seq<byte>, p: nat, a: seq<byte>, b: seq<byte>)
    requires At(s, p, a + b)
    ensures At(s, p, a) && At(s, p + |a|, b)
  {
    forall k | 0 <= k < |a| ensures s[p + k] == a[k] {
      assert (a + b)[k] == a[k];
    }
    forall k | 0 <= k < |b| ensures s[p + |a| + k] == b[k] {
      assert (a + b)[|a| + k] == b[k];
    }
  }

  lemma AtSlice(s: seq<byte>, p: nat, e: seq<byte>)
    requires At(s, p, e)
    ensures s[p..p + |e|] == e
  {
  }

  /** A length that was encoded is read back, wherever it stands. */
  lemma LengthBack(s: seq<byte>, p: nat, n: nat)
    requires n < LIMIT && At(s, p, EncodedLength(n))
    ensures HeadAt(s, p) == Definite(n, p + |EncodedLength(n)|) && s[p] != 0x80
  {
    var e := EncodedLength(n);
    assert s[p] == s[p + 0] == e[0];
    if n >= 0x80 {
      assert s[p + 1] == e[1];
      if n >= 0x100 { assert s[p + 2] == e[2]; }
      if n >= 0x1_0000 {
        assert s[p + 3] == e[3];
        assert n / 0x100 == n / 0x1_0000 * 0x100 + n / 0x100 % 0x100;
      }
    }
  }

  /** The octets of a value's identifier and length. */
  function HeaderSize(contents: seq<byte>): nat
    requires |contents| < LIMIT
  {
    1 + |EncodedLength(|contents|)|
  }

  /** What a reader at position pos sees of an encoded value. */
  predicate Reads(s: seq<byte>, pos: nat, id: byte, contents: seq<byte>)
    requires |contents| < LIMIT
  {
    var q := pos + HeaderSize(contents);
    && pos + 1 < |s| && s[pos] == id && s[pos + 1] != 0x80
    && HeadAt(s, pos + 1) == Definite(|contents|, q)
    && At(s, q, contents)
  }

  lemma AtReads(s: seq<byte>, pos: nat, id: byte, contents: seq<byte>)
    requires |contents| < LIMIT && At(s, pos, Encoded(id, contents))
    ensures Reads(s, pos, id, contents)
  {
    var l := EncodedLength(|contents|);
    AtConcat(s, pos, [id] + l, contents);
    AtConcat(s, pos, [id], l);
    LengthBack(s, pos + 1, |contents|);
    assert s[pos + 0] == [id][0];
  }

  /** The octets the fields take. */
  function Size(fields: seq<Field>): (n: nat)
    requires Encodable(fields)
    ensures n == |Body(fields)|
  {
    if fields == [] then 0
    else HeaderSize(fields[0].contents) + |fields[0].contents| + Size(fields[1..])
  }

  /** What the walk finds when it stops `gap` octets before the end of the fields. */
  function Expected(fields: seq<Field>, field: nat, gap: nat): Fetched
    requires Encodable(fields)
  {
    if Size(fields) <= gap then NotFound
    else if fields[0].tag == field then Found(fields[0].contents)
    else Expected(fields[1..], field, gap)
  }

  /** The fields stand one after the other from position pos on. */
  predicate Laid(s: seq<byte>, pos: nat, fields: seq<Field>)
    requires Encodable(fields)
    decreases |fields|
  {
    fields == [] ||
    (&& Reads(s, pos, 0xA0 + fields[0].tag, fields[0].contents)
     && Laid(s, pos + HeaderSize(fields[0].contents) + |fields[0].contents|, fields[1..]))
  }

  lemma {:induction false} BodyLaid(s: seq<byte>, pos: nat, fields: seq<Field>)
    requires Encodable(fields) && At(s, pos, Body(fields))
    ensures Laid(s, pos, fields)
    decreases |fields|
  {
    if fields != [] {
      var f := fields[0];
      var e := Encoded(0xA0 + f.tag, f.contents);
      AtConcat(s, pos, e, Body(fields[1..]));
      AtReads(s, pos, 0xA0 + f.tag, f.contents);
      BodyLaid(s, pos + |e|, fields[1..]);
    }
  }

  /** The walker comes from the level above, or has just passed a field of this level with a smaller tag. */
  predicate Before(w: Walker, tag: nat, level: nat) {
    (w.levels + 1 == level && tag <= w.last) || (w.levels == level && w.last == w.classes < tag)
  }

  lemma ContextIds(tag: nat)
    requires tag < 31
    ensures var id: byte := 0xA0 + tag; Constructed(id) && Context(id) && Tag(id) == tag
  {
  }

  /** One field: it is returned if it is the one wanted, else passed over. */
  lemma WalkField(s: seq<byte>, pos: nat, end: int, w: Walker, f: Field, level: nat, field: nat)
    requires f.tag < 31 && |f.contents| < LIMIT && Reads(s, pos, 0xA0 + f.tag, f.contents) && pos < end
    requires Before(w, f.tag, level)
    ensures Walk(s, pos, end, w, level, field) ==
            if f.tag == field then Found(f.contents)
            else Walk(s, pos + HeaderSize(f.contents) + |f.contents|, end, Walker(level, f.tag, f.tag), level, field)
  {
    ContextIds(f.tag);
    AtSlice(s, pos + HeaderSize(f.contents), f.contents);
  }

  lemma {:induction false} WalkFields(s: seq<byte>, pos: nat, end: int, w: Walker,
                                      fields: seq<Field>, level: nat, field: nat, gap: nat)
    requires Encodable(fields) && Increasing(fields) && (fields != [] ==> Before(w, fields[0].tag, level))
    requires Laid(s, pos, fields) && end == pos + Size(fields) - gap
    ensures Walk(s, pos, end, w, level, field) == Expected(fields, field, gap)
    decreases |fields|
  {
    if Size(fields) <= gap {
      assert pos >= end;
    } else {
      var f := fields[0];
      WalkField(s, pos, end, w, f, level, field);
      if f.tag != field {
        WalkFields(s, pos + HeaderSize(f.contents) + |f.contents|, end, Walker(level, f.tag, f.tag),
                   fields[1..], level, field, gap);
      }
    }
  }

  /** A value with this identifier begins at p, and its contents at q. */
  predicate Opens(s: seq<byte>, p: nat, id: byte, q: nat) {
    p + 1 < |s| && s[p] == id && HeadAt(s, p + 1).Definite? && HeadAt(s, p + 1).pos == q
  }

  /** A field above the level wanted is entered, and so is a SEQUENCE. */
  lemma WalkInto(s: seq<byte>, p: nat, q: nat, end: int, w: Walker, id: byte, level: nat, field: nat)
    requires Opens(s, p, id, q) && Constructed(id) && Meet(w, id).levels != level
    ensures Walk(s, p, end, w, level, field) == Walk(s, q, end, Meet(w, id), level, field)
  {
  }

  /** A value at the level wanted that is no context field is passed over. */
  lemma WalkOver(s: seq<byte>, pos: nat, end: int, w: Walker, id: byte, b: seq<byte>, level: nat, field: nat)
    requires |b| < LIMIT && Reads(s, pos, id, b) && pos < end && w.levels == level
    requires 0x20 <= id < 0x40 || 0x60 <= id < 0x80 || 0xE0 <= id
    ensures Walk(s, pos, end, w, level, field) == Walk(s, pos + HeaderSize(b) + |b|, end, w, level, field)
  {
  }

  /** The last tag at the level wanted is never larger than the last tag, so no tag is ever found to be repeated. */
  lemma NeverRepeated(w: Walker, id: byte, level: nat, field: nat)
    requires w.classes <= w.last
    ensures Visit(w, id, level, field).1 != Repeated
    ensures Visit(w, id, level, field).0.classes <= Visit(w, id, level, field).0.last
  {
  }

  /** The SEQUENCE at p is entered, and its fields, from q on, are walked over. */
  lemma WalkSequence(s: seq<byte>, p: nat, q: nat, end: int, w: Walker, b: seq<byte>, fields: seq<Field>,
                     level: nat, field: nat, gap: nat)
    requires |b| < LIMIT && Reads(s, p, 0x30, b) && q == p + HeaderSize(b) && w.levels != level
    requires Encodable(fields) && Increasing(fields) && (fields != [] ==> Before(w, fields[0].tag, level))
    requires Laid(s, q, fields) && end == q + Size(fields) - gap
    ensures Walk(s, p, end, w, level, field) == Expected(fields, field, gap)
  {
    assert Constructed(0x30) && !Context(0x30);
    WalkInto(s, p, q, end, w, 0x30, level, field);
    WalkFields(s, q, end, w, fields, level, field, gap);
  }

  /** Where the parts of a message stand. */
  lemma MessageLaid(s: seq<byte>, id: byte, sq: seq<byte>, b: seq<byte>, fields: seq<Field>)
    requires |sq| < LIMIT && |b| < LIMIT && Encodable(fields)
    requires Reads(s, 0, id, sq) && sq == Encoded(0x30, b) && b == Body(fields)
    ensures Reads(s, HeaderSize(sq), 0x30, b) && Laid(s, HeaderSize(sq) + HeaderSize(b), fields)
  {
    var q := HeaderSize(sq);
    AtReads(s, q, 0x30, b);
    BodyLaid(s, q + HeaderSize(b), fields);
  }

  /**
   In every message of fields with increasing tags, at level 1: the walk gives what `Expected`
   says, with a gap as wide as the length octets of the message. Trailing octets do not matter.
   */
  lemma FetchMessage(app: nat, fields: seq<Field>, field: nat, trailing: seq<byte>)
    requires app < 31 && Fits(fields) && Increasing(fields)
    ensures FetchSpec(Message(app, fields) + trailing, 1, field) ==
            Expected(fields, field, |EncodedLength(|Sequence(fields)|)|)
  {
    var m, sq, b := Message(app, fields), Sequence(fields), Body(fields);
    var s := m + trailing;
    assert At(s, 0, m);
    AtReads(s, 0, 0x60 + app, sq);
    MessageLaid(s, 0x60 + app, sq, b, fields);
    FetchLaid(s, app, sq, b, fields, field);
  }

  lemma FetchFrom(s: seq<byte>, n: nat, p: nat, level: nat, field: nat)
    requires HeadAt(s, 1) == Definite(n, p)
    ensures FetchSpec(s, level, field) == Walk(s, p, 1 + n, BEGIN, level, field)
  {
    assert LengthAt(s, 1) == Length(n, p);
  }

  lemma FetchLaid(s: seq<byte>, app: nat, sq: seq<byte>, b: seq<byte>, fields: seq<Field>, field: nat)
    requires app < 31 && |sq| < LIMIT && |b| < LIMIT && Encodable(fields) && Increasing(fields)
    requires Reads(s, 0, 0x60 + app, sq) && Reads(s, HeaderSize(sq), 0x30, b)
    requires Laid(s, HeaderSize(sq) + HeaderSize(b), fields)
    requires |sq| == HeaderSize(b) + Size(fields)
    ensures FetchSpec(s, 1, field) == Expected(fields, field, |EncodedLength(|sq|)|)
  {
    FetchFrom(s, |sq|, HeaderSize(sq), 1, field);
    WalkSequence(s, HeaderSize(sq), HeaderSize(sq) + HeaderSize(b), 1 + |sq|, BEGIN, b, fields, 1, field,
                 |EncodedLength(|sq|)|);
  }

  lemma {:induction false} ExpectedFinds(fields: seq<Field>, i: nat, gap: nat)
    requires Encodable(fields) && Increasing(fields) && i < |fields|
    ensures Expected(fields, fields[i].tag, gap) ==
            if Size(fields[i..]) > gap then Found(fields[i].contents) else NotFound
    decreases |fields|
  {
    SizeShrinks(fields, i);
    if i == 0 {
      assert fields[0..] == fields;
    } else if Size(fields) > gap {
      assert fields[1..][i - 1..] == fields[i..];
      ExpectedFinds(fields[1..], i - 1, gap);
    }
  }

  lemma {:induction false} SizeShrinks(fields: seq<Field>, i: nat)
    requires Encodable(fields) && i <= |fields|
    ensures Size(fields[i..]) <= Size(fields) && (i < |fields| ==> Size(fields[i..]) > 0)
    decreases |fields|
  {
    if i == 0 {
      assert fields[0..] == fields;
    } else {
      assert fields[1..][i - 1..] == fields[i..];
      SizeShrinks(fields[1..], i - 1);
    }
  }

  lemma {:induction false} ExpectedMisses(fields: seq<Field>, field: nat, gap: nat)
    requires Encodable(fields) && forall f :: f in fields ==> f.tag != field
    ensures Expected(fields, field, gap) == NotFound
  {
    if fields != [] { ExpectedMisses(fields[1..], field, gap); }
  }

  /**
   A field that is present is returned, octet for octet, if and only if it and the fields after
   it take more octets than the outer length does; five octets and more always suffice.
   */
  lemma FetchPresent(app: nat, fields: seq<Field>, i: nat, trailing: seq<byte>)
    requires app < 31 && Fits(fields) && Increasing(fields) && i < |fields|
    ensures var r := FetchSpec(Message(app, fields) + trailing, 1, fields[i].tag);
            var k := |EncodedLength(|Sequence(fields)|)|;
            && k <= 4
            && (r == Found(fields[i].contents) <==> |Body(fields[i..])| > k)
            && (r == NotFound <==> |Body(fields[i..])| <= k)
  {
    FetchMessage(app, fields, fields[i].tag, trailing);
    ExpectedFinds(fields, i, |EncodedLength(|Sequence(fields)|)|);
  }

  lemma FetchAbsent(app: nat, fields: seq<Field>, field: nat, trailing: seq<byte>)
    requires app < 31 && Fits(fields) && Increasing(fields)
    requires forall f :: f in fields ==> f.tag != field
    ensures FetchSpec(Message(app, fields) + trailing, 1, field) == NotFound
  {
    FetchMessage(app, fields, field, trailing);
    ExpectedMisses(fields, field, |EncodedLength(|Sequence(fields)|)|);
  }

  /** A field of two octets at the end of a message whose length takes more than one octet is not found. */
  lemma FetchMissesLast(app: nat, c: seq<byte>, trailing: seq<byte>)
    requires app < 31 && 124 <= |c| < LIMIT - 100
    ensures var fields := [Field(0, c), Field(1, [])];
            Fits(fields) && Increasing(fields) && FetchSpec(Message(app, fields) + trailing, 1, 1) == NotFound
  {
    var fields := [Field(0, c), Field(1, [])];
    assert fields[1..] == [Field(1, [])] && fields[1..][1..] == [];
    assert Size(fields[1..]) == 2;
    assert |Sequence(fields)| >= 128;
    FetchPresent(app, fields, 1, trailing);
  }

  /**
   At the second level: the field with tag t holds a SEQUENCE of fields, the first of which has no
   larger tag. The values around them begin at 0, p, q and r, and the length of the whole is n.
   */
  lemma FetchInner(s: seq<byte>, n: nat, p: nat, q: nat, r: nat, u: nat, t: nat, fields: seq<Field>, field: nat)
    requires t < 31 && HeadAt(s, 1) == Definite(n, p)
    requires Opens(s, p, 0x30, q) && Opens(s, q, 0xA0 + t, r) && Opens(s, r, 0x30, u)
    requires Encodable(fields) && Increasing(fields) && fields != [] && fields[0].tag <= t
    requires Laid(s, u, fields) && p + n == u + Size(fields)
    ensures FetchSpec(s, 2, field) == Expected(fields, field, p - 1)
  {
    FetchFrom(s, n, p, 2, field);
    WalkTwice(s, p, q, r, 1 + n, t, field);
    WalkInner(s, r, u, 1 + n, t, fields, field, p - 1);
  }

  lemma WalkInner(s: seq<byte>, r: nat, u: nat, end: int, t: nat, fields: seq<Field>, field: nat, gap: nat)
    requires Opens(s, r, 0x30, u) && Encodable(fields) && Increasing(fields) && fields != [] && fields[0].tag <= t
    requires Laid(s, u, fields) && end == u + Size(fields) - gap
    ensures Walk(s, r, end, Walker(1, t, -1), 2, field) == Expected(fields, field, gap)
  {
    assert !Context(0x30) && Constructed(0x30);
    WalkInto(s, r, u, end, Walker(1, t, -1), 0x30, 2, field);
    WalkFields(s, u, end, Walker(1, t, -1), fields, 2, field, gap);
  }

  lemma WalkTwice(s: seq<byte>, p: nat, q: nat, r: nat, end: int, t: nat, field: nat)
    requires t < 31 && Opens(s, p, 0x30, q) && Opens(s, q, 0xA0 + t, r)
    ensures Walk(s, p, end, BEGIN, 2, field) == Walk(s, r, end, Walker(1, t, -1), 2, field)
  {
    ContextIds(t);
    assert !Context(0x30) && Constructed(0x30);
    WalkInto(s, p, q, end, BEGIN, 0x30, 2, field);
    WalkInto(s, q, r, end, BEGIN, 0xA0 + t, 2, field);
  }
}
