/**
 Values in the indefinite form (kdc_util.c): what `asn1length` makes of them when they are nested
 to any depth, and of other octets that may stand where a length or an identifier is expected.
 */
module Asn1Indefinite {
  import opened Bytes
  import opened Sequences
  import opened Asn1

  /** A value: of a given length, or in the indefinite form, which holds other values. */
  datatype Tlv = Plain(id: byte, contents: seq<byte>) | Nested(id: byte, kids: seq<Tlv>)

  /** No identifier is zero, lengths take at most three octets, and no indefinite form is empty. */
  predicate Proper(v: Tlv) {
    && v.id != 0
    && match v
       case Plain(_, contents) => |contents| < 0x100_0000
       case Nested(_, kids) => kids != [] && forall k :: k in kids ==> Proper(k)
  }

  function Octets(v: Tlv): (s: seq<byte>)
    requires Proper(v)
    ensures |s| >= 2 && s[0] == v.id
    decreases v
  {
    match v
    case Plain(id, contents) => Encoded(id, contents)
    case Nested(id, kids) => [id, 0x80] + (AllOctets(kids) + [0, 0])
  }

  function AllOctets(vs: seq<Tlv>): (s: seq<byte>)
    requires forall v :: v in vs ==> Proper(v)
    ensures vs != [] ==> |s| >= 2 && s[0] == vs[0].id
    decreases vs
  {
    if vs == [] then [] else Octets(vs[0]) + AllOctets(vs[1..])
  }

  lemma AtFirst(s: seq<byte>, p: nat, e: seq<byte>)
    requires At(s, p, e) && |e| >= 2
    ensures p + 1 < |s| && s[p] == e[0] && s[p + 1] == e[1]
  {
    assert s[p + 0] == e[0];
  }

  /** The length of a value leads to its end. */
  lemma {:induction false} LeadsToEnd(v: Tlv, s: seq<byte>, p: nat)
    requires Proper(v) && At(s, p, Octets(v))
    ensures var r := LengthAt(s, p + 1);
            && r.Length? && r.pos + r.length == p + |Octets(v)|
            && (v.Nested? ==> r == Length(|AllOctets(v.kids)| + 2, p + 2))
    decreases |Octets(v)|, 0
  {
    match v
    case Plain(id, contents) => AtReads(s, p, id, contents);
    case Nested(id, kids) =>
      AtConcat(s, p, [id, 0x80], AllOctets(kids) + [0, 0]);
      AtFirst(s, p, [id, 0x80]);
      FindsClosing(kids, s, p + 2);
  }

  /** Values one after the other are gone through up to the octets that close them. */
  lemma {:induction false} FindsClosing(vs: seq<Tlv>, s: seq<byte>, p: nat)
    requires vs != [] && (forall v :: v in vs ==> Proper(v)) && At(s, p, AllOctets(vs) + [0, 0])
    ensures EndOfContents(s, p + 1) == Length(0, p + |AllOctets(vs)| + 2)
    decreases |AllOctets(vs)|, 1
  {
    var v, rest := vs[0], vs[1..];
    var a, b, e := Octets(v), AllOctets(rest), p + |Octets(v)|;
    assert AllOctets(vs) == a + b;
    TwoParts(a, b, [0, 0], s, p);
    LeadsToEnd(v, s, p);
    AtFirst(s, e, b + [0, 0]);
    AfterValue(s, p + 1, e);
    if rest == [] {
      assert b == [] && b + [0, 0] == [0, 0];
    } else {
      assert Proper(rest[0]) && s[e] == b[0] == rest[0].id;
      FindsClosing(rest, s, e);
    }
  }

  lemma TwoParts(a: seq<byte>, b: seq<byte>, c: seq<byte>, s: seq<byte>, p: nat)
    requires At(s, p, a + b + c)
    ensures At(s, p, a) && At(s, p + |a|, b + c)
  {
    Regroup(a, b, c);
    AtConcat(s, p, a, b + c);
  }

  /** The value at p ends at e: two zero octets there end the form, and otherwise the next value follows. */
  lemma AfterValue(s: seq<byte>, p: nat, e: nat)
    requires var r := LengthAt(s, p); r.Length? && r.pos + r.length == e && e + 1 < |s|
    ensures EndOfContents(s, p) == if s[e] == 0 && s[e + 1] == 0 then Length(0, e + 2) else EndOfContents(s, e + 1)
  {
    EndOfContentsStep(s, p);
  }

  /** A field in the indefinite form, wherever it stands, gives its values without the closing octets. */
  lemma IndefiniteContents(id: byte, kids: seq<Tlv>, s: seq<byte>, p: nat)
    requires Proper(Nested(id, kids)) && At(s, p, Octets(Nested(id, kids)))
    ensures Contents(s, p) == Found(AllOctets(kids))
  {
    LeadsToEnd(Nested(id, kids), s, p);
    AtConcat(s, p, [id, 0x80], AllOctets(kids) + [0, 0]);
    AtFirst(s, p, [id, 0x80]);
    AtConcat(s, p + 2, AllOctets(kids), [0, 0]);
    AtSlice(s, p + 2, AllOctets(kids));
  }

  /** An empty indefinite form is always misread: its closing octets are taken for the beginning of a value. */
  lemma EmptyMisread(s: seq<byte>, p: nat)
    requires p + 1 < |s| && s[p + 1] == 0x80
    ensures LengthAt(s, p + 1).Length? ==> LengthAt(s, p + 1).length >= 4
  {
    assert HeadAt(s, p + 1) == Indefinite(p + 2);
    if p + 3 < |s| { EndOfContentsStep(s, p + 3); }
  }

  lemma EmptyExample(id: byte)
    ensures LengthAt([id, 0x80, 0, 0, 0x30, 0, 0, 0], 1) == Length(6, 2)
  {
    var s: seq<byte> := [id, 0x80, 0, 0, 0x30, 0, 0, 0];
    AfterValue(s, 3, 4);
    AfterValue(s, 5, 6);
    assert HeadAt(s, 1) == Indefinite(2);
  }

  /** A length of more than three octets is refused, and so is a field that has one. */
  lemma LongLengthRefused(s: seq<byte>, p: nat)
    requires p < |s| && s[p] > 0x83
    ensures LengthAt(s, p) == Bad
    ensures p > 0 ==> Contents(s, p - 1) == NotFound
  {
  }

  /** The most significant octet comes first. */
  lemma LengthOctets()
    ensures HeadAt([44], 0) == Definite(44, 1)
    ensures HeadAt([0x81, 200], 0) == Definite(200, 2)
    ensures HeadAt([0x82, 1, 44], 0) == Definite(300, 3)
    ensures HeadAt([0x83, 1, 0, 2], 0) == Definite(65538, 4)
    ensures HeadAt([0x80], 0) == Indefinite(1)
  {
  }

  /** An identifier that is not constructed ends the walk. */
  lemma PrimitiveStops(s: seq<byte>, pos: nat, end: int, w: Walker, level: nat, field: nat)
    requires pos < end && pos < |s|
    requires s[pos] < 0x20 || 0x40 <= s[pos] < 0x60 || 0x80 <= s[pos] < 0xA0 || 0xC0 <= s[pos] < 0xE0
    ensures Walk(s, pos, end, w, level, field) == NotFound
  {
  }
}
