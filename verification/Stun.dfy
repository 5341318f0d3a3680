// The STUN message codec (internal/cwmp/stun/codec.go): the header of RFC 3489 section
// 11.1 and the attributes of section 11.2, each value padded to four bytes.
module Stun {
  import opened Options

  newtype byte = x: int | 0 <= x < 256

  const HEADER_LEN := 20
  const SPACE: byte := 32

  datatype Attribute = Attribute(atype: nat, value: seq<byte>)

  /** A message; the identifier has sixteen bytes and the types fit sixteen bits. */
  datatype Message = Message(mtype: nat, id: seq<byte>, attributes: seq<Attribute>)

  ghost predicate Wellformed(m: Message) {
    && m.mtype < 0x1_0000 && |m.id| == 16
    && forall a | a in m.attributes :: a.atype < 0x1_0000
  }

  // ---------- Sixteen bits ----------

  /** The low sixteen bits, high byte first. */
  function PutU16(v: nat): (r: seq<byte>)
    ensures |r| == 2
  {
    [(v / 256 % 256) as byte, (v % 256) as byte]
  }

  function GetU16(b: seq<byte>): nat
    requires |b| >= 2
  {
    b[0] as nat * 256 + b[1] as nat
  }

  lemma PutGetU16(v: nat, rest: seq<byte>)
    ensures GetU16(PutU16(v) + rest) == v % 0x1_0000
  {
  }

  // ---------- Encoding ----------

  function PadLen(n: nat): nat {
    if n % 4 == 0 then 0 else 4 - n % 4
  }

  function Zeros(n: nat): (r: seq<byte>)
    ensures |r| == n
  {
    seq(n, _ => 0)
  }

  function EncodedAttribute(a: Attribute): seq<byte> {
    PutU16(a.atype) + PutU16(|a.value|) + a.value + Zeros(PadLen(|a.value|))
  }

  function EncodedAttributes(attributes: seq<Attribute>): seq<byte> {
    if attributes == [] then []
    else EncodedAttributes(attributes[..|attributes| - 1]) + EncodedAttribute(attributes[|attributes| - 1])
  }

  function Encoded(m: Message): seq<byte> {
    var body := EncodedAttributes(m.attributes);
    PutU16(m.mtype) + PutU16(|body|) + m.id + body
  }

  method Encode(m: Message) returns (out: seq<byte>)
    requires |m.id| == 16
    ensures out == Encoded(m)
  {
    hide PutU16, Zeros;
    out := PutU16(m.mtype) + [0, 0] + m.id;
    ghost var head := out;
    for i := 0 to |m.attributes|
      invariant out == head + EncodedAttributes(m.attributes[..i])
    {
      var a := m.attributes[i];
      assert m.attributes[..i + 1][..i] == m.attributes[..i];
      out := out + (PutU16(a.atype) + PutU16(|a.value|) + a.value);
      var rem := |a.value| % 4;
      if rem != 0 {
        out := out + Zeros(4 - rem);
      }
      assert out == head + EncodedAttributes(m.attributes[..i]) + EncodedAttribute(a);
    }
    assert m.attributes[..|m.attributes|] == m.attributes;
    var length := PutU16(|out| - HEADER_LEN);
    out := out[..2] + length + out[4..];
  }

  // ---------- Decoding ----------

  /** The attributes of what is left of the body, after those read so far. */
  function DecodedFrom(body: seq<byte>, read: seq<Attribute>): Option<seq<Attribute>>
    decreases |body|
  {
    if body == [] then Some(read)
    else if |body| < 4 then None
    else
      var l := GetU16(body[2..]);
      if 4 + l > |body| then None
      else
        var next := 4 + l + PadLen(l);
        DecodedFrom(body[if next > |body| then |body| else next..], read + [Attribute(GetU16(body), body[4..4 + l])])
  }

  function Decoded(b: seq<byte>): Option<Message> {
    if |b| < HEADER_LEN then None
    else
      var length := GetU16(b[2..]);
      if HEADER_LEN + length > |b| then None
      else
        match DecodedFrom(b[HEADER_LEN..HEADER_LEN + length], [])
        case None => None
        case Some(attributes) => Some(Message(GetU16(b), b[4..20], attributes))
  }

  method Decode(b: seq<byte>) returns (m: Option<Message>)
    ensures m == Decoded(b)
  {
    hide GetU16;
    if |b| < HEADER_LEN {
      return None;
    }
    var mtype, length := GetU16(b), GetU16(b[2..]);
    if HEADER_LEN + length > |b| {
      return None;
    }
    var body := b[HEADER_LEN..HEADER_LEN + length];
    var attributes: seq<Attribute> := [];
    while |body| > 0
      invariant DecodedFrom(b[HEADER_LEN..HEADER_LEN + length], []) == DecodedFrom(body, attributes)
      decreases |body|
    {
      if |body| < 4 {
        return None;
      }
      var t, l := GetU16(body), GetU16(body[2..]);
      if 4 + l > |body| {
        return None;
      }
      attributes := attributes + [Attribute(t, body[4..4 + l])];
      var next := 4 + l;
      var rem := next % 4;
      if rem != 0 {
        next := next + (4 - rem);
      }
      if next > |body| {
        next := |body|;
      }
      body := body[next..];
    }
    return Some(Message(mtype, b[4..20], attributes));
  }

  // ---------- Round trip ----------

  lemma {:induction false} EncodedFromFront(attributes: seq<Attribute>)
    requires attributes != []
    ensures EncodedAttributes(attributes) == EncodedAttribute(attributes[0]) + EncodedAttributes(attributes[1..])
  {
    var n := |attributes| - 1;
    if n > 0 {
      EncodedFromFront(attributes[..n]);
      assert attributes[..n][1..] == attributes[1..][..n - 1];
    }
  }

  /** The body is a multiple of four bytes long, and so is the message. */
  lemma {:induction false} EncodedInFours(attributes: seq<Attribute>)
    ensures |EncodedAttributes(attributes)| % 4 == 0
    ensures forall a | a in attributes :: |a.value| <= |EncodedAttributes(attributes)|
  {
    hide EncodedAttribute, PadLen;
    if attributes != [] {
      var n := |attributes| - 1;
      EncodedInFours(attributes[..n]);
      assert attributes == attributes[..n] + [attributes[n]];
      AttributeLength(attributes[n]);
    }
  }

  lemma AttributeLength(a: Attribute)
    ensures |EncodedAttribute(a)| == 4 + |a.value| + PadLen(|a.value|)
    ensures |EncodedAttribute(a)| % 4 == 0
  {
  }

  lemma NoAttributes()
    ensures EncodedAttributes([]) == []
  {
  }

  lemma AttributeReads(a: Attribute, rest: seq<byte>)
    requires a.atype < 0x1_0000 && |a.value| < 0x1_0000
    ensures var body := EncodedAttribute(a) + rest;
      && GetU16(body) == a.atype && GetU16(body[2..]) == |a.value|
      && body[4..4 + |a.value|] == a.value
      && body[4 + |a.value| + PadLen(|a.value|)..] == rest
  {
    var body := EncodedAttribute(a) + rest;
    var tail := a.value + Zeros(PadLen(|a.value|)) + rest;
    assert body == PutU16(a.atype) + (PutU16(|a.value|) + tail);
    assert body[2..] == PutU16(|a.value|) + tail;
    PutGetU16(a.atype, PutU16(|a.value|) + tail);
    PutGetU16(|a.value|, tail);
    assert body[4..] == tail;
  }

  lemma {:induction false} AttributesRead(attributes: seq<Attribute>, read: seq<Attribute>)
    requires forall a | a in attributes :: a.atype < 0x1_0000 && |a.value| < 0x1_0000
    ensures DecodedFrom(EncodedAttributes(attributes), read) == Some(read + attributes)
    decreases |attributes|
  {
    hide EncodedAttribute, GetU16, PadLen, EncodedAttributes;
    if attributes == [] {
      NoAttributes();
      assert read + attributes == read;
    } else {
      var a := attributes[0];
      EncodedFromFront(attributes);
      AttributeLength(a);
      AttributeReads(a, EncodedAttributes(attributes[1..]));
      AttributesRead(attributes[1..], read + [a]);
      assert read + [a] + attributes[1..] == read + attributes;
    }
  }

  /** Reading attributes takes up their encoding, but for the padding of the last. */
  lemma {:induction false} ReadingTakesUp(body: seq<byte>, read: seq<Attribute>, attributes: seq<Attribute>)
    requires DecodedFrom(body, read) == Some(read + attributes)
    ensures |EncodedAttributes(attributes)| <= |body| + 3
    decreases |body|
  {
    hide EncodedAttribute, GetU16, EncodedAttributes;
    if body == [] {
      NoAttributes();
      assert |read + attributes| == |read|;
    } else {
      var l := GetU16(body[2..]);
      var a := Attribute(GetU16(body), body[4..4 + l]);
      var next := 4 + l + PadLen(l);
      var rest := body[if next > |body| then |body| else next..];
      ReadsOnto(rest, read + [a]);
      var more := DecodedFrom(rest, read + [a]).value[|read| + 1..];
      assert read + [a] + more == read + attributes;
      assert attributes == [a] + more by {
        assert (read + attributes)[|read|..] == attributes && (read + [a] + more)[|read|..] == [a] + more;
      }
      EncodedFromFront(attributes);
      AttributeLength(a);
      NoAttributes();
      if next > |body| {
        assert rest == [] && more == [];
      } else {
        ReadingTakesUp(rest, read + [a], more);
      }
    }
  }

  lemma {:induction false} ReadsOnto(body: seq<byte>, read: seq<Attribute>)
    requires DecodedFrom(body, read).Some?
    ensures read <= DecodedFrom(body, read).value
    decreases |body|
  {
    hide GetU16, PadLen;
    if body != [] {
      var l := GetU16(body[2..]);
      var next := 4 + l + PadLen(l);
      ReadsOnto(body[if next > |body| then |body| else next..], read + [Attribute(GetU16(body), body[4..4 + l])]);
    }
  }

  lemma HeaderReads(m: Message)
    requires Wellformed(m)
    ensures var b, body := Encoded(m), EncodedAttributes(m.attributes);
      && |b| == HEADER_LEN + |body|
      && GetU16(b) == m.mtype && GetU16(b[2..]) == |body| % 0x1_0000
      && b[4..20] == m.id && b[HEADER_LEN..] == body
  {
    var b, body := Encoded(m), EncodedAttributes(m.attributes);
    assert b == PutU16(m.mtype) + (PutU16(|body|) + (m.id + body));
    assert b[2..] == PutU16(|body|) + (m.id + body);
    PutGetU16(m.mtype, PutU16(|body|) + (m.id + body));
    PutGetU16(|body|, m.id + body);
  }

  /** Decoding an encoded message gives it back exactly when its attributes fit the
      sixteen-bit length. */
  lemma RoundTrip(m: Message)
    requires Wellformed(m)
    ensures Decoded(Encoded(m)) == Some(m) <==> |EncodedAttributes(m.attributes)| < 0x1_0000
  {
    hide EncodedAttributes, DecodedFrom, Encoded, GetU16;
    var b, body := Encoded(m), EncodedAttributes(m.attributes);
    HeaderReads(m);
    EncodedInFours(m.attributes);
    var length := |body| % 0x1_0000;
    if |body| < 0x1_0000 {
      AttributesRead(m.attributes, []);
      assert [] + m.attributes == m.attributes;
      assert b[HEADER_LEN..HEADER_LEN + length] == body;
    } else if Decoded(b) == Some(m) {
      assert [] + m.attributes == m.attributes;
      ReadingTakesUp(b[HEADER_LEN..HEADER_LEN + length], [], m.attributes);
      assert false;
    }
  }

  /** One attribute whose value is four bytes short of what sixteen bits can count. */
  const LONG := Message(1, Zeros(16), [Attribute(6, Zeros(0x1_0000 - 4))])

  /** With its header it is encoded in 65536 bytes, and is lost. */
  lemma LongMessageIsLost()
    ensures Wellformed(LONG) && |EncodedAttributes(LONG.attributes)| == 0x1_0000
    ensures Decoded(Encoded(LONG)) != Some(LONG)
  {
    hide DecodedFrom, Encoded, GetU16;
    var a := LONG.attributes[0];
    assert LONG.attributes == [a] && LONG.attributes[..0] == [];
    assert EncodedAttributes([]) == [];
    assert |a.value| % 4 == 0;
    RoundTrip(LONG);
  }

  /** The encoding is a multiple of four bytes long, and its header says how long. */
  lemma EncodedLength(m: Message)
    requires Wellformed(m)
    ensures |Encoded(m)| % 4 == 0
    ensures GetU16(Encoded(m)[2..]) == |Encoded(m)| - HEADER_LEN <==> |EncodedAttributes(m.attributes)| < 0x1_0000
  {
    hide EncodedAttributes, Encoded, GetU16;
    HeaderReads(m);
    EncodedInFours(m.attributes);
  }

  /** The bytes on the wire: type and length, each high byte first, then the identifier; */
  lemma HeaderBytes(m: Message)
    requires Wellformed(m)
    ensures var b, length := Encoded(m), |Encoded(m)| - HEADER_LEN;
      && b[0] as nat == m.mtype / 256 && b[1] as nat == m.mtype % 256
      && b[2] as nat == length / 256 % 256 && b[3] as nat == length % 256
      && b[4..20] == m.id
  {
    hide EncodedAttributes;
  }

  /** and for each attribute its type and length, the value, and as many zeros as bring it to
      a multiple of four. */
  lemma AttributeBytes(a: Attribute)
    requires a.atype < 0x1_0000
    ensures var b, n := EncodedAttribute(a), |a.value|;
      && |b| % 4 == 0 && 4 + n <= |b| < 8 + n
      && b[0] as nat == a.atype / 256 && b[1] as nat == a.atype % 256
      && b[2] as nat == n / 256 % 256 && b[3] as nat == n % 256
      && b[4..4 + n] == a.value
      && forall i | 4 + n <= i < |b| :: b[i] == 0
  {
  }

  // ---------- Telling messages apart ----------

  /** The two top bits of the first byte are clear. */
  predicate IsStun(b: seq<byte>) {
    |b| >= HEADER_LEN && b[0] as bv8 & 0xC0 == 0
  }

  lemma TopBitsClear(x: byte)
    ensures x as bv8 & 0xC0 == 0 <==> x < 64
  {
    var v := x as bv8;
    assert v & 0xC0 == 0 <==> v < 64;
  }

  /** A datagram passes for STUN exactly when it is long enough and its first byte is below 64. */
  lemma FirstByteDecides(b: seq<byte>)
    ensures IsStun(b) <==> |b| >= HEADER_LEN && b[0] < 64
  {
    if |b| >= HEADER_LEN {
      TopBitsClear(b[0]);
    }
  }

  /** So does one whose first byte is neither 0 nor 1. */
  lemma FirstByteTwoIsStun()
    ensures IsStun([2] + Zeros(19)) && ([2] + Zeros(19))[0] == 2
  {
    FirstByteDecides([2] + Zeros(19));
  }

  /** An encoded message passes for STUN exactly when its type leaves the top bits clear. */
  lemma EncodedIsStun(m: Message)
    requires Wellformed(m)
    ensures IsStun(Encoded(m)) <==> m.mtype < 0x4000
  {
    HeaderReads(m);
    TopBitsClear(Encoded(m)[0]);
  }

  // ---------- USERNAME ----------

  method PadUsername(u: seq<byte>) returns (b: seq<byte>)
    ensures |b| % 4 == 0 && |u| <= |b| < |u| + 4
    ensures b[..|u|] == u
    ensures forall i | |u| <= i < |b| :: b[i] == SPACE
  {
    b := u;
    while |b| % 4 != 0
      invariant |u| <= |b| && (|b| == |u| || (|u| % 4 != 0 && |u| / 4 == (|b| - 1) / 4))
      invariant b[..|u|] == u
      invariant forall i | |u| <= i < |b| :: b[i] == SPACE
      decreases |u| + 4 - |b|
    {
      b := b + [SPACE];
    }
  }
}
