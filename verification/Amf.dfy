/**
 The AMF0 codec (librtmp/amf.cpp): object trees, their encoding, what the encoder produces when the
 room is short, and the decoder.
 */
module Amf {
  import opened Bytes

  const AMF_NUMBER: byte := 0
  const AMF_BOOLEAN: byte := 1
  const AMF_STRING: byte := 2
  const AMF_OBJECT: byte := 3
  const AMF_NULL: byte := 5
  const AMF_UNDEFINED: byte := 6
  const AMF_ECMA_ARRAY: byte := 8
  const AMF_STRICT_ARRAY: byte := 10
  const AMF_DATE: byte := 11
  const AMF_LONG_STRING: byte := 12
  const AMF_UNSUPPORTED: byte := 13
  const AMF_AVMPLUS: byte := 17

  const END_MARK: bytes := [0, 0, 9]

  /** The eight bytes of a double, most significant first. */
  type NumberBits = b: bytes | |b| == 8 witness [0, 0, 0, 0, 0, 0, 0, 0]

  /** A property; `Unencodable` stands for the types the encoder refuses. */
  datatype Prop = Prop(name: bytes, value: PropValue)

  datatype PropValue =
    | Number(bits: NumberBits)
    | Boolean(b: bool)
    | Text(s: bytes)
    | Null
    | Object(props: seq<Prop>)
    | Unencodable

  // --------------------------------------------------------------------------- Encoding

  /** The low sixteen bits, most significant byte first. */
  function Int16(n: nat): (r: bytes)
    ensures |r| == 2
  {
    [n / 256 % 256, n % 256]
  }

  /** A null property and one with an empty name are written without the name. */
  function Header(p: Prop): bytes {
    if p.value.Null? || p.name == [] then [] else Int16(|p.name|) + p.name
  }

  /** Whether the encoder knows every type in the tree. */
  predicate Encodable(props: seq<Prop>)
    decreases props
  {
    props != [] ==> EncodableProp(props[0]) && Encodable(props[1..])
  }

  predicate EncodableProp(p: Prop)
    decreases p
  {
    match p.value
    case Unencodable => false
    case Object(props) => Encodable(props)
    case _ => true
  }

  /** The encoding of an object, given all the room it needs. */
  function EncodedObject(props: seq<Prop>): bytes
    requires Encodable(props)
    decreases props, 1
  {
    [AMF_OBJECT] + EncodedProps(props) + END_MARK
  }

  function EncodedProps(props: seq<Prop>): bytes
    requires Encodable(props)
    decreases props, 0
  {
    if props == [] then [] else EncodedProp(props[0]) + EncodedProps(props[1..])
  }

  function EncodedProp(p: Prop): bytes
    requires EncodableProp(p)
    decreases p
  {
    Header(p) + EncodedValue(p.value)
  }

  function EncodedValue(v: PropValue): (r: bytes)
    requires EncodableProp(Prop([], v))
    ensures |r| >= 1
    decreases v
  {
    match v
    case Number(bits) => [AMF_NUMBER] + bits
    case Boolean(b) => [AMF_BOOLEAN, if b then 1 else 0]
    case Text(s) => [AMF_STRING] + Int16(|s|) + s
    case Null => [AMF_NULL]
    case Object(props) => EncodedObject(props)
  }

  // --------------------------------------------------------------------------- Short of room

  /** The tree that is encoded when only `room` bytes are left, or none. */
  function CutObject(props: seq<Prop>, room: int): (r: Option<seq<Prop>>)
    ensures r.Some? ==> Encodable(r.value) && |EncodedObject(r.value)| < room
    decreases props, 1
  {
    if room <= 4 then None
    else
      var kept := CutProps(props, room - 1);
      if room - 1 - |EncodedProps(kept)| <= 3 then None else Some(kept)
  }

  /** The properties kept: up to the first that does not fit. */
  function CutProps(props: seq<Prop>, room: int): (r: seq<Prop>)
    ensures Encodable(r)
    decreases props, 0
  {
    if props == [] then []
    else
      match CutProp(props[0], room)
      case None => []
      case Some(p) => [p] + CutProps(props[1..], room - |EncodedProp(p)|)
  }

  function CutProp(p: Prop, room: int): (r: Option<Prop>)
    ensures r.Some? ==> EncodableProp(r.value)
    decreases p
  {
    if p.value.Unencodable? || (!p.value.Null? && |p.name| + 3 >= room) then None
    else
      match CutValue(p.value, room - |Header(p)|)
      case None => None
      case Some(v) => Some(Prop(p.name, v))
  }

  function CutValue(v: PropValue, room: int): (r: Option<PropValue>)
    ensures r.Some? ==> EncodableProp(Prop([], r.value)) && r.value.Null? == v.Null?
    decreases v
  {
    match v
    case Number(_) => if 9 > room then None else Some(v)
    case Boolean(_) => if 2 > room then None else Some(v)
    case Text(s) => if 3 + |s| > room then None else Some(v)
    case Null => if 1 >= room then None else Some(v)
    case Object(props) => (match CutObject(props, room) case None => None case Some(t) => Some(Object(t)))
    case Unencodable => None
  }

  /** A truncation: at each level a prefix of the properties, with object values truncated in turn. */
  predicate IsTruncation(t: seq<Prop>, props: seq<Prop>)
    decreases props
  {
    t == [] || (props != [] && IsTruncatedProp(t[0], props[0]) && IsTruncation(t[1..], props[1..]))
  }

  predicate IsTruncatedProp(t: Prop, p: Prop)
    decreases p
  {
    && t.name == p.name
    && if t.value.Object? && p.value.Object? then IsTruncation(t.value.props, p.value.props) else t.value == p.value
  }

  lemma {:induction false} CutPropsTruncates(props: seq<Prop>, room: int)
    ensures IsTruncation(CutProps(props, room), props)
    decreases props, 0
  {
    if props != [] && CutProp(props[0], room).Some? {
      CutPropTruncates(props[0], room);
      CutPropsTruncates(props[1..], room - |EncodedProp(CutProp(props[0], room).value)|);
    }
  }

  lemma {:induction false} CutPropTruncates(p: Prop, room: int)
    requires CutProp(p, room).Some?
    ensures IsTruncatedProp(CutProp(p, room).value, p)
    decreases p
  {
    if p.value.Object? {
      var props, left := p.value.props, room - |Header(p)|;
      assert CutValue(p.value, left) == Some(Object(CutObject(props, left).value));
      CutPropsTruncates(props, left - 1);
    }
  }

  /** What is encoded is always a truncation of the tree. */
  lemma {:induction false} CutObjectTruncates(props: seq<Prop>, room: int)
    requires CutObject(props, room).Some?
    ensures IsTruncation(CutObject(props, room).value, props)
  {
    CutPropsTruncates(props, room - 1);
  }

  lemma {:induction false} CutPropsFull(props: seq<Prop>, room: int)
    requires Encodable(props) && |EncodedProps(props)| + 3 < room
    ensures CutProps(props, room) == props
    decreases props, 0
  {
    if props != [] {
      CutPropFull(props[0], room);
      CutPropsFull(props[1..], room - |EncodedProp(props[0])|);
    }
  }

  lemma {:induction false} CutPropFull(p: Prop, room: int)
    requires EncodableProp(p) && |EncodedProp(p)| + 3 < room
    ensures CutProp(p, room) == Some(p)
    decreases p
  {
    if p.value.Object? {
      var props, left := p.value.props, room - |Header(p)|;
      assert |EncodedValue(p.value)| == |EncodedObject(props)| == |EncodedProps(props)| + 4;
      CutPropsFull(props, left - 1);
      assert CutObject(props, left) == Some(props);
    }
  }

  /** The whole tree is encoded exactly when it has no refused type and one byte more than its encoding is left. */
  lemma {:induction false} FullEncodingIffRoom(props: seq<Prop>, room: int)
    ensures CutObject(props, room) == Some(props) <==> Encodable(props) && |EncodedObject(props)| < room
  {
    if Encodable(props) && |EncodedObject(props)| < room {
      CutPropsFull(props, room - 1);
    }
  }
}
