/**
 The encoders of librtmp/amf.cpp, writing through a pointer into a buffer that ends at `end`. A null
 pointer is reported as failure; after a failure, what lies between the pointers is unspecified.
 */
module AmfEncoder {
  import opened Bytes
  import opened Amf

  /** Nothing was written before `p` or from `end` on. */
  ghost predicate WithinBounds(before: bytes, after: bytes, p: nat, end: nat)
    requires p <= end <= |before|
  {
    |after| == |before| && after[..p] == before[..p] && after[end..] == before[end..]
  }

  /** The encoder succeeded with exactly these bytes, or failed as it should. */
  ghost predicate Wrote(fit: Option<bytes>, ok: bool, p: nat, q: nat, end: nat, after: bytes)
    requires p <= end <= |after|
  {
    && (ok <==> fit.Some?)
    && (ok ==> q == p + |fit.value| && q <= end && after[p..q] == fit.value)
  }

  /** The bytes of the tree that is encoded in the given room. */
  function FitObject(props: seq<Prop>, room: int): Option<bytes> {
    match CutObject(props, room)
    case None => None
    case Some(t) => Some(EncodedObject(t))
  }

  function FitProp(p: Prop, room: int): Option<bytes> {
    match CutProp(p, room)
    case None => None
    case Some(t) => Some(EncodedProp(t))
  }

  function FitValue(v: PropValue, room: int): Option<bytes> {
    match CutValue(v, room)
    case None => None
    case Some(t) => Some(EncodedValue(t))
  }

  lemma {:induction false} WithinTwice(before: bytes, middle: bytes, after: bytes, p: nat, q: nat, end: nat)
    requires p <= q <= end <= |before| && WithinBounds(before, middle, p, end) && WithinBounds(middle, after, q, end)
    ensures WithinBounds(before, after, p, end) && after[p..q] == middle[p..q]
  {
    assert after[..p] == after[..q][..p] == middle[..q][..p] == middle[..p];
    assert after[p..q] == after[..q][p..] == middle[..q][p..];
  }

  /** Copies `bs` to `p`. */
  method Copy(buffer: array<byte>, p: nat, bs: bytes) returns (q: nat)
    requires p + |bs| <= buffer.Length
    modifies buffer
    ensures q == p + |bs| && buffer[..] == old(buffer[..p]) + bs + old(buffer[q..])
  {
    ghost var before := buffer[..];
    for i := 0 to |bs|
      invariant buffer[..p] == before[..p] && buffer[p..p + i] == bs[..i] && buffer[p + i..] == before[p + i..]
    {
      buffer[p + i] := bs[i];
      assert buffer[p..p + i + 1] == buffer[p..p + i] + [bs[i]];
      assert buffer[p + i + 1..] == before[p + i..][1..];
    }
    q := p + |bs|;
    assert buffer[..] == buffer[..p] + buffer[p..q] + buffer[q..];
    assert bs[..|bs|] == bs;
  }

  method EncodeInt16(buffer: array<byte>, p: nat, end: nat, n: nat) returns (ok: bool, q: nat)
    requires p <= end <= buffer.Length
    modifies buffer
    ensures WithinBounds(old(buffer[..]), buffer[..], p, end)
    ensures Wrote(if p + 2 > end then None else Some(Int16(n)), ok, p, q, end, buffer[..])
  {
    if p + 2 > end {
      return false, p;
    }
    buffer[p + 1] := n % 256;
    buffer[p] := n / 256 % 256;
    assert buffer[..][p..p + 2] == [buffer[p], buffer[p + 1]];
    return true, p + 2;
  }

  method EncodeInt24(buffer: array<byte>, p: nat, end: nat, n: nat) returns (ok: bool, q: nat)
    requires p <= end <= buffer.Length
    modifies buffer
    ensures WithinBounds(old(buffer[..]), buffer[..], p, end)
    ensures Wrote(if p + 3 > end then None else Some([n / 65536 % 256, n / 256 % 256, n % 256]), ok, p, q, end,
                  buffer[..])
  {
    if p + 3 > end {
      return false, p;
    }
    buffer[p + 2] := n % 256;
    buffer[p + 1] := n / 256 % 256;
    buffer[p] := n / 65536 % 256;
    assert buffer[..][p..p + 3] == [buffer[p], buffer[p + 1], buffer[p + 2]];
    return true, p + 3;
  }

  method EncodeString(buffer: array<byte>, p: nat, end: nat, s: bytes) returns (ok: bool, q: nat)
    requires p <= end <= buffer.Length
    modifies buffer
    ensures WithinBounds(old(buffer[..]), buffer[..], p, end)
    ensures Wrote(FitValue(Text(s), end - p), ok, p, q, end, buffer[..])
  {
    if p + 1 + 2 + |s| > end {
      return false, p;
    }
    buffer[p] := AMF_STRING;
    ok, q := EncodeInt16(buffer, p + 1, end, |s|);
    ghost var middle := buffer[..];
    assert middle[p] == middle[..p + 1][p] == AMF_STRING;
    q := Copy(buffer, q, s);
    assert buffer[..][p..q] == [AMF_STRING] + Int16(|s|) + s;
  }

  method EncodeNumber(buffer: array<byte>, p: nat, end: nat, bits: NumberBits) returns (ok: bool, q: nat)
    requires p <= end <= buffer.Length
    modifies buffer
    ensures WithinBounds(old(buffer[..]), buffer[..], p, end)
    ensures Wrote(FitValue(Number(bits), end - p), ok, p, q, end, buffer[..])
  {
    if p + 1 + 8 > end {
      return false, p;
    }
    buffer[p] := AMF_NUMBER;
    q := Copy(buffer, p + 1, bits);
    ok := true;
    assert buffer[..][p..q] == [AMF_NUMBER] + bits;
  }

  method EncodeBoolean(buffer: array<byte>, p: nat, end: nat, b: bool) returns (ok: bool, q: nat)
    requires p <= end <= buffer.Length
    modifies buffer
    ensures WithinBounds(old(buffer[..]), buffer[..], p, end)
    ensures Wrote(FitValue(Boolean(b), end - p), ok, p, q, end, buffer[..])
  {
    if p + 2 > end {
      return false, p;
    }
    buffer[p], buffer[p + 1] := AMF_BOOLEAN, if b then 1 else 0;
    assert buffer[..][p..p + 2] == [AMF_BOOLEAN, if b then 1 else 0];
    return true, p + 2;
  }

  /** The name and its length, where they are written. */
  method EncodeHeader(prop: Prop, buffer: array<byte>, pBuffer: nat, end: nat) returns (p: nat)
    requires pBuffer + |Header(prop)| <= end <= buffer.Length
    modifies buffer
    ensures WithinBounds(old(buffer[..]), buffer[..], pBuffer, end)
    ensures p == pBuffer + |Header(prop)| && buffer[..][pBuffer..p] == Header(prop)
  {
    p := pBuffer;
    if !prop.value.Null? && prop.name != [] {
      buffer[p], buffer[p + 1] := |prop.name| / 256 % 256, |prop.name| % 256;
      p := Copy(buffer, p + 2, prop.name);
    }
  }

  method EncodeProp(prop: Prop, buffer: array<byte>, pBuffer: nat, end: nat) returns (ok: bool, q: nat)
    requires pBuffer <= end <= buffer.Length
    modifies buffer
    ensures WithinBounds(old(buffer[..]), buffer[..], pBuffer, end)
    ensures Wrote(FitProp(prop, end - pBuffer), ok, pBuffer, q, end, buffer[..])
    decreases prop, 1
  {
    hide CutValue, EncodedValue;
    ghost var before := buffer[..];
    if prop.value.Unencodable? || (!prop.value.Null? && pBuffer + |prop.name| + 2 + 1 >= end) {
      return false, pBuffer;
    }
    var p := EncodeHeader(prop, buffer, pBuffer, end);
    ghost var middle := buffer[..];
    ok, q := EncodeValue(prop.value, buffer, p, end);
    WithinTwice(before, middle, buffer[..], pBuffer, p, end);
    if ok {
      assert buffer[..][pBuffer..q] == buffer[..][pBuffer..p] + buffer[..][p..q];
    }
  }

  /** The switch over the type of a property. */
  method EncodeValue(value: PropValue, buffer: array<byte>, p: nat, end: nat) returns (ok: bool, q: nat)
    requires p <= end <= buffer.Length
    modifies buffer
    ensures WithinBounds(old(buffer[..]), buffer[..], p, end)
    ensures Wrote(FitValue(value, end - p), ok, p, q, end, buffer[..])
    decreases value, 2
  {
    match value {
      case Number(bits) =>
        ok, q := EncodeNumber(buffer, p, end, bits);
      case Boolean(b) =>
        ok, q := EncodeBoolean(buffer, p, end, b);
      case Text(s) =>
        ok, q := EncodeString(buffer, p, end, s);
      case Null =>
        if p + 1 >= end {
          return false, p;
        }
        buffer[p] := AMF_NULL;
        assert buffer[..][p..p + 1] == [AMF_NULL];
        return true, p + 1;
      case Object(props) =>
        ok, q := EncodeObject(props, buffer, p, end);
      case Unencodable =>
        return false, p;
    }
  }

  /** `AMF_Encode`: a property that does not fit ends the loop, and the end mark still follows. */
  method EncodeObject(props: seq<Prop>, buffer: array<byte>, pBuffer: nat, end: nat) returns (ok: bool, q: nat)
    requires pBuffer <= end <= buffer.Length
    modifies buffer
    ensures WithinBounds(old(buffer[..]), buffer[..], pBuffer, end)
    ensures Wrote(FitObject(props, end - pBuffer), ok, pBuffer, q, end, buffer[..])
    decreases props, 3
  {
    hide CutProps, EncodedProps;
    if pBuffer + 4 >= end {
      return false, pBuffer;
    }
    ghost var before := buffer[..];
    buffer[pBuffer] := AMF_OBJECT;
    ghost var first := buffer[..];
    var p := EncodeProps(props, buffer, pBuffer + 1, end);
    ghost var middle := buffer[..];
    WithinTwice(before, first, middle, pBuffer, pBuffer + 1, end);
    if p + 3 >= end {
      return false, p;
    }
    ok, q := EncodeInt24(buffer, p, end, 9);
    ghost var after := buffer[..];
    WithinTwice(before, middle, after, pBuffer, p, end);
    assert first[pBuffer..pBuffer + 1] == [AMF_OBJECT];
    Pieces(middle, pBuffer, pBuffer + 1, p);
    Pieces(after, pBuffer, p, q);
  }

  lemma Pieces(s: bytes, a: nat, b: nat, c: nat)
    requires a <= b <= c <= |s|
    ensures s[a..c] == s[a..b] + s[b..c]
  {
  }

  /** The loop over the properties. */
  method EncodeProps(props: seq<Prop>, buffer: array<byte>, pBuffer: nat, end: nat) returns (p: nat)
    requires pBuffer <= end <= buffer.Length
    modifies buffer
    ensures WithinBounds(old(buffer[..]), buffer[..], pBuffer, end)
    ensures pBuffer <= p <= end && buffer[..][pBuffer..p] == EncodedProps(CutProps(props, end - pBuffer))
    decreases props, 2
  {
    hide WithinBounds, Wrote, CutProps, EncodedProps, FitProp;
    ghost var before := buffer[..];
    ghost var body := EncodedProps(CutProps(props, end - pBuffer));
    p := pBuffer;
    var i := 0;
    Unchanged(before, pBuffer, end);
    assert props[0..] == props && before[p..p] == [];
    while i < |props|
      invariant 0 <= i <= |props| && pBuffer <= p <= end
      invariant WithinBounds(before, buffer[..], pBuffer, end)
      invariant body == buffer[..][pBuffer..p] + EncodedProps(CutProps(props[i..], end - p))
    {
      ghost var middle := buffer[..];
      var res, next := EncodeProp(props[i], buffer, p, end);
      assert props[i..][0] == props[i] && props[i..][1..] == props[i + 1..];
      PropStep(before, middle, buffer[..], pBuffer, p, next, end, body, props[i..], res);
      if !res {
        return;
      }
      p := next;
      i := i + 1;
    }
    EmptyBody(end - p);
    assert props[i..] == [] && buffer[..][pBuffer..p] + [] == buffer[..][pBuffer..p];
  }

  lemma Unchanged(s: bytes, p: nat, end: nat)
    requires p <= end <= |s|
    ensures WithinBounds(s, s, p, end)
  {
  }

  lemma EmptyBody(room: int)
    ensures EncodedProps(CutProps([], room)) == []
  {
  }

  lemma {:induction false} BodyStep(props: seq<Prop>, room: int)
    requires props != []
    ensures EncodedProps(CutProps(props, room)) ==
            match FitProp(props[0], room)
            case None => []
            case Some(piece) => piece + EncodedProps(CutProps(props[1..], room - |piece|))
  {
    hide CutProp, EncodedProp;
    if CutProp(props[0], room).Some? {
      var kept, rest := CutProp(props[0], room).value, CutProps(props[1..], room - |FitProp(props[0], room).value|);
      assert ([kept] + rest)[0] == kept && ([kept] + rest)[1..] == rest;
    }
  }

  /** One turn of the loop, `props` being the properties still to be encoded. */
  lemma {:induction false} PropStep(before: bytes, middle: bytes, after: bytes, p0: nat, p: nat, next: nat, end: nat,
                 body: bytes, props: seq<Prop>, ok: bool)
    requires p0 <= p <= end <= |before| && props != []
    requires WithinBounds(before, middle, p0, end) && WithinBounds(middle, after, p, end)
    requires Wrote(FitProp(props[0], end - p), ok, p, next, end, after)
    requires body == middle[p0..p] + EncodedProps(CutProps(props, end - p))
    ensures WithinBounds(before, after, p0, end)
    ensures !ok ==> body == after[p0..p]
    ensures ok ==> p <= next <= end && body == after[p0..next] + EncodedProps(CutProps(props[1..], end - next))
  {
    hide CutProp, EncodedProp, CutProps, EncodedProps;
    WithinTwice(before, middle, after, p0, p, end);
    BodyStep(props, end - p);
    if ok {
      Pieces(after, p0, p, next);
      assert (after[p0..p] + after[p..next]) + EncodedProps(CutProps(props[1..], end - next)) ==
             after[p0..p] + (after[p..next] + EncodedProps(CutProps(props[1..], end - next)));
    } else {
      assert middle[p0..p] + [] == middle[p0..p];
    }
  }

  /**
   What the encoder leaves in the buffer: never a byte outside it; and either a null pointer or the
   encoding of a truncation of the tree, which is the whole tree exactly when it is encodable and
   more bytes are left than its encoding has.
   */
  method Encode(props: seq<Prop>, buffer: array<byte>, pBuffer: nat, end: nat)
    returns (ok: bool, q: nat, ghost t: seq<Prop>)
    requires pBuffer <= end <= buffer.Length
    modifies buffer
    ensures buffer[..pBuffer] == old(buffer[..pBuffer]) && buffer[end..] == old(buffer[end..])
    ensures ok ==> pBuffer < q < end
    ensures ok ==> IsTruncation(t, props) && Encodable(t) && buffer[pBuffer..q] == EncodedObject(t)
    ensures ok && t == props <==> Encodable(props) && |EncodedObject(props)| < end - pBuffer
  {
    hide EncodedProps, CutProps, IsTruncation;
    ok, q := EncodeObject(props, buffer, pBuffer, end);
    FullEncodingIffRoom(props, end - pBuffer);
    t := props;
    if ok {
      t := CutObject(props, end - pBuffer).value;
      CutObjectTruncates(props, end - pBuffer);
    }
    assert buffer[..pBuffer] == buffer[..][..pBuffer] && buffer[end..] == buffer[..][end..];
  }
}
