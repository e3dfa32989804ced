/**
 The decoder of librtmp/amf.cpp and what it makes of encoded trees. Types for which there is no
 encoder (dates, arrays, long strings, AMF3) lead outside the model.
 */
module AmfDecoder {
  import opened Bytes
  import opened Amf

  datatype DecodedProp = Got(prop: Prop, rest: bytes) | BadProp | OutsideProp

  /** The decoded properties and the bytes not consumed. */
  datatype Decoded = Done(props: seq<Prop>, rest: bytes) | Failed | Outside

  function Int16At(data: bytes): nat
    requires |data| >= 2
  {
    var high: int := data[0];
    high * 256 + data[1]
  }

  function PrependProps(props: seq<Prop>, r: Decoded): Decoded {
    if r.Done? then r.(props := props + r.props) else r
  }

  /** `AMFProp_Decode`, on the bytes that are left. */
  function DecodeProp(data: bytes, named: bool): (r: DecodedProp)
    ensures r.Got? ==> |r.rest| < |data|
    decreases |data|, 1
  {
    if data == [] || (named && |data| < 4) then BadProp
    else if !named then DecodeTyped([], data)
    else
      var n := Int16At(data);
      if n > |data| - 2 then BadProp else DecodeTyped(data[2..2 + n], data[2 + n..])
  }

  function DecodeTyped(name: bytes, data: bytes): (r: DecodedProp)
    ensures data == [] ==> r == BadProp
    ensures r.Got? ==> |r.rest| < |data|
    decreases |data|, 0
  {
    if data == [] then BadProp
    else
      var d := data[1..];
      var kind := data[0];
      if kind == AMF_NUMBER then
        if |d| < 8 then BadProp else Got(Prop(name, Number(d[..8])), d[8..])
      else if kind == AMF_BOOLEAN then
        if |d| < 1 then BadProp else Got(Prop(name, Boolean(d[0] != 0)), d[1..])
      else if kind == AMF_STRING then
        if |d| < 2 || |d| < Int16At(d) + 2 then BadProp
        else Got(Prop(name, Text(d[2..2 + Int16At(d)])), d[2 + Int16At(d)..])
      else if kind == AMF_OBJECT then
        match DecodeProps(d, true, false)
        case Done(props, rest) => Got(Prop(name, Object(props)), rest)
        case Failed => BadProp
        case Outside => OutsideProp
      else if kind in {AMF_NULL, AMF_UNDEFINED, AMF_UNSUPPORTED} then Got(Prop(name, Null), d)
      else if kind in {AMF_ECMA_ARRAY, AMF_STRICT_ARRAY, AMF_DATE, AMF_LONG_STRING, AMF_AVMPLUS} then OutsideProp
      else BadProp
  }

  /**
   `AMF_Decode`, on the bytes that are left: after an error it looks for the next end mark. Running
   out of bytes is accepted in place of an end mark.
   */
  function DecodeProps(data: bytes, named: bool, error: bool): (r: Decoded)
    ensures r.Done? ==> |r.rest| <= |data|
    decreases |data|, if error then 2 else 3
  {
    if data == [] then if error then Failed else Done([], [])
    else if |data| >= 3 && data[..3] == END_MARK then Done([], data[3..])
    else if error then DecodeProps(data[1..], named, true)
    else
      match DecodeProp(data, named)
      case BadProp => DecodeProps(data, named, true)
      case OutsideProp => Outside
      case Got(prop, rest) => PrependProps([prop], DecodeProps(rest, named, false))
  }

  // --------------------------------------------------------------------------- The decoder's loops

  /** What a method reports: the bytes consumed, or -1 for an error; `outside` when the model ends. */
  ghost predicate Reports(r: DecodedProp, prop: Prop, nRes: int, outside: bool, data: bytes) {
    match r
    case Got(p, rest) => !outside && prop == p && 0 < nRes <= |data| && rest == data[nRes..]
    case BadProp => !outside && nRes == -1
    case OutsideProp => outside
  }

  method AMFPropDecode(buffer: bytes, pBuffer: nat, nSize: nat, named: bool)
    returns (prop: Prop, nRes: int, outside: bool)
    requires pBuffer + nSize <= |buffer|
    ensures Reports(DecodeProp(buffer[pBuffer..pBuffer + nSize], named), prop, nRes, outside,
                    buffer[pBuffer..pBuffer + nSize])
    decreases nSize, 1
  {
    hide DecodeTyped, DecodeProps, Int16At;
    prop, nRes, outside := Prop([], Null), -1, false;
    if nSize == 0 || (named && nSize < 4) {
      return;
    }
    var p, left := pBuffer, nSize;
    var name: bytes := [];
    if named {
      var nameSize := Int16At(buffer[p..p + 2]);
      SizeAt(buffer, p, pBuffer + nSize);
      if nameSize > nSize - 2 {
        return;
      }
      Slices(buffer, pBuffer, pBuffer, pBuffer + 2, pBuffer + nSize);
      Slices(buffer, pBuffer, pBuffer + 2, pBuffer + 2 + nameSize, pBuffer + nSize);
      name := buffer[p + 2..p + 2 + nameSize];
      left := left - (2 + nameSize);
      p := p + 2 + nameSize;
    }
    if left == 0 {
      return;
    }
    var n;
    prop, n, outside := DecodeSwitch(name, buffer, p, left);
    if n != -1 && !outside {
      nRes := nSize - left + n;
      Slices(buffer, pBuffer, p, p + n, pBuffer + nSize);
      Slices(buffer, p, p, p + n, pBuffer + nSize);
    }
  }

  /** The switch over the type that follows the name. */
  method DecodeSwitch(name: bytes, buffer: bytes, pBuffer: nat, nSize: nat)
    returns (prop: Prop, nRes: int, outside: bool)
    requires 0 < nSize && pBuffer + nSize <= |buffer|
    ensures Reports(DecodeTyped(name, buffer[pBuffer..pBuffer + nSize]), prop, nRes, outside,
                    buffer[pBuffer..pBuffer + nSize])
    decreases nSize, 0
  {
    hide DecodeProps, DecodeTyped, Int16At;
    prop, nRes, outside := Prop(name, Null), -1, false;
    var kind, p, left, end := buffer[pBuffer], pBuffer + 1, nSize - 1, pBuffer + nSize;
    TypedAt(name, buffer, pBuffer, end);
    if kind == AMF_NUMBER {
      if left < 8 {
        return;
      }
      prop := Prop(name, Number(buffer[p..p + 8]));
      left := left - 8;
    } else if kind == AMF_BOOLEAN {
      if left < 1 {
        return;
      }
      prop := Prop(name, Boolean(buffer[p] != 0));
      left := left - 1;
    } else if kind == AMF_STRING {
      if left < 2 {  // the size read past the end cannot change the outcome
        return;
      }
      var stringSize := Int16At(buffer[p..p + 2]);
      if left < stringSize + 2 {
        return;
      }
      prop := Prop(name, Text(buffer[p + 2..p + 2 + stringSize]));
      left := left - (2 + stringSize);
    } else if kind == AMF_OBJECT {
      var props, n, out := AMFDecode(buffer, p, left, true);
      if out || n == -1 {
        outside := out;
        return;
      }
      prop := Prop(name, Object(props));
      left := left - n;
    } else if kind in {AMF_NULL, AMF_UNDEFINED, AMF_UNSUPPORTED} {
      prop := Prop(name, Null);
    } else {
      outside := kind in {AMF_ECMA_ARRAY, AMF_STRICT_ARRAY, AMF_DATE, AMF_LONG_STRING, AMF_AVMPLUS};
      return;
    }
    nRes := nSize - left;
    RestAt(buffer, pBuffer, pBuffer + nRes, end);
  }

  /** What follows a name in the buffer: the type, and what it decodes to. */
  lemma {:induction false} TypedAt(name: bytes, buffer: bytes, pBuffer: nat, end: nat)
    requires pBuffer < end <= |buffer|
    ensures
      var kind, p := buffer[pBuffer], pBuffer + 1;
      var left := end - p;
      DecodeTyped(name, buffer[pBuffer..end]) ==
      if kind == AMF_NUMBER then
        if left < 8 then BadProp else Got(Prop(name, Number(buffer[p..p + 8])), buffer[p + 8..end])
      else if kind == AMF_BOOLEAN then
        if left < 1 then BadProp else Got(Prop(name, Boolean(buffer[p] != 0)), buffer[p + 1..end])
      else if kind == AMF_STRING then
        if left < 2 || left < Int16At(buffer[p..p + 2]) + 2 then BadProp
        else
          var q := p + 2 + Int16At(buffer[p..p + 2]);
          Got(Prop(name, Text(buffer[p + 2..q])), buffer[q..end])
      else if kind == AMF_OBJECT then
        match DecodeProps(buffer[p..end], true, false)
        case Done(props, rest) => Got(Prop(name, Object(props)), rest)
        case Failed => BadProp
        case Outside => OutsideProp
      else if kind in {AMF_NULL, AMF_UNDEFINED, AMF_UNSUPPORTED} then Got(Prop(name, Null), buffer[p..end])
      else if kind in {AMF_ECMA_ARRAY, AMF_STRICT_ARRAY, AMF_DATE, AMF_LONG_STRING, AMF_AVMPLUS} then OutsideProp
      else BadProp
  {
    hide DecodeProps, Int16At;
    var data, kind, p := buffer[pBuffer..end], buffer[pBuffer], pBuffer + 1;
    RestAt(buffer, pBuffer, p, end);
    var d := data[1..];
    assert data[0] == kind && d == buffer[p..end];
    if kind == AMF_NUMBER && end - p >= 8 {
      Slices(buffer, p, p, p + 8, end);
    } else if kind == AMF_BOOLEAN && end > p {
      Slices(buffer, p, p, p + 1, end);
      assert d[0] == buffer[p];
    } else if kind == AMF_STRING && end - p >= 2 {
      SizeAt(buffer, p, end);
      var n := Int16At(d);
      if end - p >= n + 2 {
        Slices(buffer, p, p + 2, p + 2 + n, end);
      }
    }
  }

  lemma SizeAt(buffer: bytes, p: nat, end: nat)
    requires p + 2 <= end <= |buffer|
    ensures Int16At(buffer[p..end]) == Int16At(buffer[p..p + 2])
  {
  }

  lemma RestAt(s: bytes, a: nat, c: nat, d: nat)
    requires a <= c <= d <= |s|
    ensures s[a..d][c - a..] == s[c..d]
  {
  }

  lemma {:induction false} Slices(s: bytes, a: nat, b: nat, c: nat, d: nat)
    requires a <= b <= c <= d <= |s|
    ensures s[a..d][b - a..c - a] == s[b..c] && s[a..d][c - a..] == s[c..d]
  {
    forall i | 0 <= i < c - b ensures s[a..d][b - a..c - a][i] == s[b..c][i] {
    }
    RestAt(s, a, c, d);
  }

  method AMFDecode(buffer: bytes, pBuffer: nat, nSize: nat, named: bool)
    returns (props: seq<Prop>, nRes: int, outside: bool)
    requires pBuffer + nSize <= |buffer|
    ensures
      match DecodeProps(buffer[pBuffer..pBuffer + nSize], named, false)
      case Done(ps, rest) => !outside && props == ps && 0 <= nRes <= nSize &&
           rest == buffer[pBuffer + nRes..pBuffer + nSize]
      case Failed => !outside && nRes == -1
      case Outside => outside
    decreases nSize, 2
  {
    hide DecodeProp, DecodeProps;
    var end := pBuffer + nSize;
    ghost var result := DecodeProps(buffer[pBuffer..end], named, false);
    var bError := false;
    props, nRes, outside := [], -1, false;
    var p, left := pBuffer, nSize;
    NothingBefore(result);
    while left > 0
      invariant pBuffer <= p && 0 <= left && p + left == end && !outside
      invariant result == PrependProps(props, DecodeProps(buffer[p..end], named, bError))
      decreases left, !bError
    {
      DecodeStep(buffer, p, end, named, bError);
      if left >= 3 && buffer[p..p + 3] == END_MARK {
        NothingAfter(props, buffer[p + 3..end]);
        return props, nSize - (left - 3), false;
      }
      if bError {
        left := left - 1;
        p := p + 1;
        continue;
      }
      var prop, n, out := AMFPropDecode(buffer, p, left, named);
      if out {
        outside := true;
        return;
      }
      if n == -1 {
        bError := true;
      } else {
        RestAt(buffer, p, p + n, end);
        PrependTwice(props, prop, DecodeProps(buffer[p + n..end], named, false));
        left := left - n;
        p := p + n;
        props := props + [prop];
      }
    }
    assert buffer[p..end] == [];
    DecodeEmpty(named, bError);
    if !bError {
      NothingAfter(props, []);
      nRes := nSize - left;
    }
  }

  lemma DecodeEmpty(named: bool, error: bool)
    ensures DecodeProps([], named, error) == if error then Failed else Done([], [])
  {
  }

  /** One turn of the loop: what the bytes from `p` on decode to. */
  lemma {:induction false} DecodeStep(buffer: bytes, p: nat, end: nat, named: bool, error: bool)
    requires p < end <= |buffer|
    ensures DecodeProps(buffer[p..end], named, error) ==
            if p + 3 <= end && buffer[p..p + 3] == END_MARK then Done([], buffer[p + 3..end])
            else if error then DecodeProps(buffer[p + 1..end], named, true)
            else
              match DecodeProp(buffer[p..end], named)
              case BadProp => DecodeProps(buffer[p..end], named, true)
              case OutsideProp => Outside
              case Got(prop, rest) => PrependProps([prop], DecodeProps(rest, named, false))
  {
    hide DecodeProp;
    var data := buffer[p..end];
    RestAt(buffer, p, p + 1, end);
    if p + 3 <= end {
      Slices(buffer, p, p, p + 3, end);
    }
  }

  lemma NothingBefore(r: Decoded)
    ensures PrependProps([], r) == r
  {
  }

  lemma NothingAfter(props: seq<Prop>, rest: bytes)
    ensures PrependProps(props, Done([], rest)) == Done(props, rest)
  {
  }

  lemma {:induction false} PrependTwice(props: seq<Prop>, prop: Prop, r: Decoded)
    ensures PrependProps(props, PrependProps([prop], r)) == PrependProps(props + [prop], r)
  {
    if r.Done? {
      assert props + ([prop] + r.props) == props + [prop] + r.props;
    }
  }
}
