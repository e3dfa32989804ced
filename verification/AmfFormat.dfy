/**
 The bytes of AMF0: what the encoder writes for each type, and what the decoder takes each byte sequence
 for, both given byte by byte.
 */
module AmfFormat {
  import opened Bytes
  import opened Amf
  import opened AmfDecoder
  import opened AmfRoundTrip

  /** A sixteen-bit number, the most significant byte first. */
  predicate IsLength(data: bytes, n: nat) {
    |data| >= 2 && 256 * (data[0] as int) + data[1] == n
  }

  /** `data` begins with a value and `rest` follows it. Three types are read as null. */
  ghost predicate ValueFrom(v: PropValue, data: bytes, rest: bytes)
    decreases |data|, 0
  {
    match v
    case Number(bits) => data == [0] + bits + rest
    case Boolean(b) => |data| >= 2 && data[0] == 1 && (b <==> data[1] != 0) && rest == data[2..]
    case Text(s) => |data| >= 3 && data[0] == 2 && IsLength(data[1..], |s|) && data[3..] == s + rest
    case Null => data != [] && data[0] in {5, 6, 13} && rest == data[1..]
    case Object(props) => data != [] && data[0] == 3 && PropsFrom(props, data[1..], rest)
    case Unencodable => false
  }

  /** A name with its length, and a value. */
  ghost predicate PropFrom(p: Prop, data: bytes, rest: bytes)
    decreases |data|, 1
  {
    && |data| >= 4 && IsLength(data, |p.name|) && 2 + |p.name| <= |data| && data[2..2 + |p.name|] == p.name
    && ValueFrom(p.value, data[2 + |p.name|..], rest)
  }

  predicate IsMark(data: bytes, i: nat) {
    i + 3 <= |data| && data[i] == 0 && data[i + 1] == 0 && data[i + 2] == 9
  }

  /** What follows the first end mark. */
  ghost predicate AfterMark(data: bytes, rest: bytes) {
    exists i: nat :: IsMark(data, i) && rest == data[i + 3..] && forall j :: 0 <= j < i ==> !IsMark(data, j)
  }

  /**
   Properties up to the end mark, or up to the end of the data; behind a property that is in error everything
   up to the next end mark is passed over.
   */
  ghost predicate PropsFrom(props: seq<Prop>, data: bytes, rest: bytes)
    decreases |data|, 2
  {
    if data == [] then props == [] && rest == []
    else if IsMark(data, 0) then props == [] && rest == data[3..]
    else if props == [] then DecodeProp(data, true).BadProp? && AfterMark(data, rest)
    else exists mid: bytes :: |mid| < |data| && PropFrom(props[0], data, mid) && PropsFrom(props[1..], mid, rest)
  }

  // --------------------------------------------------------------------------- The decoder

  lemma {:induction false} MarkIs(data: bytes)
    ensures |data| >= 3 && data[..3] == END_MARK <==> IsMark(data, 0)
  {
    if |data| >= 3 {
      assert data[..3] == [data[0], data[1], data[2]];
    }
  }

  /** Looking for an end mark finds the first. */
  lemma {:induction false} SearchFinds(data: bytes, props: seq<Prop>, rest: bytes)
    ensures DecodeProps(data, true, true) == Done(props, rest) <==> props == [] && AfterMark(data, rest)
    decreases |data|
  {
    MarkIs(data);
    if data != [] && !IsMark(data, 0) {
      SearchFinds(data[1..], props, rest);
      LaterMark(data, rest);
    } else if data != [] {
      assert AfterMark(data, data[3..]);
    }
  }

  lemma MarkMoved(data: bytes, i: nat)
    requires data != []
    ensures IsMark(data[1..], i) <==> IsMark(data, i + 1)
  {
  }

  lemma {:induction false} LaterMark(data: bytes, rest: bytes)
    requires data != [] && !IsMark(data, 0)
    ensures AfterMark(data, rest) <==> AfterMark(data[1..], rest)
  {
    var tail := data[1..];
    if AfterMark(data, rest) {
      var i: nat :| IsMark(data, i) && rest == data[i + 3..] && forall j :: 0 <= j < i ==> !IsMark(data, j);
      assert tail[i - 1 + 3..] == data[i + 3..];
      hide IsMark;
      MarkMoved(data, i - 1);
      forall j | 0 <= j < i - 1 ensures !IsMark(tail, j) {
        MarkMoved(data, j);
      }
    }
    if AfterMark(tail, rest) {
      var i: nat :| IsMark(tail, i) && rest == tail[i + 3..] && forall j :: 0 <= j < i ==> !IsMark(tail, j);
      assert tail[i + 3..] == data[i + 1 + 3..];
      hide IsMark;
      MarkMoved(data, i);
      forall j | 0 <= j < i + 1 ensures !IsMark(data, j) {
        if j > 0 {
          MarkMoved(data, j - 1);
        }
      }
      assert IsMark(data, i + 1);
    }
  }

  /** The decoder takes data for a value exactly when it begins with one. */
  lemma {:induction false} TypedIff(name: bytes, data: bytes, v: PropValue, rest: bytes)
    ensures DecodeTyped(name, data) == Got(Prop(name, v), rest) <==> ValueFrom(v, data, rest)
    decreases |data|, 0
  {
    hide DecodeProps, PropsFrom;
    if data != [] {
      var d := data[1..];
      if data[0] == 3 {
        if v.Object? {
          PropsIff(d, v.props, rest);
        }
      } else if data[0] == 0 {
        NumberBytes(data, v, rest);
      } else if data[0] == 2 {
        TextBytes(data, v, rest);
      }
    }
  }

  lemma {:induction false} NumberBytes(data: bytes, v: PropValue, rest: bytes)
    requires data != [] && data[0] == 0
    ensures ValueFrom(v, data, rest) <==> |data| >= 9 && v == Number(data[1..][..8]) && rest == data[1..][8..]
  {
    if |data| >= 9 {
      assert data == [0] + data[1..][..8] + data[1..][8..];
    }
    if v.Number? && data == [0] + v.bits + rest {
      assert data[1..] == v.bits + rest;
    }
  }

  lemma {:induction false} TextBytes(data: bytes, v: PropValue, rest: bytes)
    requires data != [] && data[0] == 2
    ensures
      var d := data[1..];
      ValueFrom(v, data, rest) <==>
      |d| >= 2 && |d| >= Int16At(d) + 2 && v == Text(d[2..2 + Int16At(d)]) && rest == d[2 + Int16At(d)..]
  {
    var d := data[1..];
    if |d| >= 2 {
      var n := Int16At(d);
      assert data[3..] == d[2..];
      if |d| >= n + 2 {
        assert d[2..] == d[2..2 + n] + d[2 + n..];
      }
      if v.Text? && data[3..] == v.s + rest && |v.s| == n {
        assert d[2..2 + n] == d[2..][..n] == v.s && d[2 + n..] == d[2..][n..] == rest;
      }
    }
  }

  lemma {:induction false} PropIff(data: bytes, p: Prop, rest: bytes)
    ensures DecodeProp(data, true) == Got(p, rest) <==> PropFrom(p, data, rest)
    decreases |data|, 1
  {
    hide DecodeTyped, ValueFrom;
    if |data| >= 4 {
      var n := Int16At(data);
      if n <= |data| - 2 {
        TypedIff(data[2..2 + n], data[2 + n..], p.value, rest);
        NameKept(data[2..2 + n], data[2 + n..]);
      }
    }
  }

  /** The property has the name it is decoded with. */
  lemma {:induction false} NameKept(name: bytes, data: bytes)
    ensures DecodeTyped(name, data).Got? ==> DecodeTyped(name, data).prop.name == name
  {
    hide DecodeProps;
  }

  /** The decoder takes data for properties exactly when it begins with them. */
  lemma {:induction false} PropsIff(data: bytes, props: seq<Prop>, rest: bytes)
    ensures DecodeProps(data, true, false) == Done(props, rest) <==> PropsFrom(props, data, rest)
    decreases |data|, 2
  {
    MarkIs(data);
    if data != [] && !IsMark(data, 0) {
      hide DecodeProp, PropFrom, AfterMark;
      var r := DecodeProp(data, true);
      PropsStep(data);
      SearchFinds(data, props, rest);
      if props != [] {
        forall mid: bytes | |mid| < |data|
          ensures PropFrom(props[0], data, mid) <==> r == Got(props[0], mid)
        {
          PropIff(data, props[0], mid);
        }
        if r.Got? {
          PropsIff(r.rest, props[1..], rest);
          assert props == [props[0]] + props[1..];
        }
      }
    }
  }

  lemma {:induction false} PropsStep(data: bytes)
    requires data != [] && !IsMark(data, 0)
    ensures
      var r := DecodeProp(data, true);
      DecodeProps(data, true, false) ==
      match r
      case BadProp => DecodeProps(data, true, true)
      case OutsideProp => Outside
      case Got(prop, rest) => PrependProps([prop], DecodeProps(rest, true, false))
  {
    hide DecodeProp;
    MarkIs(data);
  }

  // --------------------------------------------------------------------------- The encoder

  /** What is written for each type, and for a name, byte by byte. */
  lemma {:induction false} EncodedForms(p: Prop)
    requires EncodableProp(p)
    ensures
      var e := EncodedValue(p.value);
      match p.value
      case Number(bits) => e == [0] + bits
      case Boolean(b) => e == [1, if b then 1 else 0]
      case Text(s) => |s| < 65536 ==> |e| == 3 + |s| && e[0] == 2 && IsLength(e[1..], |s|) && e[3..] == s
      case Null => e == [5]
      case Object(props) => e == [3] + EncodedProps(props) + [0, 0, 9]
    ensures !p.value.Null? && p.name != [] && |p.name| < 65536 ==>
              var h := Header(p);
              |h| == 2 + |p.name| && IsLength(h, |p.name|) && h[2..] == p.name
    ensures EncodedProp(p) == Header(p) + EncodedValue(p.value)
  {
    hide EncodedProps;
    if p.value.Text? {
      var s := p.value.s;
      assert EncodedValue(p.value)[1..] == Int16(|s|) + s;
    }
  }

  /** The encoding of a recoverable tree is, byte by byte, properties and an end mark. */
  lemma {:induction false} EncodingIsFormat(props: seq<Prop>, following: bytes)
    requires Encodable(props) && Recoverable(props)
    ensures EncodedObject(props)[0] == 3
    ensures PropsFrom(props, EncodedObject(props)[1..] + following, following)
  {
    hide DecodeProps, PropsFrom, EncodedProps, Encodable, Recoverable;
    PropsDecode(props, following);
    assert EncodedObject(props)[1..] + following == EncodedProps(props) + (END_MARK + following);
    PropsIff(EncodedObject(props)[1..] + following, props, following);
  }

  // --------------------------------------------------------------------------- What is kept when room is short

  /** Exactly when a property that is no object is written, in terms of its encoding and the bytes left. */
  lemma {:induction false} ScalarKept(p: Prop, room: int)
    requires !p.value.Object?
    ensures CutProp(p, room) ==
            if p.value.Null? then (if room >= 2 then Some(p) else None)
            else if !p.value.Unencodable? && |p.name| + 3 < room && |EncodedProp(p)| <= room then Some(p) else None
  {
  }

  /** An object value is written with the properties kept, if its markers fit with a byte to spare. */
  lemma {:induction false} ObjectKept(p: Prop, room: int)
    requires p.value.Object?
    ensures
      var left := room - |Header(p)|;
      var kept := CutProps(p.value.props, left - 1);
      CutProp(p, room) ==
      if |p.name| + 3 < room && left > 4 && |EncodedProps(kept)| + 4 < left then Some(Prop(p.name, Object(kept)))
      else None
  {
    hide CutProps, EncodedProps;
    var left := room - |Header(p)|;
    assert CutValue(p.value, left) ==
           match CutObject(p.value.props, left) case None => None case Some(t) => Some(Object(t));
  }

  /** Properties are written into the room the earlier ones left, up to the first that does not fit. */
  lemma {:induction false} KeptGreedily(props: seq<Prop>, room: int)
    ensures
      var kept := CutProps(props, room);
      && |kept| <= |props|
      && (forall i :: 0 <= i < |kept| ==>
            Encodable(kept[..i]) && CutProp(props[i], room - |EncodedProps(kept[..i])|) == Some(kept[i]))
      && (|kept| < |props| ==> CutProp(props[|kept|], room - |EncodedProps(kept)|) == None)
    decreases |props|
  {
    hide CutProp, EncodedProp, EncodedProps, Encodable, CutProps;
    FirstKept(props, room);
    if props != [] && CutProp(props[0], room).Some? {
      var first := CutProp(props[0], room).value;
      var left := room - |EncodedProp(first)|;
      var later, kept := CutProps(props[1..], left), CutProps(props, room);
      KeptGreedily(props[1..], left);
      FrontSize(first, later);
      forall i | 0 < i < |kept|
        ensures Encodable(kept[..i]) && CutProp(props[i], room - |EncodedProps(kept[..i])|) == Some(kept[i])
      {
        KeptLater(props, first, later, left, room, i);
        assert kept[..i] == [first] + later[..i - 1];
      }
    }
  }

  /** One of the later properties, seen from the whole list. */
  lemma {:induction false} KeptLater(props: seq<Prop>, first: Prop, later: seq<Prop>, left: int, room: int, i: nat)
    requires 0 < i <= |later| && |later| < |props| && EncodableProp(first) && left == room - |EncodedProp(first)|
    requires Encodable(later[..i - 1])
    requires CutProp(props[1..][i - 1], left - |EncodedProps(later[..i - 1])|) == Some(later[i - 1])
    ensures
      var front := [first] + later[..i - 1];
      Encodable(front) && CutProp(props[i], room - |EncodedProps(front)|) == Some(([first] + later)[i])
  {
    hide CutProp, EncodedProp, EncodedProps, Encodable;
    FrontSize(first, later[..i - 1]);
    assert props[i] == props[1..][i - 1] && ([first] + later)[i] == later[i - 1];
  }

  lemma {:induction false} FirstKept(props: seq<Prop>, room: int)
    ensures Encodable([]) && EncodedProps([]) == []
    ensures
      if props == [] || CutProp(props[0], room).None? then CutProps(props, room) == []
      else
        var first := CutProp(props[0], room).value;
        CutProps(props, room) == [first] + CutProps(props[1..], room - |EncodedProp(first)|)
  {
    hide CutProp, EncodedProp;
  }

  lemma {:induction false} FrontSize(first: Prop, later: seq<Prop>)
    requires EncodableProp(first) && Encodable(later)
    ensures Encodable([first] + later)
    ensures |EncodedProps([first] + later)| == |EncodedProp(first)| + |EncodedProps(later)|
  {
    hide EncodedProp;
    assert ([first] + later)[1..] == later;
  }
}
