/** Which trees the decoder rebuilds from their encoding. */
module AmfRoundTrip {
  import opened Bytes
  import opened Amf
  import opened AmfDecoder

  const LENGTH_LIMIT: nat := 65536

  /** Every property is named and not null, and every length fits sixteen bits. */
  predicate Recoverable(props: seq<Prop>)
    decreases props
  {
    props != [] ==> RecoverableProp(props[0]) && Recoverable(props[1..])
  }

  predicate RecoverableProp(p: Prop)
    decreases p
  {
    p.name != [] && |p.name| < LENGTH_LIMIT && !p.value.Null? && RecoverableValue(p.value)
  }

  /** A value that is rebuilt whatever its name. */
  predicate RecoverableValue(v: PropValue)
    decreases v
  {
    match v
    case Text(s) => |s| < LENGTH_LIMIT
    case Object(props) => Recoverable(props)
    case _ => true
  }

  // --------------------------------------------------------------------------- Rebuilding

  lemma Int16Reads(n: nat, more: bytes)
    requires n < LENGTH_LIMIT
    ensures Int16At(Int16(n) + more) == n && (Int16(n) + more)[2..] == more
  {
  }

  /** The first piece of a concatenation, and what follows it. */
  lemma Front(a: bytes, b: bytes)
    ensures (a + b)[..|a|] == a && (a + b)[|a|..] == b
  {
  }

  lemma {:induction false} Numbered(n: nat, s: bytes, more: bytes)
    requires n == |s| < LENGTH_LIMIT
    ensures
      var data := Int16(n) + s + more;
      |data| == 2 + n + |more| && Int16At(data) == n && data[2..2 + n] == s && data[2 + n..] == more
  {
    var data := Int16(n) + s + more;
    assert data == Int16(n) + (s + more);
    Int16Reads(n, s + more);
    assert data[2..2 + n] == data[2..][..n];
    assert data[2 + n..] == data[2..][n..];
    Front(s, more);
  }

  lemma {:induction false} ValueDecodes(name: bytes, v: PropValue, more: bytes)
    requires EncodableProp(Prop([], v)) && RecoverableValue(v)
    ensures DecodeTyped(name, EncodedValue(v) + more) == Got(Prop(name, v), more)
    decreases v
  {
    hide DecodeProps, EncodedProps;
    var data := EncodedValue(v) + more;
    match v
    case Number(bits) =>
      assert data[1..] == bits + more;
      Front(bits, more);
    case Boolean(b) =>
      assert data[1..] == [data[1]] + more;
    case Text(s) =>
      assert data[1..] == Int16(|s|) + s + more;
      Numbered(|s|, s, more);
    case Null =>
      assert data[1..] == more;
    case Object(props) =>
      assert data[1..] == EncodedProps(props) + (END_MARK + more);
      PropsDecode(props, more);
  }

  lemma {:induction false} PropDecodes(p: Prop, more: bytes)
    requires EncodableProp(p) && RecoverableProp(p)
    ensures
      var data := EncodedProp(p) + more;
      DecodeProp(data, true) == Got(p, more) && |data| >= 3 && data[..3] != END_MARK
    decreases p, 0
  {
    hide DecodeTyped, EncodedValue;
    var n := |p.name|;
    var data := EncodedProp(p) + more;
    assert data == Int16(n) + p.name + (EncodedValue(p.value) + more);
    Numbered(n, p.name, EncodedValue(p.value) + more);
    ValueDecodes(p.name, p.value, more);
  }

  lemma {:induction false} PropsDecode(props: seq<Prop>, more: bytes)
    requires Encodable(props) && Recoverable(props)
    ensures DecodeProps(EncodedProps(props) + (END_MARK + more), true, false) == Done(props, more)
    decreases props
  {
    hide DecodeProp, EncodedProp;
    var data := EncodedProps(props) + (END_MARK + more);
    if props == [] {
      assert data == END_MARK + more;
      Front(END_MARK, more);
    } else {
      var tail := EncodedProps(props[1..]) + (END_MARK + more);
      assert data == EncodedProp(props[0]) + tail;
      PropDecodes(props[0], tail);
      PropsDecode(props[1..], more);
      assert [props[0]] + props[1..] == props;
    }
  }

  // --------------------------------------------------------------------------- What decoding can yield

  /** The bytes the decoder consumes at least for these properties: names and their lengths are always there. */
  function Consumed(props: seq<Prop>): nat
    decreases props
  {
    if props == [] then 0 else ConsumedProp(props[0]) + Consumed(props[1..])
  }

  function ConsumedProp(p: Prop): nat
    decreases p
  {
    2 + |p.name| + ConsumedValue(p.value)
  }

  function ConsumedValue(v: PropValue): nat
    decreases v
  {
    match v
    case Number(_) => 9
    case Boolean(_) => 2
    case Text(s) => 3 + |s|
    case Object(props) => 4 + Consumed(props)
    case _ => 1
  }

  /** Lengths fit sixteen bits, names and texts alike. */
  predicate Short(props: seq<Prop>)
    decreases props
  {
    props != [] ==> ShortProp(props[0]) && Short(props[1..])
  }

  predicate ShortProp(p: Prop)
    decreases p
  {
    |p.name| < LENGTH_LIMIT && ShortValue(p.value)
  }

  predicate ShortValue(v: PropValue)
    decreases v
  {
    match v
    case Text(s) => |s| < LENGTH_LIMIT
    case Object(props) => Short(props)
    case _ => true
  }

  /** While bytes are left over, every end mark was there, so the bytes add up. */
  lemma {:induction false} TypedConsumes(name: bytes, data: bytes)
    requires DecodeTyped(name, data).Got?
    ensures
      var r := DecodeTyped(name, data);
      r.prop.name == name && ShortValue(r.prop.value) &&
      (r.rest != [] ==> ConsumedValue(r.prop.value) <= |data| - |r.rest|)
    decreases |data|, 0
  {
    hide DecodeProps;
    if data[0] == AMF_OBJECT {
      PropsConsume(data[1..], false);
    }
  }

  lemma {:induction false} PropConsumes(data: bytes)
    requires DecodeProp(data, true).Got?
    ensures
      var r := DecodeProp(data, true);
      ShortProp(r.prop) && (r.rest != [] ==> ConsumedProp(r.prop) <= |data| - |r.rest|)
    decreases |data|, 1
  {
    hide DecodeTyped;
    var n := Int16At(data);
    TypedConsumes(data[2..2 + n], data[2 + n..]);
  }

  lemma {:induction false} PropsConsume(data: bytes, error: bool)
    requires DecodeProps(data, true, error).Done?
    ensures
      var r := DecodeProps(data, true, error);
      Short(r.props) && (r.rest != [] ==> Consumed(r.props) + 3 <= |data| - |r.rest|)
    decreases |data|, if error then 2 else 3
  {
    hide DecodeProp;
    if data == [] || (|data| >= 3 && data[..3] == END_MARK) {
    } else if error {
      PropsConsume(data[1..], true);
    } else {
      var r := DecodeProp(data, true);
      if r.BadProp? {
        PropsConsume(data, true);
      } else {
        PropConsumes(data);
        PropsConsume(r.rest, false);
        var tail := DecodeProps(r.rest, true, false);
        assert ([r.prop] + tail.props)[1..] == tail.props;
      }
    }
  }

  /** The encoder writes at most what the decoder would consume, and just as much only for recoverable trees. */
  lemma {:induction false} EncodedAtMost(props: seq<Prop>)
    requires Encodable(props) && Short(props)
    ensures |EncodedProps(props)| <= Consumed(props)
    ensures |EncodedProps(props)| == Consumed(props) ==> Recoverable(props)
    decreases props
  {
    if props != [] {
      EncodedPropAtMost(props[0]);
      EncodedAtMost(props[1..]);
    }
  }

  lemma {:induction false} EncodedPropAtMost(p: Prop)
    requires EncodableProp(p) && ShortProp(p)
    ensures |EncodedProp(p)| <= ConsumedProp(p)
    ensures |EncodedProp(p)| == ConsumedProp(p) ==> RecoverableProp(p)
    decreases p
  {
    if p.value.Object? {
      EncodedAtMost(p.value.props);
      assert |EncodedValue(p.value)| == |EncodedObject(p.value.props)| == |EncodedProps(p.value.props)| + 4;
    }
  }

  // --------------------------------------------------------------------------- Main results

  /**
   Decoding the encoding of a tree, after its object marker: a recoverable tree is rebuilt and exactly
   its encoding consumed, whatever follows. With anything following, no other tree is.
   */
  lemma {:induction false} RoundTrip(props: seq<Prop>, following: bytes)
    requires Encodable(props)
    ensures
      var rebuilt := DecodeProps(EncodedObject(props)[1..] + following, true, false) == Done(props, following);
      && (Recoverable(props) ==> rebuilt)
      && (following != [] ==> (rebuilt <==> Recoverable(props)))
  {
    hide DecodeProps, EncodedProps;
    var data := EncodedProps(props) + (END_MARK + following);
    assert EncodedObject(props)[1..] + following == data;
    if Recoverable(props) {
      PropsDecode(props, following);
    } else if following != [] && DecodeProps(data, true, false) == Done(props, following) {
      PropsConsume(data, false);
      EncodedAtMost(props);
      assert false;
    }
  }

  const ZERO_BITS: NumberBits := [0, 0, 0, 0, 0, 0, 0, 0]

  /** An object holding an unnamed zero, itself the one property of an object. */
  const ACCIDENT: seq<Prop> := [Prop([120], Object([Prop([], Number(ZERO_BITS))]))]

  lemma {:induction false} Single(p: Prop)
    ensures Encodable([p]) == EncodableProp(p) && Recoverable([p]) == RecoverableProp(p)
    ensures EncodableProp(p) ==> EncodedProps([p]) == EncodedProp(p)
  {
    hide EncodableProp, RecoverableProp, EncodedProp;
    assert [p][1..] == [] && Encodable([]) && EncodedProps([]) == [];
  }

  const ZERO: Prop := Prop([], Number(ZERO_BITS))
  const AFTER_ZERO: bytes := [9, 0, 0, 9]

  lemma {:induction false} InnerEncodes()
    ensures Encodable([ZERO]) && !Recoverable([ZERO])
    ensures EncodedObject([ZERO]) == [3, 0] + ZERO_BITS + END_MARK
  {
    hide Encodable, Recoverable, EncodedProps;
    Single(ZERO);
    assert EncodedProp(ZERO) == [0] + ZERO_BITS;
    assert [AMF_OBJECT] + ([0] + ZERO_BITS) + END_MARK == [3, 0] + ZERO_BITS + END_MARK;
  }

  lemma {:induction false} OuterEncodes()
    ensures EncodableProp(ACCIDENT[0]) && !RecoverableProp(ACCIDENT[0])
    ensures EncodedProp(ACCIDENT[0]) == [0, 1, 120] + ([3, 0] + ZERO_BITS + END_MARK)
  {
    hide Encodable, Recoverable, EncodedObject;
    InnerEncodes();
    assert Header(ACCIDENT[0]) == [0, 1, 120];
    assert EncodedValue(ACCIDENT[0].value) == EncodedObject([ZERO]);
  }

  lemma {:induction false} AccidentEncodes()
    ensures Encodable(ACCIDENT) && !Recoverable(ACCIDENT)
    ensures EncodedObject(ACCIDENT)[1..] == [0, 1, 120, 3] + ([0, 0, 0] + ZERO_BITS + AFTER_ZERO)
  {
    hide Encodable, Recoverable, EncodedProps, EncodableProp, RecoverableProp, EncodedProp;
    OuterEncodes();
    Single(ACCIDENT[0]);
    assert ACCIDENT == [ACCIDENT[0]];
    assert EncodedObject(ACCIDENT)[1..] == [0, 1, 120] + ([3, 0] + ZERO_BITS + END_MARK) + END_MARK;
  }

  lemma {:induction false} InnerDecodes()
    ensures DecodeProps([0, 0, 0] + ZERO_BITS + AFTER_ZERO, true, false) == Done([ZERO], [])
  {
    var nested := [0, 0, 0] + ZERO_BITS + AFTER_ZERO;
    assert nested[..3] == [0, 0, 0];
    assert DecodeProp(nested, true) == Got(ZERO, AFTER_ZERO) by {
      assert nested[2..2] == [] && nested[2..][1..] == ZERO_BITS + AFTER_ZERO;
    }
    assert DecodeProps(AFTER_ZERO, true, false) == Done([], []) by {
      assert AFTER_ZERO[1..] == END_MARK && END_MARK[3..] == [] && AFTER_ZERO[..3] == [9, 0, 0];
      assert DecodeProps(END_MARK, true, true) == Done([], []);
    }
    assert [ZERO] + [] == [ZERO];
  }

  /**
   With nothing following, the condition is not needed: here the decoder is two bytes ahead after the
   unnamed zero, takes the outer end mark for the inner one, and accepts that the bytes run out.
   */
  lemma {:induction false} AccidentAtTheEnd()
    ensures Encodable(ACCIDENT) && !Recoverable(ACCIDENT)
    ensures DecodeProps(EncodedObject(ACCIDENT)[1..], true, false) == Done(ACCIDENT, [])
  {
    AccidentEncodes();
    hide Encodable, Recoverable, EncodedObject;
    var nested := [0, 0, 0] + ZERO_BITS + AFTER_ZERO;
    var data := [0, 1, 120, 3] + nested;
    assert data[..3] == [0, 1, 120];
    assert DecodeProp(data, true) == Got(ACCIDENT[0], []) by {
      hide DecodeProps;
      InnerDecodes();
      assert data[3..][1..] == nested && data[2..3] == [120];
    }
    assert DecodeProps([], true, false) == Done([], []);
    assert [ACCIDENT[0]] + [] == ACCIDENT;
  }

  // A message body: properties without names, one after the other, to the end of the bytes.

  /** An unnamed number that begins like an end mark. */
  predicate LooksLikeEnd(p: Prop) {
    p.value.Number? && p.value.bits[0] == 0 && p.value.bits[1] == 9
  }

  predicate UnnamedProps(props: seq<Prop>) {
    forall p | p in props :: p.name == [] && EncodableProp(p) && RecoverableValue(p.value)
  }

  lemma {:induction false} UnnamedEncodable(props: seq<Prop>)
    requires UnnamedProps(props)
    ensures Encodable(props)
  {
    if props != [] {
      UnnamedEncodable(props[1..]);
    }
  }

  lemma {:induction false} UnnamedStep(p: Prop, more: bytes)
    requires p.name == [] && EncodableProp(p) && RecoverableValue(p.value)
    ensures
      var data := EncodedProp(p) + more;
      if LooksLikeEnd(p) then |data| > 3 && data[..3] == END_MARK
      else DecodeProp(data, false) == Got(p, more) && data != [] && (|data| >= 3 ==> data[..3] != END_MARK)
  {
    hide DecodeTyped, EncodedProps;
    var data := EncodedProp(p) + more;
    assert EncodedProp(p) == EncodedValue(p.value);
    ValueDecodes([], p.value, more);
    if p.value.Number? {
      assert data[..3] == [AMF_NUMBER, p.value.bits[0], p.value.bits[1]];
    } else {
      assert |data| >= 3 ==> data[..3][0] == EncodedValue(p.value)[0] != AMF_NUMBER;
    }
  }

  /**
   A message body decodes to its properties exactly when none of them is a number that looks like an
   end mark; the first such number ends the decoding early.
   */
  lemma {:induction false} MessageRoundTrip(props: seq<Prop>)
    requires UnnamedProps(props)
    ensures Encodable(props)
    ensures DecodeProps(EncodedProps(props), false, false) == Done(props, []) <==>
            forall p | p in props :: !LooksLikeEnd(p)
  {
    hide DecodeProp, EncodedProp, LooksLikeEnd;
    UnnamedEncodable(props);
    if props != [] {
      var tail := EncodedProps(props[1..]);
      UnnamedStep(props[0], tail);
      MessageRoundTrip(props[1..]);
      assert props == [props[0]] + props[1..];
      if !LooksLikeEnd(props[0]) {
        var r := DecodeProps(tail, false, false);
        if r.Done? && [props[0]] + r.props == props {
          assert r.props == ([props[0]] + r.props)[1..];
        }
      }
    }
  }
}
