/** `KeyboardSwipeConfiguration` and `KeyboardSwipe` with their `Codable`
    conformance. A keyed coding container is modelled as the map from coding
    key to value it reads or writes: `encode(to:)` is a function from the
    record to such a map, `init(from:)` a function from such a map back to the
    record or to a decoding error. */
module KeyboardSwipeCodec {
  import opened Wrappers
  import opened Json
  import opened KeyboardTypes

  /** Swift's `Int` on the 64-bit devices the keyboard runs on. */
  newtype Int64 = x: int | -0x8000_0000_0000_0000 <= x < 0x8000_0000_0000_0000

  /** All swipe settings, each of them optional. The defaults make the
      datatype's constructor the memberwise initialiser, where every argument
      left out is absent. `tangentThreshold` (a `CGFloat`) and
      `longPressDelay` (a `Double`) are carried as exact numbers and never
      computed on. */
  datatype KeyboardSwipeConfiguration = KeyboardSwipeConfiguration(
    xAxleSwipeSensitivity: Option<Int64> := None,
    yAxleSwipeSensitivity: Option<Int64> := None,
    spaceSwipeSensitivity: Option<Int64> := None,
    distanceThreshold: Option<Int64> := None,
    tangentThreshold: Option<real> := None,
    longPressDelay: Option<real> := None,
    keyboardSwipe: Option<seq<KeyboardSwipe>> := None)

  /** The swipe gestures of the keys of one built-in keyboard. */
  datatype KeyboardSwipe = KeyboardSwipe(keyboardType: Option<KeyboardType>, keys: Option<seq<Key>>)

  /** `KeyboardSwipe.init(keyboardType:keys:)`. */
  function NewKeyboardSwipe(keyboardType: KeyboardType, keys: seq<Key>): (r: KeyboardSwipe)
    ensures r.keyboardType == Some(keyboardType) && r.keys == Some(keys)
  {
    KeyboardSwipe(Some(keyboardType), Some(keys))
  }

  /** A decoding error, naming the coding key where decoding failed. */
  datatype DecodingError = TypeMismatch(context: string)

  /** The conversions the two codecs call but do not define: the textual form
      of a keyboard layout (`KeyboardType.yamlString`) and its parser
      (`String.keyboardType`, which fails on an unknown name), and the codec of
      a single `Key`. */
  datatype Elements = Elements(
    yamlString: KeyboardType -> string,
    parseKeyboardType: string -> Option<KeyboardType>,
    encodeKey: Key -> JVal,
    decodeKey: JVal -> Result<Key, DecodingError>)

  /** The element conversions undo each other. */
  ghost predicate ElementsRoundTrip(el: Elements)
  {
    && (forall t :: el.parseKeyboardType(el.yamlString(t)) == Some(t))
    && (forall k :: el.decodeKey(el.encodeKey(k)) == Success(k))
  }

  // The `CodingKeys` of both types: each case's name is its string value.
  const XAxleSwipeSensitivityKey := "xAxleSwipeSensitivity"
  const YAxleSwipeSensitivityKey := "yAxleSwipeSensitivity"
  const SpaceSwipeSensitivityKey := "spaceSwipeSensitivity"
  const DistanceThresholdKey := "distanceThreshold"
  const TangentThresholdKey := "tangentThreshold"
  const LongPressDelayKey := "longPressDelay"
  const KeyboardSwipeKey := "keyboardSwipe"
  const KeyboardTypeKey := "keyboardType"
  const KeysKey := "keys"

  const ConfigurationCodingKeys: set<string> :=
    {XAxleSwipeSensitivityKey, YAxleSwipeSensitivityKey, SpaceSwipeSensitivityKey,
     DistanceThresholdKey, TangentThresholdKey, LongPressDelayKey, KeyboardSwipeKey}

  // ---------------------------------------------------------------- encoding

  /** `encodeIfPresent`: writes the value under the key, or nothing at all. */
  function EncodeIfPresent<T>(m: map<string, JVal>, key: string, v: Option<T>,
                              encode: T -> JVal): map<string, JVal>
  {
    if v.Some? then m[key := encode(v.value)] else m
  }

  function EncodeList<T>(xs: seq<T>, encode: T -> JVal): (r: seq<JVal>)
    ensures |r| == |xs|
  {
    if xs == [] then [] else [encode(xs[0])] + EncodeList(xs[1..], encode)
  }

  function EncodeInt(i: Int64): JVal
  {
    Num(i as real)
  }

  function EncodeNumber(n: real): JVal
  {
    Num(n)
  }

  /** `KeyboardSwipe.encode(to:)`. */
  function EncodeKeyboardSwipe(s: KeyboardSwipe, el: Elements): (r: map<string, JVal>)
    ensures r.Keys <= {KeyboardTypeKey, KeysKey}
  {
    var m := EncodeIfPresent(map[], KeyboardTypeKey, s.keyboardType, t => Str(el.yamlString(t)));
    EncodeIfPresent(m, KeysKey, s.keys, keys => Arr(EncodeList(keys, el.encodeKey)))
  }

  /** `KeyboardSwipeConfiguration.encode(to:)`. */
  function EncodeConfiguration(c: KeyboardSwipeConfiguration, el: Elements): (r: map<string, JVal>)
    ensures r.Keys <= ConfigurationCodingKeys
  {
    var m1 := EncodeIfPresent(map[], XAxleSwipeSensitivityKey, c.xAxleSwipeSensitivity, EncodeInt);
    var m2 := EncodeIfPresent(m1, YAxleSwipeSensitivityKey, c.yAxleSwipeSensitivity, EncodeInt);
    var m3 := EncodeIfPresent(m2, SpaceSwipeSensitivityKey, c.spaceSwipeSensitivity, EncodeInt);
    var m4 := EncodeIfPresent(m3, DistanceThresholdKey, c.distanceThreshold, EncodeInt);
    var m5 := EncodeIfPresent(m4, TangentThresholdKey, c.tangentThreshold, EncodeNumber);
    var m6 := EncodeIfPresent(m5, LongPressDelayKey, c.longPressDelay, EncodeNumber);
    EncodeIfPresent(m6, KeyboardSwipeKey, c.keyboardSwipe,
                    list => Arr(EncodeList(list, s => Obj(EncodeKeyboardSwipe(s, el)))))
  }

  // ---------------------------------------------------------------- decoding

  /** A number `Int` accepts: integral and within 64 bits. */
  predicate IsInt64Number(n: real)
  {
    n == n.Floor as real && -0x8000_0000_0000_0000 <= n.Floor < 0x8000_0000_0000_0000
  }

  /** `decodeIfPresent(Int.self, forKey:)`: a missing key or a null is
      absent, any other value must be an integral number that fits. */
  function DecodeIntIfPresent(m: map<string, JVal>, key: string): Result<Option<Int64>, DecodingError>
  {
    if key !in m || m[key].Null? then Success(None)
    else if m[key].Num? && IsInt64Number(m[key].n) then Success(Some(m[key].n.Floor as Int64))
    else Failure(TypeMismatch(key))
  }

  /** `decodeIfPresent(CGFloat.self, ...)` and `decodeIfPresent(Double.self, ...)`. */
  function DecodeNumberIfPresent(m: map<string, JVal>, key: string): Result<Option<real>, DecodingError>
  {
    if key !in m || m[key].Null? then Success(None)
    else if m[key].Num? then Success(Some(m[key].n))
    else Failure(TypeMismatch(key))
  }

  /** `decodeIfPresent(String.self, forKey:)`. */
  function DecodeStringIfPresent(m: map<string, JVal>, key: string): Result<Option<string>, DecodingError>
  {
    if key !in m || m[key].Null? then Success(None)
    else if m[key].Str? then Success(Some(m[key].s))
    else Failure(TypeMismatch(key))
  }

  /** Decoding an array stops at the first element that fails. */
  function DecodeList<T>(items: seq<JVal>, decode: JVal -> Result<T, DecodingError>)
    : (r: Result<seq<T>, DecodingError>)
    ensures r.Success? ==> |r.value| == |items|
  {
    if items == [] then Success([])
    else
      var head :- decode(items[0]);
      var tail :- DecodeList(items[1..], decode);
      Success([head] + tail)
  }

  /** `decodeIfPresent([T].self, forKey:)`. */
  function DecodeArrayIfPresent<T>(m: map<string, JVal>, key: string,
                                   decode: JVal -> Result<T, DecodingError>): Result<Option<seq<T>>, DecodingError>
  {
    if key !in m || m[key].Null? then Success(None)
    else if m[key].Arr? then
      var xs :- DecodeList(m[key].items, decode);
      Success(Some(xs))
    else Failure(TypeMismatch(key))
  }

  /** `KeyboardSwipe.init(from:)`: a `keyboardType` string that names no
      layout is dropped, without error; `keys` is decoded regardless. */
  function DecodeKeyboardSwipe(v: JVal, el: Elements): (r: Result<KeyboardSwipe, DecodingError>)
    ensures !v.Obj? ==> r.Failure?
    ensures r.Success? && r.value.keyboardType.Some? ==>
              KeyboardTypeKey in v.fields && v.fields[KeyboardTypeKey].Str? &&
              el.parseKeyboardType(v.fields[KeyboardTypeKey].s) == r.value.keyboardType
    ensures r.Success? && r.value.keys.Some? ==>
              KeysKey in v.fields && v.fields[KeysKey].Arr? &&
              |r.value.keys.value| == |v.fields[KeysKey].items|
  {
    if !v.Obj? then Failure(TypeMismatch(KeyboardSwipeKey))
    else
      var name :- DecodeStringIfPresent(v.fields, KeyboardTypeKey);
      var keyboardType := if name.Some? then el.parseKeyboardType(name.value) else None;
      var keys :- DecodeArrayIfPresent(v.fields, KeysKey, el.decodeKey);
      Success(KeyboardSwipe(keyboardType, keys))
  }

  /** The number `n` sits under `key`. */
  predicate ReadFrom(m: map<string, JVal>, key: string, n: real)
  {
    key in m && m[key] == Num(n)
  }

  /** `KeyboardSwipeConfiguration.init(from:)`: every field present in the
      result was read from its own coding key. */
  function DecodeConfiguration(m: map<string, JVal>, el: Elements)
    : (r: Result<KeyboardSwipeConfiguration, DecodingError>)
    ensures r.Success? ==>
      && (r.value.xAxleSwipeSensitivity.Some? ==>
            ReadFrom(m, XAxleSwipeSensitivityKey, r.value.xAxleSwipeSensitivity.value as real))
      && (r.value.yAxleSwipeSensitivity.Some? ==>
            ReadFrom(m, YAxleSwipeSensitivityKey, r.value.yAxleSwipeSensitivity.value as real))
      && (r.value.spaceSwipeSensitivity.Some? ==>
            ReadFrom(m, SpaceSwipeSensitivityKey, r.value.spaceSwipeSensitivity.value as real))
      && (r.value.distanceThreshold.Some? ==>
            ReadFrom(m, DistanceThresholdKey, r.value.distanceThreshold.value as real))
      && (r.value.tangentThreshold.Some? ==> ReadFrom(m, TangentThresholdKey, r.value.tangentThreshold.value))
      && (r.value.longPressDelay.Some? ==> ReadFrom(m, LongPressDelayKey, r.value.longPressDelay.value))
      && (r.value.keyboardSwipe.Some? ==>
            KeyboardSwipeKey in m && m[KeyboardSwipeKey].Arr? &&
            |r.value.keyboardSwipe.value| == |m[KeyboardSwipeKey].items|)
  {
    var x :- DecodeIntIfPresent(m, XAxleSwipeSensitivityKey);
    var y :- DecodeIntIfPresent(m, YAxleSwipeSensitivityKey);
    var space :- DecodeIntIfPresent(m, SpaceSwipeSensitivityKey);
    var distance :- DecodeIntIfPresent(m, DistanceThresholdKey);
    var tangent :- DecodeNumberIfPresent(m, TangentThresholdKey);
    var delay :- DecodeNumberIfPresent(m, LongPressDelayKey);
    var swipes :- DecodeArrayIfPresent(m, KeyboardSwipeKey, v => DecodeKeyboardSwipe(v, el));
    Success(KeyboardSwipeConfiguration(x, y, space, distance, tangent, delay, swipes))
  }

  // ---------------------------------------------------------------- properties

  /** Encoding writes a coding key exactly when its field is present, with the
      field's value, and writes no other key. */
  lemma EncodeWritesPresentFields(c: KeyboardSwipeConfiguration, el: Elements)
    ensures var m := EncodeConfiguration(c, el);
      && m.Keys <= ConfigurationCodingKeys
      && (XAxleSwipeSensitivityKey in m <==> c.xAxleSwipeSensitivity.Some?)
      && (YAxleSwipeSensitivityKey in m <==> c.yAxleSwipeSensitivity.Some?)
      && (SpaceSwipeSensitivityKey in m <==> c.spaceSwipeSensitivity.Some?)
      && (DistanceThresholdKey in m <==> c.distanceThreshold.Some?)
      && (TangentThresholdKey in m <==> c.tangentThreshold.Some?)
      && (LongPressDelayKey in m <==> c.longPressDelay.Some?)
      && (KeyboardSwipeKey in m <==> c.keyboardSwipe.Some?)
      && (c.xAxleSwipeSensitivity.Some? ==> m[XAxleSwipeSensitivityKey] == Num(c.xAxleSwipeSensitivity.value as real))
      && (c.yAxleSwipeSensitivity.Some? ==> m[YAxleSwipeSensitivityKey] == Num(c.yAxleSwipeSensitivity.value as real))
      && (c.spaceSwipeSensitivity.Some? ==> m[SpaceSwipeSensitivityKey] == Num(c.spaceSwipeSensitivity.value as real))
      && (c.distanceThreshold.Some? ==> m[DistanceThresholdKey] == Num(c.distanceThreshold.value as real))
      && (c.tangentThreshold.Some? ==> m[TangentThresholdKey] == Num(c.tangentThreshold.value))
      && (c.longPressDelay.Some? ==> m[LongPressDelayKey] == Num(c.longPressDelay.value))
      && (c.keyboardSwipe.Some? ==>
            var list := c.keyboardSwipe.value;
            && m[KeyboardSwipeKey].Arr? && |m[KeyboardSwipeKey].items| == |list|
            && forall i :: 0 <= i < |list| ==> m[KeyboardSwipeKey].items[i] == Obj(EncodeKeyboardSwipe(list[i], el)))
  {
    if c.keyboardSwipe.Some? {
      EncodeListElements(c.keyboardSwipe.value, s => Obj(EncodeKeyboardSwipe(s, el)));
    }
  }

  /** An encoded array holds the encodings of the elements, in order. */
  lemma {:induction false} EncodeListElements<T>(xs: seq<T>, encode: T -> JVal)
    ensures forall i :: 0 <= i < |xs| ==> EncodeList(xs, encode)[i] == encode(xs[i])
  {
    if xs != [] {
      EncodeListElements(xs[1..], encode);
      assert forall i :: 1 <= i < |xs| ==> xs[1..][i - 1] == xs[i];
    }
  }

  /** The memberwise initialiser with no argument gives the configuration
      with every field absent, and that one encodes to an empty container. */
  lemma DefaultConfigurationIsEmpty(el: Elements)
    ensures KeyboardSwipeConfiguration() ==
            KeyboardSwipeConfiguration(None, None, None, None, None, None, None)
    ensures EncodeConfiguration(KeyboardSwipeConfiguration(), el) == map[]
  {
  }

  /** A missing key decodes to an absent field, and a present key holding a
      non-null value of the wrong type makes decoding fail. */
  lemma DecodeMissingIsAbsent(m: map<string, JVal>, el: Elements)
    ensures var r := DecodeConfiguration(m, el);
      && (r.Success? && XAxleSwipeSensitivityKey !in m ==> r.value.xAxleSwipeSensitivity.None?)
      && (r.Success? && YAxleSwipeSensitivityKey !in m ==> r.value.yAxleSwipeSensitivity.None?)
      && (r.Success? && SpaceSwipeSensitivityKey !in m ==> r.value.spaceSwipeSensitivity.None?)
      && (r.Success? && DistanceThresholdKey !in m ==> r.value.distanceThreshold.None?)
      && (r.Success? && TangentThresholdKey !in m ==> r.value.tangentThreshold.None?)
      && (r.Success? && LongPressDelayKey !in m ==> r.value.longPressDelay.None?)
      && (r.Success? && KeyboardSwipeKey !in m ==> r.value.keyboardSwipe.None?)
      && (m == map[] ==> r == Success(KeyboardSwipeConfiguration()))
      && (WrongIntAt(m, XAxleSwipeSensitivityKey) ==> r.Failure?)
      && (WrongIntAt(m, YAxleSwipeSensitivityKey) ==> r.Failure?)
      && (WrongIntAt(m, SpaceSwipeSensitivityKey) ==> r.Failure?)
      && (WrongIntAt(m, DistanceThresholdKey) ==> r.Failure?)
      && (WrongNumberAt(m, TangentThresholdKey) ==> r.Failure?)
      && (WrongNumberAt(m, LongPressDelayKey) ==> r.Failure?)
      && (KeyboardSwipeKey in m && !m[KeyboardSwipeKey].Null? && !m[KeyboardSwipeKey].Arr? ==> r.Failure?)
  {
  }

  /** A present, non-null value that is not an integral number within 64 bits. */
  predicate WrongIntAt(m: map<string, JVal>, key: string)
  {
    key in m && !m[key].Null? && !(m[key].Num? && IsInt64Number(m[key].n))
  }

  /** A present, non-null value that is not a number. */
  predicate WrongNumberAt(m: map<string, JVal>, key: string)
  {
    key in m && !m[key].Null? && !m[key].Num?
  }

  /** One element that fails to decode makes the whole array fail. */
  lemma {:induction false} DecodeListFailsOnBadElement<T>(items: seq<JVal>, decode: JVal -> Result<T, DecodingError>,
                                                          i: nat)
    requires i < |items| && decode(items[i]).Failure?
    ensures DecodeList(items, decode).Failure?
  {
    if i > 0 && decode(items[0]).Success? {
      DecodeListFailsOnBadElement(items[1..], decode, i - 1);
    }
  }

  /** A `keyboardSwipe` array with an element that is not a container makes
      the whole configuration fail to decode. */
  lemma DecodeRejectsBadKeyboardSwipe(m: map<string, JVal>, el: Elements, i: nat)
    requires KeyboardSwipeKey in m && m[KeyboardSwipeKey].Arr?
    requires i < |m[KeyboardSwipeKey].items| && !m[KeyboardSwipeKey].items[i].Obj?
    ensures DecodeConfiguration(m, el).Failure?
  {
    DecodeListFailsOnBadElement(m[KeyboardSwipeKey].items, v => DecodeKeyboardSwipe(v, el), i);
  }

  /** `KeyboardSwipe` fails to decode from anything but a container, from a
      `keyboardType` that is present, not null and not a string, and from
      `keys` that are present, not null and not an array. */
  lemma DecodeKeyboardSwipeWrongType(v: JVal, el: Elements)
    ensures var r := DecodeKeyboardSwipe(v, el);
      && (!v.Obj? ==> r == Failure(TypeMismatch(KeyboardSwipeKey)))
      && ((v.Obj? && KeyboardTypeKey in v.fields && !v.fields[KeyboardTypeKey].Null? &&
           !v.fields[KeyboardTypeKey].Str?) ==> r == Failure(TypeMismatch(KeyboardTypeKey)))
      && (v.Obj? && KeysKey in v.fields && !v.fields[KeysKey].Null? && !v.fields[KeysKey].Arr? ==> r.Failure?)
  {
  }

  /** A decoded array holds the decodings of the stored elements, in order. */
  lemma {:induction false} DecodeListElements<T>(items: seq<JVal>, decode: JVal -> Result<T, DecodingError>)
    requires DecodeList(items, decode).Success?
    ensures forall i :: 0 <= i < |items| ==> decode(items[i]) == Success(DecodeList(items, decode).value[i])
  {
    if items != [] {
      DecodeListElements(items[1..], decode);
      assert forall i :: 1 <= i < |items| ==> items[1..][i - 1] == items[i];
    }
  }

  /** `decodeIfPresent(Int.self, ...)` read into `f`: a missing key or a null
      gives nil, an integral number within 64 bits gives that number. */
  predicate IntFieldRead(m: map<string, JVal>, key: string, f: Option<Int64>)
  {
    && (key !in m || m[key].Null? ==> f.None?)
    && (key in m && m[key].Num? && IsInt64Number(m[key].n) ==> f == Some(m[key].n.Floor as Int64))
  }

  /** `decodeIfPresent(CGFloat.self, ...)` or `Double` read into `f`: a
      missing key or a null gives nil, a number gives that number. */
  predicate NumberFieldRead(m: map<string, JVal>, key: string, f: Option<real>)
  {
    && (key !in m || m[key].Null? ==> f.None?)
    && (key in m && m[key].Num? ==> f == Some(m[key].n))
  }

  /** On success every field holds what its coding key holds: nil for a
      missing key or a null, the number for a number, and for `keyboardSwipe`
      the decodings of the stored elements, in order. */
  lemma DecodePresentIsRead(m: map<string, JVal>, el: Elements)
    ensures var r := DecodeConfiguration(m, el);
      r.Success? ==>
        && IntFieldRead(m, XAxleSwipeSensitivityKey, r.value.xAxleSwipeSensitivity)
        && IntFieldRead(m, YAxleSwipeSensitivityKey, r.value.yAxleSwipeSensitivity)
        && IntFieldRead(m, SpaceSwipeSensitivityKey, r.value.spaceSwipeSensitivity)
        && IntFieldRead(m, DistanceThresholdKey, r.value.distanceThreshold)
        && NumberFieldRead(m, TangentThresholdKey, r.value.tangentThreshold)
        && NumberFieldRead(m, LongPressDelayKey, r.value.longPressDelay)
        && (KeyboardSwipeKey !in m || m[KeyboardSwipeKey].Null? ==> r.value.keyboardSwipe.None?)
        && (KeyboardSwipeKey in m && m[KeyboardSwipeKey].Arr? ==>
              var items, list := m[KeyboardSwipeKey].items, r.value.keyboardSwipe;
              && list.Some? && |list.value| == |items|
              && forall i :: 0 <= i < |items| ==> DecodeKeyboardSwipe(items[i], el) == Success(list.value[i]))
  {
    var r := DecodeConfiguration(m, el);
    if r.Success? && KeyboardSwipeKey in m && m[KeyboardSwipeKey].Arr? {
      DecodeListElements(m[KeyboardSwipeKey].items, v => DecodeKeyboardSwipe(v, el));
    }
  }

  /** On success a `KeyboardSwipe` holds what its container holds: the parse
      of a `keyboardType` string (nil for a missing key or a null), and for
      `keys` nil for a missing key or a null, otherwise the decodings of the
      stored elements, in order. */
  lemma KeyboardSwipePresentIsRead(v: JVal, el: Elements)
    ensures var r := DecodeKeyboardSwipe(v, el);
      r.Success? ==>
        && v.Obj?
        && (KeyboardTypeKey !in v.fields || v.fields[KeyboardTypeKey].Null? ==> r.value.keyboardType.None?)
        && (KeyboardTypeKey in v.fields && v.fields[KeyboardTypeKey].Str? ==>
              r.value.keyboardType == el.parseKeyboardType(v.fields[KeyboardTypeKey].s))
        && (KeysKey !in v.fields || v.fields[KeysKey].Null? ==> r.value.keys.None?)
        && (KeysKey in v.fields && v.fields[KeysKey].Arr? ==>
              var items, keys := v.fields[KeysKey].items, r.value.keys;
              && keys.Some? && |keys.value| == |items|
              && forall i :: 0 <= i < |items| ==> el.decodeKey(items[i]) == Success(keys.value[i]))
  {
    var r := DecodeKeyboardSwipe(v, el);
    if r.Success? && KeysKey in v.fields && v.fields[KeysKey].Arr? {
      DecodeListElements(v.fields[KeysKey].items, el.decodeKey);
    }
  }

  /** `decodeIfPresent([T].self, ...)` does not fail: the key is missing or
      null, or holds an array whose every element decodes. */
  predicate ArrayDecodes<T>(m: map<string, JVal>, key: string, decode: JVal -> Result<T, DecodingError>)
  {
    key !in m || m[key].Null? || (m[key].Arr? && DecodeList(m[key].items, decode).Success?)
  }

  /** Decoding succeeds exactly when no coding key holds a value of the wrong
      type and every stored swipe list decodes; so a null is never an error. */
  lemma DecodeSucceedsIffWellTyped(m: map<string, JVal>, el: Elements)
    ensures DecodeConfiguration(m, el).Success? <==>
      && !WrongIntAt(m, XAxleSwipeSensitivityKey) && !WrongIntAt(m, YAxleSwipeSensitivityKey)
      && !WrongIntAt(m, SpaceSwipeSensitivityKey) && !WrongIntAt(m, DistanceThresholdKey)
      && !WrongNumberAt(m, TangentThresholdKey) && !WrongNumberAt(m, LongPressDelayKey)
      && ArrayDecodes(m, KeyboardSwipeKey, v => DecodeKeyboardSwipe(v, el))
  {
  }

  /** A `KeyboardSwipe` decodes exactly from a container whose `keyboardType`
      is missing, null or a string and whose `keys` decode. */
  lemma KeyboardSwipeSucceedsIffWellTyped(v: JVal, el: Elements)
    ensures DecodeKeyboardSwipe(v, el).Success? <==>
      && v.Obj?
      && (KeyboardTypeKey !in v.fields || v.fields[KeyboardTypeKey].Null? || v.fields[KeyboardTypeKey].Str?)
      && ArrayDecodes(v.fields, KeysKey, el.decodeKey)
  {
  }

  /** Keys that are not coding keys are ignored when decoding. */
  lemma DecodeIgnoresUnknownKeys(m: map<string, JVal>, el: Elements)
    ensures DecodeConfiguration(m, el) ==
            DecodeConfiguration(map k | k in m && k in ConfigurationCodingKeys :: m[k], el)
  {
  }

  lemma {:induction false} ListRoundTrip<T>(xs: seq<T>, encode: T -> JVal,
                                            decode: JVal -> Result<T, DecodingError>)
    requires forall i :: 0 <= i < |xs| ==> decode(encode(xs[i])) == Success(xs[i])
    ensures DecodeList(EncodeList(xs, encode), decode) == Success(xs)
  {
    if xs != [] {
      ListRoundTrip(xs[1..], encode, decode);
      assert [xs[0]] + xs[1..] == xs;
    }
  }

  /** An unknown or missing `keyboardType` leaves the layout absent; the keys
      are decoded on their own all the same. */
  lemma UnparseableKeyboardTypeDropped(m: map<string, JVal>, el: Elements)
    requires KeyboardTypeKey !in m ||
             (m[KeyboardTypeKey].Str? && el.parseKeyboardType(m[KeyboardTypeKey].s).None?)
    ensures var r := DecodeKeyboardSwipe(Obj(m), el);
            var keys := DecodeArrayIfPresent(m, KeysKey, el.decodeKey);
            (r.Success? <==> keys.Success?) &&
            (r.Success? ==> r.value == KeyboardSwipe(None, keys.value))
  {
  }

  /** `KeyboardSwipe` writes its layout as its textual name and leaves out
      whatever is absent. */
  lemma EncodeKeyboardSwipeFields(s: KeyboardSwipe, el: Elements)
    ensures var m := EncodeKeyboardSwipe(s, el);
      && m.Keys <= {KeyboardTypeKey, KeysKey}
      && (KeyboardTypeKey in m <==> s.keyboardType.Some?)
      && (KeysKey in m <==> s.keys.Some?)
      && (s.keyboardType.Some? ==> m[KeyboardTypeKey] == Str(el.yamlString(s.keyboardType.value)))
      && (s.keys.Some? ==>
            && m[KeysKey].Arr? && |m[KeysKey].items| == |s.keys.value|
            && forall i :: 0 <= i < |s.keys.value| ==> m[KeysKey].items[i] == el.encodeKey(s.keys.value[i]))
  {
    if s.keys.Some? {
      EncodeListElements(s.keys.value, el.encodeKey);
    }
  }

  /** Decoding undoes encoding for a `KeyboardSwipe`, given that the element
      conversions undo each other. */
  lemma KeyboardSwipeRoundTrip(s: KeyboardSwipe, el: Elements)
    requires ElementsRoundTrip(el)
    ensures DecodeKeyboardSwipe(Obj(EncodeKeyboardSwipe(s, el)), el) == Success(s)
  {
    if s.keys.Some? {
      ListRoundTrip(s.keys.value, el.encodeKey, el.decodeKey);
    }
  }

  /** A `KeyboardSwipe` made by `init(keyboardType:keys:)` writes both keys
      and reads back as itself. */
  lemma NewKeyboardSwipeRoundTrip(t: KeyboardType, keys: seq<Key>, el: Elements)
    requires ElementsRoundTrip(el)
    ensures var s := NewKeyboardSwipe(t, keys);
            && s.keyboardType == Some(t) && s.keys == Some(keys)
            && EncodeKeyboardSwipe(s, el).Keys == {KeyboardTypeKey, KeysKey}
            && DecodeKeyboardSwipe(Obj(EncodeKeyboardSwipe(s, el)), el) == Success(s)
  {
    KeyboardSwipeRoundTrip(NewKeyboardSwipe(t, keys), el);
  }

  /** Decoding undoes encoding for every configuration: present fields come
      back with their values, absent ones stay absent. */
  lemma ConfigurationRoundTrip(c: KeyboardSwipeConfiguration, el: Elements)
    requires ElementsRoundTrip(el)
    ensures DecodeConfiguration(EncodeConfiguration(c, el), el) == Success(c)
  {
    var m := EncodeConfiguration(c, el);
    EncodeWritesPresentFields(c, el);
    IntRoundTrip(m, XAxleSwipeSensitivityKey, c.xAxleSwipeSensitivity);
    IntRoundTrip(m, YAxleSwipeSensitivityKey, c.yAxleSwipeSensitivity);
    IntRoundTrip(m, SpaceSwipeSensitivityKey, c.spaceSwipeSensitivity);
    IntRoundTrip(m, DistanceThresholdKey, c.distanceThreshold);
    assert DecodeNumberIfPresent(m, TangentThresholdKey) == Success(c.tangentThreshold);
    assert DecodeNumberIfPresent(m, LongPressDelayKey) == Success(c.longPressDelay);
    var decodeSwipe := v => DecodeKeyboardSwipe(v, el);
    if c.keyboardSwipe.Some? {
      var list := c.keyboardSwipe.value;
      forall i | 0 <= i < |list|
        ensures DecodeKeyboardSwipe(Obj(EncodeKeyboardSwipe(list[i], el)), el) == Success(list[i])
      {
        KeyboardSwipeRoundTrip(list[i], el);
      }
      var encodeSwipe := s => Obj(EncodeKeyboardSwipe(s, el));
      ListRoundTrip(list, encodeSwipe, decodeSwipe);
      assert m[KeyboardSwipeKey] == Arr(EncodeList(list, encodeSwipe));
    }
    assert DecodeArrayIfPresent(m, KeyboardSwipeKey, decodeSwipe) == Success(c.keyboardSwipe);
  }

  /** An encoded `Int` decodes back to itself. */
  lemma IntRoundTrip(m: map<string, JVal>, key: string, v: Option<Int64>)
    requires v.Some? <==> key in m
    requires v.Some? ==> m[key] == Num(v.value as real)
    ensures DecodeIntIfPresent(m, key) == Success(v)
  {
    if v.Some? {
      assert (v.value as int as real).Floor == v.value as int;
    }
  }
}
