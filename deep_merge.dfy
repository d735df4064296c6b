/** `HamsterConfiguration.merge(with:uniquingKeysWith:)` and the recursive
    `deepMerge` it is built on.

    `deepMerge` starts from a copy of the base map and visits the overlay's
    keys in the dictionary's own (unspecified) order: nested objects on both
    sides are merged recursively, any other collision is handed to the
    caller's resolver, and a key the base lacks is adopted as it is. A resolver
    that throws aborts the whole merge.

    The imperative `DeepMerge` is proved against two order-independent
    definitions: `Succeeds` (no collision, at any depth, makes the resolver
    fail) and `Merged` (the merged map, key by key). */
module HamsterConfigurationMerge {
  import opened Wrappers
  import opened Json

  /** The merge succeeds: every collision the merge hands to the resolver,
      at any depth, is resolved without error. */
  ghost predicate Succeeds<E>(d1: map<string, JVal>, d2: map<string, JVal>,
                              resolver: (JVal, JVal) -> Result<JVal, E>)
    ensures d1.Keys !! d2.Keys ==> Succeeds(d1, d2, resolver)
    decreases Obj(d2)
  {
    forall k :: k in d2 && k in d1 ==>
      if d1[k].Obj? && d2[k].Obj? then Succeeds(d1[k].fields, d2[k].fields, resolver)
      else resolver(d1[k], d2[k]).Success?
  }

  /** `e` is an error the resolver raises on one of the collisions the merge
      hands to it, at any depth. */
  ghost predicate ResolverError<E>(d1: map<string, JVal>, d2: map<string, JVal>,
                                   resolver: (JVal, JVal) -> Result<JVal, E>, e: E)
    decreases Obj(d2)
  {
    exists k :: k in d2 && k in d1 &&
      if d1[k].Obj? && d2[k].Obj? then ResolverError(d1[k].fields, d2[k].fields, resolver, e)
      else resolver(d1[k], d2[k]) == Failure(e)
  }

  /** The merged map, defined key by key without any visiting order: a key only
      in the base keeps its value, a key only in the overlay is adopted, two
      nested objects merge recursively and any other collision takes the
      resolver's value. */
  ghost function Merged<E>(d1: map<string, JVal>, d2: map<string, JVal>,
                           resolver: (JVal, JVal) -> Result<JVal, E>): (r: map<string, JVal>)
    requires Succeeds(d1, d2, resolver)
    ensures r.Keys == d1.Keys + d2.Keys
    decreases Obj(d2)
  {
    map k | k in d1.Keys + d2.Keys ::
      if k !in d2 then d1[k]
      else if k !in d1 then d2[k]
      else if d1[k].Obj? && d2[k].Obj? then Obj(Merged(d1[k].fields, d2[k].fields, resolver))
      else resolver(d1[k], d2[k]).value
  }

  /** `v` is what the merge stores under the overlay key `k`, and computing it
      did not fail. */
  ghost predicate MergedAt<E>(d1: map<string, JVal>, d2: map<string, JVal>,
                              resolver: (JVal, JVal) -> Result<JVal, E>, k: string, v: JVal)
    requires k in d2
  {
    if k !in d1 then v == d2[k]
    else if d1[k].Obj? && d2[k].Obj? then
      Succeeds(d1[k].fields, d2[k].fields, resolver) &&
      v == Obj(Merged(d1[k].fields, d2[k].fields, resolver))
    else resolver(d1[k], d2[k]) == Success(v)
  }

  /** `deepMerge(_:_:uniquingKeysWith:)`. */
  method DeepMerge<E>(d1: map<string, JVal>, d2: map<string, JVal>,
                      resolver: (JVal, JVal) -> Result<JVal, E>)
    returns (res: Result<map<string, JVal>, E>)
    ensures res.Success? <==> Succeeds(d1, d2, resolver)
    ensures res.Success? ==> res.value == Merged(d1, d2, resolver)
    ensures res.Failure? ==> ResolverError(d1, d2, resolver, res.error)
    decreases Obj(d2)
  {
    var result := d1;
    var remaining := d2.Keys;
    while remaining != {}
      invariant remaining <= d2.Keys
      invariant forall k :: k in result <==> k in d1 || (k in d2 && k !in remaining)
      // an overlay key not yet visited still holds the base's value, so the
      // test on `result[k]` below is a test on `d1[k]`
      invariant forall k :: k in d1 && (k !in d2 || k in remaining) ==> result[k] == d1[k]
      invariant forall k :: k in d2 && k !in remaining ==> MergedAt(d1, d2, resolver, k, result[k])
      decreases remaining
    {
      var k :| k in remaining;
      var v2 := d2[k];
      if k in result && result[k].Obj? && v2.Obj? {
        var sub := DeepMerge(result[k].fields, v2.fields, resolver);
        if sub.Failure? {
          return Failure(sub.error);
        }
        result := result[k := Obj(sub.value)];
      } else if k in d1 {
        var resolved := resolver(d1[k], v2);
        if resolved.Failure? {
          return Failure(resolved.error);
        }
        result := result[k := resolved.value];
      } else {
        result := result[k := v2];
      }
      remaining := remaining - {k};
    }
    assert Succeeds(d1, d2, resolver);
    assert forall k :: k in result ==> result[k] == Merged(d1, d2, resolver)[k];
    return Success(result);
  }

  /** Encoding of a configuration into its JSON object and decoding back, the
      `JSONEncoder`/`JSONSerialization`/`JSONDecoder` calls of `merge`. */
  datatype Codec<!C, E> = Codec(encode: C -> Result<map<string, JVal>, E>,
                               decode: map<string, JVal> -> Result<C, E>)

  /** `merge(with:uniquingKeysWith:)`: encode both configurations, deep-merge
      the overlay into the base and decode the result. */
  method Merge<C, E>(base: C, overlay: C, resolver: (JVal, JVal) -> Result<JVal, E>,
                     codec: Codec<C, E>)
    returns (res: Result<C, E>)
    ensures codec.encode(base).Failure? ==> res == Failure(codec.encode(base).error)
    ensures codec.encode(base).Success? && codec.encode(overlay).Failure? ==>
              res == Failure(codec.encode(overlay).error)
    ensures codec.encode(base).Success? && codec.encode(overlay).Success? ==>
              var d1, d2 := codec.encode(base).value, codec.encode(overlay).value;
              (Succeeds(d1, d2, resolver) ==> res == codec.decode(Merged(d1, d2, resolver))) &&
              (!Succeeds(d1, d2, resolver) ==> res.Failure? && ResolverError(d1, d2, resolver, res.error))
    // an overlay that encodes to nothing gives back the base, provided the
    // base survives its own encode/decode round trip
    ensures (codec.encode(overlay) == Success(map[]) && codec.encode(base).Success? &&
             codec.decode(codec.encode(base).value) == Success(base)) ==> res == Success(base)
  {
    var selfData := codec.encode(base);
    if selfData.Failure? {
      return Failure(selfData.error);
    }
    var withData := codec.encode(overlay);
    if withData.Failure? {
      return Failure(withData.error);
    }
    var merged := DeepMerge(selfData.value, withData.value, resolver);
    if merged.Failure? {
      return Failure(merged.error);
    }
    EmptyOverlayIsIdentity(selfData.value, resolver);
    res := codec.decode(merged.value);
  }

  /** The resolver `{ $1 }` of the doc comment: the overlay's value wins. */
  function OverlayWins<E>(v1: JVal, v2: JVal): Result<JVal, E>
  {
    Success(v2)
  }

  /** The resolver `{ $0 }`: the base's value wins. */
  function BaseWins<E>(v1: JVal, v2: JVal): Result<JVal, E>
  {
    Success(v1)
  }

  /** Every value of `d` is found in `m` at the same path: nested objects of
      `d` are objects of `m` that again contain them, every other value of `d`
      is stored unchanged. */
  ghost predicate Dominates(m: map<string, JVal>, d: map<string, JVal>)
    decreases Obj(d)
  {
    forall k :: k in d ==>
      k in m &&
      if d[k].Obj? then m[k].Obj? && Dominates(m[k].fields, d[k].fields)
      else m[k] == d[k]
  }

  lemma {:induction false} DominatesSelf(d: map<string, JVal>)
    ensures Dominates(d, d)
    decreases Obj(d)
  {
    forall k | k in d && d[k].Obj?
      ensures Dominates(d[k].fields, d[k].fields)
    {
      DominatesSelf(d[k].fields);
    }
  }

  /** With an empty overlay the merge succeeds and returns the base. */
  lemma EmptyOverlayIsIdentity<E>(d: map<string, JVal>, resolver: (JVal, JVal) -> Result<JVal, E>)
    ensures Succeeds(d, map[], resolver) && Merged(d, map[], resolver) == d
  {
  }

  /** With an empty base the merge succeeds and returns the overlay. */
  lemma EmptyBaseIsIdentity<E>(d: map<string, JVal>, resolver: (JVal, JVal) -> Result<JVal, E>)
    ensures Succeeds(map[], d, resolver) && Merged(map[], d, resolver) == d
  {
  }

  /** The merge never drops a key and invents none; a key of only one side
      keeps that side's value whatever the resolver. */
  lemma MergedKeys<E>(d1: map<string, JVal>, d2: map<string, JVal>,
                      resolver: (JVal, JVal) -> Result<JVal, E>)
    requires Succeeds(d1, d2, resolver)
    ensures Merged(d1, d2, resolver).Keys == d1.Keys + d2.Keys
    ensures forall k :: k in d1 && k !in d2 ==> Merged(d1, d2, resolver)[k] == d1[k]
    ensures forall k :: k in d2 && k !in d1 ==> Merged(d1, d2, resolver)[k] == d2[k]
  {
  }

  /** Trees with no common key merge without consulting the resolver: any
      resolver, even one that always fails, gives their union. */
  lemma DisjointMerge<E>(d1: map<string, JVal>, d2: map<string, JVal>,
                         resolver: (JVal, JVal) -> Result<JVal, E>)
    requires d1.Keys !! d2.Keys
    ensures Succeeds(d1, d2, resolver) && Merged(d1, d2, resolver) == d1 + d2
  {
  }

  /** The merge fails exactly when the resolver raises an error on one of the
      collisions it is handed. */
  lemma {:induction false} FailsIffResolverFails<E>(d1: map<string, JVal>, d2: map<string, JVal>,
                                                    resolver: (JVal, JVal) -> Result<JVal, E>)
    ensures !Succeeds(d1, d2, resolver) <==> exists e :: ResolverError(d1, d2, resolver, e)
    decreases Obj(d2)
  {
    if !Succeeds(d1, d2, resolver) {
      var k :| k in d2 && k in d1 &&
        !(if d1[k].Obj? && d2[k].Obj? then Succeeds(d1[k].fields, d2[k].fields, resolver)
          else resolver(d1[k], d2[k]).Success?);
      if d1[k].Obj? && d2[k].Obj? {
        FailsIffResolverFails(d1[k].fields, d2[k].fields, resolver);
        var e :| ResolverError(d1[k].fields, d2[k].fields, resolver, e);
        assert ResolverError(d1, d2, resolver, e);
      } else {
        assert ResolverError(d1, d2, resolver, resolver(d1[k], d2[k]).error);
      }
    } else {
      forall e | ResolverError(d1, d2, resolver, e)
        ensures false
      {
        var k :| k in d2 && k in d1 &&
          if d1[k].Obj? && d2[k].Obj? then ResolverError(d1[k].fields, d2[k].fields, resolver, e)
          else resolver(d1[k], d2[k]) == Failure(e);
        if d1[k].Obj? && d2[k].Obj? {
          assert ResolverError(d1[k].fields, d2[k].fields, resolver, e);
          FailsIffResolverFails(d1[k].fields, d2[k].fields, resolver);
          assert !Succeeds(d1[k].fields, d2[k].fields, resolver);
          assert Succeeds(d1[k].fields, d2[k].fields, resolver);
        }
      }
    }
  }

  /** The resolver `{ $1 }` never fails, and every value of the overlay ends
      up in the result, at every depth, as the doc comment of `merge` says;
      keys of the base alone are kept. */
  lemma {:induction false} OverlayWinsMerge<E>(d1: map<string, JVal>, d2: map<string, JVal>)
    ensures Succeeds(d1, d2, OverlayWins<E>)
    ensures Dominates(Merged(d1, d2, OverlayWins<E>), d2)
    ensures forall k :: k in d1 && k !in d2 ==> Merged(d1, d2, OverlayWins<E>)[k] == d1[k]
    decreases Obj(d2)
  {
    forall k | k in d2 && k in d1 && d1[k].Obj? && d2[k].Obj?
      ensures Succeeds(d1[k].fields, d2[k].fields, OverlayWins<E>)
      ensures Dominates(Merged(d1[k].fields, d2[k].fields, OverlayWins<E>), d2[k].fields)
    {
      OverlayWinsMerge<E>(d1[k].fields, d2[k].fields);
    }
    assert Succeeds(d1, d2, OverlayWins<E>);
    var m := Merged(d1, d2, OverlayWins<E>);
    forall k | k in d2 && d2[k].Obj?
      ensures m[k].Obj? && Dominates(m[k].fields, d2[k].fields)
    {
      if !(k in d1 && d1[k].Obj?) {
        DominatesSelf(d2[k].fields);
      }
    }
  }

  /** The resolver `{ $0 }` never fails, and every value of the base survives
      the merge, at every depth. */
  lemma {:induction false} BaseWinsMerge<E>(d1: map<string, JVal>, d2: map<string, JVal>)
    ensures Succeeds(d1, d2, BaseWins<E>)
    ensures Dominates(Merged(d1, d2, BaseWins<E>), d1)
    decreases Obj(d2)
  {
    forall k | k in d2 && k in d1 && d1[k].Obj? && d2[k].Obj?
      ensures Succeeds(d1[k].fields, d2[k].fields, BaseWins<E>)
      ensures Dominates(Merged(d1[k].fields, d2[k].fields, BaseWins<E>), d1[k].fields)
    {
      BaseWinsMerge<E>(d1[k].fields, d2[k].fields);
    }
    assert Succeeds(d1, d2, BaseWins<E>);
    var m := Merged(d1, d2, BaseWins<E>);
    forall k | k in d1 && d1[k].Obj?
      ensures m[k].Obj? && Dominates(m[k].fields, d1[k].fields)
    {
      if !(k in d2 && d2[k].Obj?) {
        DominatesSelf(d1[k].fields);
      }
    }
  }

  /** Nested objects merge field by field: `{keyboard: {a: 1, b: 2}}` under
      `{keyboard: {b: 3, c: 4}}` with the overlay winning gives
      `{keyboard: {a: 1, b: 3, c: 4}}`. */
  lemma NestedMergeExample<E>()
    ensures var d1 := map["keyboard" := Obj(map["a" := Num(1.0), "b" := Num(2.0)])];
            var d2 := map["keyboard" := Obj(map["b" := Num(3.0), "c" := Num(4.0)])];
            Succeeds(d1, d2, OverlayWins<E>) &&
            Merged(d1, d2, OverlayWins<E>) ==
              map["keyboard" := Obj(map["a" := Num(1.0), "b" := Num(3.0), "c" := Num(4.0)])]
  {
    var i1 := map["a" := Num(1.0), "b" := Num(2.0)];
    var i2 := map["b" := Num(3.0), "c" := Num(4.0)];
    var d1 := map["keyboard" := Obj(i1)];
    var d2 := map["keyboard" := Obj(i2)];
    assert Succeeds(i1, i2, OverlayWins<E>);
    var inner := Merged(i1, i2, OverlayWins<E>);
    assert inner.Keys == {"a", "b", "c"};
    assert inner == map["a" := Num(1.0), "b" := Num(3.0), "c" := Num(4.0)];
    assert Succeeds(d1, d2, OverlayWins<E>);
    assert Merged(d1, d2, OverlayWins<E>).Keys == {"keyboard"};
  }

  /** An object meeting a scalar is a collision for the resolver, not a
      recursive merge: `{x: {nested: true}}` under `{x: 5}` stores
      `resolver({nested: true}, 5)`. */
  lemma MismatchExample<E>(resolver: (JVal, JVal) -> Result<JVal, E>)
    ensures var d1 := map["x" := Obj(map["nested" := Bool(true)])];
            var d2 := map["x" := Num(5.0)];
            (Succeeds(d1, d2, resolver) <==> resolver(d1["x"], d2["x"]).Success?) &&
            (Succeeds(d1, d2, resolver) ==>
               Merged(d1, d2, resolver) == map["x" := resolver(d1["x"], d2["x"]).value])
  {
    var d1 := map["x" := Obj(map["nested" := Bool(true)])];
    var d2 := map["x" := Num(5.0)];
    if Succeeds(d1, d2, resolver) {
      assert Merged(d1, d2, resolver).Keys == {"x"};
    }
  }
}
