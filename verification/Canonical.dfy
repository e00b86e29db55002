/** The encoder writes what a value stands for: equal meanings have equal bytes
    and different meanings have different bytes. */
module Canonical {
  import opened Options
  import opened Orders
  import opened Identifiers
  import opened Encoding
  import opened Items

  /** Integers are in the range of their type. */
  ghost predicate Typed(v: Value) {
    match v
    case Present(value) => Typed(value)
    case Unsigned(width, n) => n < Power(Size(width))
    case Signed(width, i) => 0 - Power(Size(width)) <= 2 * i < Power(Size(width))
    case List(items) => forall i | 0 <= i < |items| :: Typed(items[i])
    case Dict(fields) => forall i | 0 <= i < |fields| :: TypedField(fields[i])
    case Variant(_, payload) => Typed(payload)
    case _ => true
  }

  ghost predicate TypedField(field: Field) {
    Typed(field.key) && Typed(field.value)
  }

  /** A value is refused if it stands for nothing, and else is written as its
      item, unless some length does not fit. */
  ghost predicate Agrees(encoded: Encoded, meaning: Option<Item>) {
    match (encoded, meaning)
    case (Done(bytes), Some(item)) => bytes == Write(item) && Sized(item)
    case (Done(_), None) => false
    case (Failed(error), Some(_)) => error == LengthOverflow
    case (Failed(_), None) => true
  }

  ghost predicate AllAgree(encoded: Encoded, meaning: Option<seq<Item>>) {
    match (encoded, meaning)
    case (Done(bytes), Some(items)) => bytes == WriteAll(items) && forall i | 0 <= i < |items| :: Sized(items[i])
    case (Done(_), None) => false
    case (Failed(error), Some(_)) => error == LengthOverflow
    case (Failed(_), None) => true
  }

  ghost predicate Twins(pairs: seq<Pair>) {
    exists i, j :: 0 <= i < j < |pairs| && pairs[i].key == pairs[j].key
  }

  ghost predicate Filed(p: Pair, m: map<Bytes, Item>) {
    p.key in m && p.value == Write(m[p.key]) && KeyOf(p.key) && Sized(m[p.key])
  }

  ghost predicate Matches(pairs: seq<Pair>, m: map<Bytes, Item>) {
    && !Twins(pairs) && |pairs| == |m|
    && (forall i | 0 <= i < |pairs| :: Filed(pairs[i], m))
    && forall k | k in m :: Keyed(pairs, k)
  }

  ghost predicate Keyed(pairs: seq<Pair>, k: Bytes) {
    exists i :: 0 <= i < |pairs| && pairs[i].key == k
  }

  ghost predicate FieldsAgree(paired: Paired, meaning: Option<map<Bytes, Item>>) {
    match (paired, meaning)
    case (Pairs(pairs), Some(m)) => Matches(pairs, m)
    case (Pairs(pairs), None) => Twins(pairs)
    case (NoPairs(error), Some(_)) => error == LengthOverflow
    case (NoPairs(_), None) => true
  }

  // ---------- one value ----------

  lemma KeysAreScalars(item: Item)
    ensures IsKey(Write(item)) <==> Scalar(item)
  {
    StartsWithTag(item, []);
    assert Write(item) + [] == Write(item);
    hide Write, Big, BigSigned;
  }

  lemma {:induction false} EncodeMeans(v: Value)
    requires Typed(v)
    ensures Agrees(Encode(v), Meaning(v))
    decreases v, 1
  {
    hide Write, Sized, Big, BigSigned, Power, WriteAll, KeysInOrder;
    match v
    case Present(value) =>
      EncodeMeans(value);
      PresentMeans(v);
    case List(items) =>
      AllMeans(items);
      ListMeans(items);
    case Dict(fields) =>
      FieldsMean(fields);
      DictMeans(fields);
    case Variant(name, payload) =>
      EncodeMeans(payload);
      VariantMeans(v);
    case _ => LeafMeans(v);
  }

  lemma PresentMeans(v: Value)
    requires v.Present? && Agrees(Encode(v.value), Meaning(v.value))
    ensures Agrees(Encode(v), Meaning(v))
  {
  }

  lemma VariantMeans(v: Value)
    requires v.Variant? && Agrees(Encode(v.payload), Meaning(v.payload))
    ensures Agrees(Encode(v), Meaning(v))
  {
    hide Big;
  }

  lemma ListMeans(items: seq<Value>)
    requires AllAgree(EncodeAll(items), MeaningAll(items))
    ensures Agrees(Encode(List(items)), Meaning(List(items)))
  {
    MeaningCounts(items);
    hide Big, WriteAll, EncodeAll, MeaningAll;
  }

  lemma {:induction false} MeaningCounts(items: seq<Value>)
    ensures MeaningAll(items).Some? ==> |MeaningAll(items).value| == |items|
  {
    if items != [] {
      MeaningCounts(items[..|items| - 1]);
    }
  }

  lemma LeafMeans(v: Value)
    requires Typed(v) && !v.Present? && !v.List? && !v.Dict? && !v.Variant?
    ensures Agrees(Encode(v), Meaning(v))
  {
    hide Big, BigSigned, Power, NumberValue, Write, Sized, Agrees, Typed, Encode, Meaning;
    match v
    case JsonNumber(text) =>
      NumberSized(text);
      NumberMeans(text);
    case Unsigned(_, _) => ScalarMeans(v);
    case Signed(_, _) => ScalarMeans(v);
    case Text(_) => ScalarMeans(v);
    case _ => PlainMeans(v);
  }

  lemma NumberMeans(text: string)
    requires var v := NumberValue(text);
      && (v.Unsigned? ==> v.width == W64 && v.n < Power(8))
      && (v.Signed? ==> v.width == W64 && 0 - Power(8) <= 2 * v.i < Power(8))
      && (v.Unsigned? || v.Signed? || v.Float?)
    ensures Agrees(Encode(JsonNumber(text)), Meaning(JsonNumber(text)))
  {
    hide Big, BigSigned, Power, NumberValue;
  }

  lemma ScalarMeans(v: Value)
    requires Typed(v) && (v.Unsigned? || v.Signed? || v.Text?)
    ensures Agrees(Encode(v), Meaning(v))
  {
    hide Big, BigSigned, Power;
  }

  lemma PlainMeans(v: Value)
    requires v.Unit? || v.Absent? || v.Flag? || v.Blob? || v.Float? || v.JsonText?
    ensures Agrees(Encode(v), Meaning(v))
  {
    hide Big;
  }

  lemma NumberSized(text: string)
    ensures var v := NumberValue(text);
      && (v.Unsigned? ==> v.width == W64 && v.n < Power(8))
      && (v.Signed? ==> v.width == W64 && 0 - Power(8) <= 2 * v.i < Power(8))
      && (v.Unsigned? || v.Signed? || v.Float?)
  {
    EightBytes();
    hide Power, Plain, ParseWhole;
  }

  lemma {:induction false} AllMeans(items: seq<Value>)
    requires forall i | 0 <= i < |items| :: Typed(items[i])
    ensures AllAgree(EncodeAll(items), MeaningAll(items))
    decreases items, 0
  {
    hide Write, Sized, Typed;
    if items != [] {
      AllMeans(items[..|items| - 1]);
      EncodeMeans(items[|items| - 1]);
      var front, last := MeaningAll(items[..|items| - 1]), Meaning(items[|items| - 1]);
      if front.Some? && last.Some? {
        WrittenMore(front.value, last.value);
      }
      hide Encode, Meaning;
    }
  }

  lemma {:induction false} WrittenMore(items: seq<Item>, last: Item)
    ensures WriteAll(items + [last]) == WriteAll(items) + Write(last)
  {
    hide Write;
    if items == [] {
      assert [] + [last] == [last] && [last][1..] == [];
      assert WriteAll([last]) == Write(last) + WriteAll([]);
    } else {
      assert (items + [last])[1..] == items[1..] + [last];
      WrittenMore(items[1..], last);
    }
  }

  // ---------- maps ----------

  lemma {:induction false} FieldsMean(fields: seq<Field>)
    requires forall i | 0 <= i < |fields| :: TypedField(fields[i])
    ensures FieldsAgree(EncodeFields(fields), MeaningFields(fields))
    decreases fields, 0
  {
    hide *;
    if fields == [] {
      NoFields();
    } else {
      var front, last := fields[..|fields| - 1], fields[|fields| - 1];
      FieldsMean(front);
      FieldMeans(last);
      FieldsAre(fields);
      if EncodeFields(front).Pairs? {
        AddedField(EncodeFields(front).pairs, MeaningFields(front), last);
      }
      AgreesOn(fields);
    }
  }

  lemma NoFields()
    ensures FieldsAgree(EncodeFields([]), MeaningFields([]))
  {
  }

  ghost predicate FieldAgrees(field: Field) {
    Agrees(Encode(field.key), Meaning(field.key)) && Agrees(Encode(field.value), Meaning(field.value))
  }

  lemma {:induction false} FieldMeans(field: Field)
    requires TypedField(field)
    ensures FieldAgrees(field)
    decreases field, 2
  {
    hide Typed, Agrees;
    EncodeMeans(field.key);
    EncodeMeans(field.value);
  }

  lemma FieldsAre(fields: seq<Field>)
    requires fields != []
    ensures var front, last := fields[..|fields| - 1], fields[|fields| - 1];
      && EncodeFields(fields)
         == (if EncodeFields(front).NoPairs? then EncodeFields(front) else EncodeField(EncodeFields(front).pairs, last))
      && MeaningFields(fields)
         == (if MeaningFields(front).None? then None else MeaningField(MeaningFields(front).value, last))
  {
    hide EncodeField, MeaningField;
  }

  lemma AgreesOn(fields: seq<Field>)
    requires fields != []
    requires var front, last := fields[..|fields| - 1], fields[|fields| - 1];
      && FieldsAgree(EncodeFields(front), MeaningFields(front))
      && EncodeFields(fields)
         == (if EncodeFields(front).NoPairs? then EncodeFields(front) else EncodeField(EncodeFields(front).pairs, last))
      && MeaningFields(fields)
         == (if MeaningFields(front).None? then None else MeaningField(MeaningFields(front).value, last))
      && (EncodeFields(front).Pairs? ==>
            FieldsAgree(EncodeField(EncodeFields(front).pairs, last),
                        if MeaningFields(front).None? then None else MeaningField(MeaningFields(front).value, last)))
    ensures FieldsAgree(EncodeFields(fields), MeaningFields(fields))
  {
    hide EncodeField, MeaningField, EncodeFields, MeaningFields, Matches, Twins;
  }

  lemma AddedField(pairs: seq<Pair>, meaning: Option<map<Bytes, Item>>, field: Field)
    requires FieldsAgree(Pairs(pairs), meaning) && FieldAgrees(field)
    ensures FieldsAgree(EncodeField(pairs, field), if meaning.None? then None else MeaningField(meaning.value, field))
  {
    hide *;
    FieldParts(field);
    PairsParts(pairs, meaning);
    EncodeFieldIs(pairs, field);
    if Meaning(field.key).Some? {
      KeysAreScalars(Meaning(field.key).value);
      ScalarWritten(Meaning(field.key).value);
    }
    if meaning.Some? {
      MeaningFieldIs(meaning.value, field);
    }
    var paired := EncodeField(pairs, field);
    var result := if meaning.None? then None else MeaningField(meaning.value, field);
    if paired.Pairs? {
      var pair := Pair(Encode(field.key).bytes, Encode(field.value).bytes);
      if meaning.None? {
        TwinsGrow(pairs, pair);
        TwinsAgree(paired.pairs);
      } else if pair.key in meaning.value {
        TwinFound(pairs, meaning.value, pair);
        TwinsAgree(paired.pairs);
      } else {
        KeyOfScalar(Meaning(field.key).value);
        MatchesMore(pairs, meaning.value, pair, Meaning(field.value).value);
        MatchesAgree(paired.pairs, result.value);
      }
    } else {
      RefusedAgrees(paired.error, result);
    }
  }

  lemma FieldParts(field: Field)
    requires FieldAgrees(field)
    ensures Agreed(Encode(field.key), Meaning(field.key)) && Agreed(Encode(field.value), Meaning(field.value))
    ensures Meaning(field.key).Some? && Encode(field.key).Failed? ==> Encode(field.key).error == LengthOverflow
    ensures Meaning(field.value).Some? && Encode(field.value).Failed? ==> Encode(field.value).error == LengthOverflow
    ensures Encode(field.key).Done? ==>
      && Meaning(field.key).Some?
      && Encode(field.key).bytes == Write(Meaning(field.key).value) && Sized(Meaning(field.key).value)
    ensures Encode(field.value).Done? ==>
      && Meaning(field.value).Some?
      && Encode(field.value).bytes == Write(Meaning(field.value).value) && Sized(Meaning(field.value).value)
  {
    hide Write, Sized, Encode, Meaning;
  }

  ghost predicate Agreed(encoded: Encoded, meaning: Option<Item>) {
    meaning.None? ==> encoded.Failed?
  }

  lemma PairsParts(pairs: seq<Pair>, meaning: Option<map<Bytes, Item>>)
    requires FieldsAgree(Pairs(pairs), meaning)
    ensures meaning.None? ==> Twins(pairs)
    ensures meaning.Some? ==> Matches(pairs, meaning.value)
  {
    hide Twins, Matches;
  }

  lemma EncodeFieldIs(pairs: seq<Pair>, field: Field)
    ensures var key, value := Encode(field.key), Encode(field.value);
      EncodeField(pairs, field)
        == (if key.Failed? then NoPairs(key.error)
            else if !IsKey(key.bytes) then NoPairs(KeyRefused)
            else if value.Failed? then NoPairs(value.error)
            else Pairs(pairs + [Pair(key.bytes, value.bytes)]))
  {
    hide Encode, IsKey;
  }

  lemma MeaningFieldIs(m: map<Bytes, Item>, field: Field)
    ensures var key, value := Meaning(field.key), Meaning(field.value);
      MeaningField(m, field)
        == (if key.None? || !Scalar(key.value) || value.None? || WriteScalar(key.value) in m then None
            else Some(m[WriteScalar(key.value) := value.value]))
  {
    hide Meaning, Scalar, WriteScalar;
  }

  lemma ScalarWritten(item: Item)
    ensures Scalar(item) ==> Write(item) == WriteScalar(item)
  {
    hide WriteScalar;
  }

  lemma KeyOfScalar(item: Item)
    ensures Sized(item) && Scalar(item) ==> KeyOf(WriteScalar(item))
  {
    hide WriteScalar, SizedScalar;
  }

  lemma TwinsGrow(pairs: seq<Pair>, pair: Pair)
    requires Twins(pairs)
    ensures Twins(pairs + [pair])
  {
    var i, j :| 0 <= i < j < |pairs| && pairs[i].key == pairs[j].key;
    assert (pairs + [pair])[i].key == (pairs + [pair])[j].key;
  }

  lemma TwinFound(pairs: seq<Pair>, m: map<Bytes, Item>, pair: Pair)
    requires Matches(pairs, m) && pair.key in m
    ensures Twins(pairs + [pair])
  {
    hide Filed;
    assert Keyed(pairs, pair.key);
    var i :| 0 <= i < |pairs| && pairs[i].key == pair.key;
    assert (pairs + [pair])[i].key == (pairs + [pair])[|pairs|].key;
  }

  lemma TwinsAgree(pairs: seq<Pair>)
    requires Twins(pairs)
    ensures FieldsAgree(Pairs(pairs), None)
  {
    hide Twins;
  }

  lemma MatchesAgree(pairs: seq<Pair>, m: map<Bytes, Item>)
    requires Matches(pairs, m)
    ensures FieldsAgree(Pairs(pairs), Some(m))
  {
    hide Matches;
  }

  lemma RefusedAgrees(error: EncodeError, meaning: Option<map<Bytes, Item>>)
    requires meaning.Some? ==> error == LengthOverflow
    ensures FieldsAgree(NoPairs(error), meaning)
  {
  }

  lemma MatchesMore(pairs: seq<Pair>, m: map<Bytes, Item>, pair: Pair, item: Item)
    requires Matches(pairs, m) && pair.key !in m && pair.value == Write(item) && Sized(item) && KeyOf(pair.key)
    ensures Matches(pairs + [pair], m[pair.key := item])
  {
    hide Write, Sized, KeyOf;
    var more, grown := pairs + [pair], m[pair.key := item];
    assert !Twins(more) by {
      forall i, j | 0 <= i < j < |more| ensures more[i].key != more[j].key {
        assert Filed(pairs[i], m);
      }
    }
    forall i | 0 <= i < |more| ensures Filed(more[i], grown) {
      assert i < |pairs| ==> Filed(pairs[i], m);
    }
    forall k | k in grown ensures Keyed(more, k) {
      if k in m {
        assert Keyed(pairs, k);
        var i :| 0 <= i < |pairs| && pairs[i].key == k;
        assert more[i].key == k;
      } else {
        assert more[|pairs|].key == k;
      }
    }
  }

  lemma DictMeans(fields: seq<Field>)
    requires FieldsAgree(EncodeFields(fields), MeaningFields(fields))
    ensures Agrees(Encode(Dict(fields)), Meaning(Dict(fields)))
  {
    hide *;
    var paired, meaning := EncodeFields(fields), MeaningFields(fields);
    DictIsMap(fields);
    if paired.Pairs? {
      PairsParts(paired.pairs, meaning);
      if meaning.None? {
        TwinsRepeat(paired.pairs);
      } else {
        MapWritten(paired.pairs, meaning.value);
      }
    } else {
      RefusedParts(paired.error, meaning);
    }
    DictAgrees(fields);
  }

  lemma DictIsMap(fields: seq<Field>)
    ensures Encode(Dict(fields))
      == (if EncodeFields(fields).NoPairs? then Failed(EncodeFields(fields).error) else EncodeMap(EncodeFields(fields).pairs))
    ensures Meaning(Dict(fields)) == (if MeaningFields(fields).None? then None else Some(MapItem(MeaningFields(fields).value)))
  {
    hide EncodeFields, MeaningFields, EncodeMap;
  }

  lemma RefusedParts(error: EncodeError, meaning: Option<map<Bytes, Item>>)
    requires FieldsAgree(NoPairs(error), meaning)
    ensures meaning.Some? ==> error == LengthOverflow
  {
  }

  lemma DictAgrees(fields: seq<Field>)
    requires Encode(Dict(fields)).Done? ==>
      && Meaning(Dict(fields)).Some? && Encode(Dict(fields)).bytes == Write(Meaning(Dict(fields)).value)
      && Sized(Meaning(Dict(fields)).value)
    requires Encode(Dict(fields)).Failed? && Meaning(Dict(fields)).Some? ==> Encode(Dict(fields)).error == LengthOverflow
    ensures Agrees(Encode(Dict(fields)), Meaning(Dict(fields)))
  {
    hide Encode, Meaning, Write, Sized;
  }

  /** Two entries of one key end up next to each other, and only such entries
      do: sorting finds every repeat. */
  lemma TwinsRepeat(pairs: seq<Pair>)
    requires Twins(pairs)
    ensures EncodeMap(pairs) == Failed(KeyRepeated)
  {
    var sorted := SortPairs(pairs);
    if !Repeats(sorted) {
      SortedKeysAscend(sorted);
      hide SortPairs, KeyBefore, ByteLess;
      var i, j :| 0 <= i < j < |pairs| && pairs[i].key == pairs[j].key;
      TwinsStay(pairs, sorted, i, j);
      assert false;
    }
  }

  lemma TwinsStay(pairs: seq<Pair>, sorted: seq<Pair>, i: nat, j: nat)
    requires multiset(pairs) == multiset(sorted) && i < j < |pairs| && pairs[i].key == pairs[j].key
    ensures exists a, b :: 0 <= a < b < |sorted| && sorted[a].key == sorted[b].key
  {
    SameMembers(pairs, sorted);
    if pairs[i] == pairs[j] {
      SameMembers(sorted, pairs);
      assert !Distinct(sorted);
      var a, b :| 0 <= a < b < |sorted| && sorted[a] == sorted[b];
      assert sorted[a].key == sorted[b].key;
    } else {
      assert pairs[i] in Elements(sorted) && pairs[j] in Elements(sorted);
      var a :| 0 <= a < |sorted| && sorted[a] == pairs[i];
      var b :| 0 <= b < |sorted| && sorted[b] == pairs[j];
      assert sorted[a].key == sorted[b].key && a != b;
      assert a < b || b < a;
    }
  }

  lemma SortedKeysAscend(sorted: seq<Pair>)
    requires Sorted(KeyBefore, sorted) && !Repeats(sorted)
    ensures forall i, j :: 0 <= i < j < |sorted| ==> ByteLess(sorted[i].key, sorted[j].key) && sorted[i].key != sorted[j].key
  {
    hide ByteLess;
    forall i, j | 0 <= i < j < |sorted| ensures ByteLess(sorted[i].key, sorted[j].key) && sorted[i].key != sorted[j].key {
      StepsAscend(sorted, i, j);
      BytesIrreflexive(sorted[i].key);
    }
  }

  lemma {:induction false} StepsAscend(sorted: seq<Pair>, i: nat, j: nat)
    requires Sorted(KeyBefore, sorted) && !Repeats(sorted) && i < j < |sorted|
    ensures ByteLess(sorted[i].key, sorted[j].key)
    decreases j
  {
    hide ByteLess;
    assert !KeyBefore(sorted[j], sorted[j - 1]);
    assert sorted[j - 1].key != sorted[j].key;
    BytesComparable(sorted[j - 1].key, sorted[j].key);
    if i < j - 1 {
      StepsAscend(sorted, i, j - 1);
      BytesTransitive(sorted[i].key, sorted[j - 1].key, sorted[j].key);
    }
  }

  function KeysIn(pairs: seq<Pair>): (r: seq<Bytes>)
    ensures |r| == |pairs| && forall i | 0 <= i < |r| :: r[i] == pairs[i].key
  {
    seq(|pairs|, i requires 0 <= i < |pairs| => pairs[i].key)
  }

  lemma MapWritten(pairs: seq<Pair>, m: map<Bytes, Item>)
    requires Matches(pairs, m)
    ensures var encoded := EncodeMap(pairs);
      if |m| <= U64_MAX then encoded == Done(Write(MapItem(m))) && Sized(MapItem(m)) else encoded == Failed(LengthOverflow)
  {
    hide *;
    var sorted := SortPairs(pairs);
    MatchesSorted(pairs, m);
    MatchesParts(sorted, m);
    NoRepeats(sorted);
    SortedKeysAscend(sorted);
    InOrder(sorted, m);
    JoinedWrites(sorted, MapItem(m));
    MapIs(pairs, m);
    MapSized(sorted, m);
  }

  lemma MatchesSorted(pairs: seq<Pair>, m: map<Bytes, Item>)
    requires Matches(pairs, m)
    ensures Matches(SortPairs(pairs), m) && Sorted(KeyBefore, SortPairs(pairs)) && |SortPairs(pairs)| == |m|
  {
    hide Filed, KeyBefore;
    var sorted := SortPairs(pairs);
    hide SortPairs;
    SameMembers(pairs, sorted);
    forall i | 0 <= i < |sorted| ensures Filed(sorted[i], m) {
      assert sorted[i] in Elements(pairs);
    }
    forall k | k in m ensures Keyed(sorted, k) {
      assert Keyed(pairs, k);
      var i :| 0 <= i < |pairs| && pairs[i].key == k;
      assert pairs[i] in Elements(sorted);
      var j :| 0 <= j < |sorted| && sorted[j] == pairs[i];
      assert sorted[j].key == k;
    }
    if Twins(sorted) {
      var i, j :| 0 <= i < j < |sorted| && sorted[i].key == sorted[j].key;
      TwinsStay(sorted, pairs, i, j);
      assert false;
    }
  }

  lemma MatchesParts(pairs: seq<Pair>, m: map<Bytes, Item>)
    requires Matches(pairs, m)
    ensures !Twins(pairs)
    ensures forall i | 0 <= i < |pairs| :: Filed(pairs[i], m)
    ensures forall k | k in m :: Keyed(pairs, k)
  {
    hide Filed, Keyed, Twins;
  }

  lemma NoRepeats(pairs: seq<Pair>)
    requires !Twins(pairs)
    ensures !Repeats(pairs)
  {
  }

  lemma InOrder(sorted: seq<Pair>, m: map<Bytes, Item>)
    requires forall i, j :: 0 <= i < j < |sorted| ==> ByteLess(sorted[i].key, sorted[j].key) && sorted[i].key != sorted[j].key
    requires forall i | 0 <= i < |sorted| :: Filed(sorted[i], m)
    requires forall k | k in m :: Keyed(sorted, k)
    ensures KeysIn(sorted) == KeysInOrder(m.Keys)
  {
    hide ByteLess, Write, Sized, KeyOf, KeysInOrder;
    BytesTotal();
    var keys := KeysIn(sorted);
    forall k ensures k in Elements(keys) <==> k in m.Keys {
      if k in m {
        assert Keyed(sorted, k);
        var i :| 0 <= i < |sorted| && sorted[i].key == k;
        assert keys[i] == k;
      }
    }
    AscendsIsSorted(ByteLess, keys);
    AscendsOnce(ByteLess, keys, KeysInOrder(m.Keys));
  }

  lemma {:induction false} JoinedWrites(pairs: seq<Pair>, item: Item)
    requires item.MapItem? && forall i | 0 <= i < |pairs| :: Filed(pairs[i], item.fields)
    ensures (forall k | k in KeysIn(pairs) :: k in item.fields) && Joined(pairs) == WriteEntries(item, KeysIn(pairs))
  {
    hide Write, Sized, KeyOf;
    if pairs == [] {
    } else {
      var front, last := pairs[..|pairs| - 1], pairs[|pairs| - 1];
      JoinedWrites(front, item);
      assert Filed(last, item.fields);
      assert KeysIn(pairs) == KeysIn(front) + [last.key];
      EntriesMore(item, KeysIn(front), last.key);
    }
  }

  lemma {:induction false} EntriesMore(item: Item, keys: seq<Bytes>, key: Bytes)
    requires item.MapItem? && key in item.fields && forall k | k in keys :: k in item.fields
    ensures WriteEntries(item, keys + [key]) == WriteEntries(item, keys) + key + Write(item.fields[key])
  {
    hide Write;
    if keys == [] {
      assert [] + [key] == [key] && [key][1..] == [];
      assert WriteEntries(item, [key]) == key + Write(item.fields[key]) + WriteEntries(item, []);
    } else {
      assert (keys + [key])[1..] == keys[1..] + [key];
      EntriesMore(item, keys[1..], key);
    }
  }

  lemma MapIs(pairs: seq<Pair>, m: map<Bytes, Item>)
    requires !Repeats(SortPairs(pairs)) && |SortPairs(pairs)| == |m|
    requires Joined(SortPairs(pairs)) == WriteEntries(MapItem(m), KeysInOrder(m.Keys))
    ensures EncodeMap(pairs) == if |m| <= U64_MAX then Done(Write(MapItem(m))) else Failed(LengthOverflow)
  {
    hide SortPairs, Repeats, Joined, WriteEntries, KeysInOrder, Big;
  }

  lemma MapSized(sorted: seq<Pair>, m: map<Bytes, Item>)
    requires forall i | 0 <= i < |sorted| :: Filed(sorted[i], m)
    requires forall k | k in m :: Keyed(sorted, k)
    ensures |m| <= U64_MAX ==> Sized(MapItem(m))
  {
    hide Write, KeyOf;
    forall k | k in m ensures KeyOf(k) && Sized(m[k]) {
      assert Keyed(sorted, k);
      var i :| 0 <= i < |sorted| && sorted[i].key == k;
      assert Filed(sorted[i], m);
    }
  }

  // ---------- the main results ----------

  /** Equal bytes mean equal values, up to the order maps are emitted in. */
  lemma BytesMeanValues(v: Value, w: Value)
    requires Typed(v) && Typed(w) && Encode(v).Done? && Encode(w).Done?
    ensures Meaning(v).Some? && Meaning(w).Some?
    ensures Encode(v).bytes == Encode(w).bytes <==> Meaning(v) == Meaning(w)
  {
    EncodeMeans(v);
    EncodeMeans(w);
    hide Typed, Encode, Meaning, Write, Sized;
    if Encode(v).bytes == Encode(w).bytes {
      WrittenOnce(Meaning(v).value, Meaning(w).value, [], []);
    }
  }

  /** No encoding is a proper prefix of another. */
  lemma PrefixFree(v: Value, w: Value)
    requires Typed(v) && Typed(w) && Encode(v).Done? && Encode(w).Done?
    requires Encode(v).bytes <= Encode(w).bytes
    ensures Encode(v).bytes == Encode(w).bytes && Meaning(v) == Meaning(w)
  {
    EncodeMeans(v);
    EncodeMeans(w);
    hide Typed, Encode, Meaning, Write, Sized;
    var rest := Encode(w).bytes[|Encode(v).bytes|..];
    assert Encode(w).bytes + [] == Encode(v).bytes + rest;
    WrittenOnce(Meaning(v).value, Meaning(w).value, rest, []);
  }

  /** A map that emits a key twice stands for nothing, wherever the two are. */
  lemma RepeatedKeyRefused(fields: seq<Field>, i: nat, j: nat)
    requires i < j < |fields| && Meaning(fields[i].key) == Meaning(fields[j].key)
    ensures Meaning(Dict(fields)).None?
  {
    hide Meaning;
    if MeaningFields(fields).Some? {
      var front := fields[..j];
      assert front[i] == fields[i];
      FieldsHold(fields, j);
      FieldsHold(front, i);
      assert false;
    }
    assert MeaningFields(fields).None?;
    DictIsMap(fields);
  }

  /** Every field of a meaningful map was new when it was emitted. */
  lemma {:induction false} FieldsHold(fields: seq<Field>, j: nat)
    requires j < |fields| && MeaningFields(fields).Some?
    ensures MeaningFields(fields[..j]).Some?
    ensures Meaning(fields[j].key).Some? && Scalar(Meaning(fields[j].key).value) && Meaning(fields[j].value).Some?
    ensures WriteScalar(Meaning(fields[j].key).value) !in MeaningFields(fields[..j]).value
    ensures var m := MeaningFields(fields).value;
      var k := WriteScalar(Meaning(fields[j].key).value);
      k in m && m[k] == Meaning(fields[j].value).value
    decreases |fields|
  {
    hide Meaning, WriteScalar, Scalar;
    var front := fields[..|fields| - 1];
    if j == |fields| - 1 {
    } else {
      assert front[..j] == fields[..j] && front[j] == fields[j];
      FieldsHold(front, j);
    }
  }

  /** Emitting the entries of a map in another order changes nothing. */
  lemma {:induction false} EmissionOrder(fields: seq<Field>, other: seq<Field>)
    requires multiset(fields) == multiset(other) && MeaningFields(fields).Some?
    ensures MeaningFields(other) == MeaningFields(fields)
    decreases |fields|
  {
    SameMembers(fields, other);
    if fields != [] {
      hide Meaning, WriteScalar, Scalar;
      var last := fields[|fields| - 1];
      assert fields == fields[..|fields| - 1] + [last];
      assert last in Elements(other);
      var j :| 0 <= j < |other| && other[j] == last;
      var rest := other[..j] + other[j + 1..];
      assert other == other[..j] + [last] + other[j + 1..];
      assert multiset(rest) == multiset(other) - multiset{last};
      EmissionOrder(fields[..|fields| - 1], rest);
      MovedLast(other[..j], last, other[j + 1..]);
    }
  }

  /** A field can move to the end. */
  lemma {:induction false} MovedLast(front: seq<Field>, field: Field, back: seq<Field>)
    requires MeaningFields(front + back).Some? && MeaningField(MeaningFields(front + back).value, field).Some?
    ensures MeaningFields(front + [field] + back) == MeaningField(MeaningFields(front + back).value, field)
    decreases |back|
  {
    hide Meaning, WriteScalar, Scalar;
    if back == [] {
      assert front + back == front && front + [field] + back == front + [field];
      assert (front + [field])[..|front|] == front;
    } else {
      var butLast, last := back[..|back| - 1], back[|back| - 1];
      assert (front + back)[..|front + back| - 1] == front + butLast;
      assert (front + [field] + back)[..|front + [field] + back| - 1] == front + [field] + butLast;
      LastField(front + back);
      var m := MeaningFields(front + butLast).value;
      FieldsCommute(m, field, last);
      MovedLast(front, field, butLast);
      LastField(front + [field] + back);
    }
  }

  lemma FieldsCommute(m: map<Bytes, Item>, a: Field, b: Field)
    requires MeaningField(m, b).Some? && MeaningField(MeaningField(m, b).value, a).Some?
    ensures MeaningField(m, a).Some?
    ensures MeaningField(MeaningField(m, a).value, b) == MeaningField(MeaningField(m, b).value, a)
  {
    hide Meaning, WriteScalar, Scalar;
    var j, k := WriteScalar(Meaning(a.key).value), WriteScalar(Meaning(b.key).value);
    assert j != k && j !in m && k !in m;
    var x, y := Meaning(a.value).value, Meaning(b.value).value;
    assert m[j := x][k := y] == m[k := y][j := x];
  }

  lemma LastField(fields: seq<Field>)
    requires fields != []
    ensures var front := MeaningFields(fields[..|fields| - 1]);
      MeaningFields(fields) == if front.None? then None else MeaningField(front.value, fields[|fields| - 1])
  {
    hide MeaningField;
  }
}
