/** The canonical tagged encoding: what a consumer value emits, and the one
    item it is written as. */
module Encoding {
  import opened Options
  import opened Orders
  import opened Texts
  import opened Identifiers

  type Byte = b: nat | b < 256

  type Bytes = seq<Byte>

  const UNIT: Byte := 0x00
  const NONE: Byte := 0x01
  const SOME: Byte := 0x02
  const FALSE: Byte := 0x03
  const TRUE: Byte := 0x04
  const U8: Byte := 0x10
  const I8: Byte := 0x18
  const STR: Byte := 0x40
  const BYTES: Byte := 0x41
  const SEQ: Byte := 0x50
  const MAP: Byte := 0x51
  const VARIANT: Byte := 0x60

  /** Integers of 1, 2, 4, 8 or 16 bytes; the tags of one sign are consecutive. */
  datatype Width = W8 | W16 | W32 | W64 | W128

  function Rank(w: Width): nat {
    match w case W8 => 0 case W16 => 1 case W32 => 2 case W64 => 3 case W128 => 4
  }

  function Size(w: Width): nat {
    match w case W8 => 1 case W16 => 2 case W32 => 4 case W64 => 8 case W128 => 16
  }

  /** What a value's serializer emits. Entries of a `Dict` come in any order; a
      struct is a `Dict` of its fields, a tuple a `List`, a unit variant its
      name, a newtype what it wraps. */
  datatype Value =
    | Unit
    | Absent
    | Present(value: Value)
    | Flag(on: bool)
    | Unsigned(width: Width, n: nat)
    | Signed(width: Width, i: int)
    | Text(utf8: Bytes)
    | Blob(bytes: Bytes)
    | List(items: seq<Value>)
    | Dict(fields: seq<Field>)
    | Variant(name: Bytes, payload: Value)
    | Float
    | JsonNumber(text: string)
    | JsonText

  datatype Field = Field(key: Value, value: Value)

  datatype EncodeError = FloatRefused | KeyRefused | KeyRepeated | LengthOverflow | RawJson

  datatype Encoded = Done(bytes: Bytes) | Failed(error: EncodeError)

  /** One encoded map entry. */
  datatype Pair = Pair(key: Bytes, value: Bytes)

  datatype Paired = Pairs(pairs: seq<Pair>) | NoPairs(error: EncodeError)

  function Power(w: nat): nat {
    if w == 0 then 1 else 256 * Power(w - 1)
  }

  /** The low `w` bytes of `n`, most significant first. */
  function Big(n: nat, w: nat): (r: Bytes)
    ensures |r| == w
  {
    if w == 0 then [] else Big(n / 256, w - 1) + [n % 256]
  }

  /** Two's complement in `w` bytes. */
  function BigSigned(i: int, w: nat): (r: Bytes)
    ensures |r| == w
  {
    Big(if i >= 0 then i else if i + Power(w) >= 0 then i + Power(w) else 0, w)
  }

  /** Bytes are compared as unsigned, a prefix before its extensions. */
  predicate ByteLess(a: Bytes, b: Bytes) {
    b != [] && (a == [] || a[0] < b[0] || (a[0] == b[0] && ByteLess(a[1..], b[1..])))
  }

  predicate KeyBefore(a: Pair, b: Pair) {
    ByteLess(a.key, b.key)
  }

  predicate IsKey(item: Bytes) {
    item != [] && (item[0] == STR || U8 <= item[0] <= U8 + 4 || I8 <= item[0] <= I8 + 4)
  }

  function Counted(tag: Bytes, count: nat, body: Bytes): Encoded {
    if count > U64_MAX then Failed(LengthOverflow) else Done(tag + Big(count, 8) + body)
  }

  /** The decimal text of `n`. */
  function Plain(n: nat): string {
    if n < 10 then [DigitChar(n)] else Plain(n / 10) + [DigitChar(n % 10)]
  }

  /** A u64 or i64 as Rust parses it: digits after at most one sign. */
  function ParseWhole(text: string): (n: int)
    ensures n >= -1
  {
    var digits := if text != "" && text[0] == '+' then text[1..] else text;
    if digits != "" && AllDigits(digits) then Texts.Value(digits) else -1
  }

  /** The item of an arbitrary-precision number: the integer its text is exactly
      the decimal form of, or a refusal. */
  function NumberValue(text: string): Value {
    var n := ParseWhole(text);
    if 0 <= n <= U64_MAX && Plain(n) == text then Unsigned(W64, n)
    else if text != "" && text[0] == '-' then
      var m := if text[1..] != "" && AllDigits(text[1..]) then Texts.Value(text[1..]) else 0;
      if 1 <= m <= 0x8000_0000_0000_0000 && "-" + Plain(m) == text then Signed(W64, -m) else Float
    else Float
  }

  function Encode(v: Value): Encoded
    decreases v, 1
  {
    match v
    case Unit => Done([UNIT])
    case Absent => Done([NONE])
    case Present(value) =>
      var r := Encode(value);
      if r.Failed? then r else Done([SOME] + r.bytes)
    case Flag(on) => Done([if on then TRUE else FALSE])
    case Unsigned(width, n) => Done([U8 + Rank(width)] + Big(n, Size(width)))
    case Signed(width, i) => Done([I8 + Rank(width)] + BigSigned(i, Size(width)))
    case Text(utf8) => Counted([STR], |utf8|, utf8)
    case Blob(bytes) => Counted([BYTES], |bytes|, bytes)
    case List(items) =>
      var body := EncodeAll(items);
      if body.Failed? then body else Counted([SEQ], |items|, body.bytes)
    case Dict(fields) =>
      var paired := EncodeFields(fields);
      if paired.NoPairs? then Failed(paired.error) else EncodeMap(paired.pairs)
    case Variant(name, payload) =>
      if |name| > U64_MAX then Failed(LengthOverflow)
      else
        var r := Encode(payload);
        if r.Failed? then r else Done([VARIANT, STR] + Big(|name|, 8) + name + r.bytes)
    case Float => Failed(FloatRefused)
    case JsonNumber(text) => EncodeNumber(NumberValue(text))
    case JsonText => Failed(RawJson)
  }

  /** A number that is neither a u64 nor a negative i64 is a float. */
  function EncodeNumber(v: Value): Encoded {
    match v
    case Unsigned(width, n) => Done([U8 + Rank(width)] + Big(n, Size(width)))
    case Signed(width, i) => Done([I8 + Rank(width)] + BigSigned(i, Size(width)))
    case _ => Failed(FloatRefused)
  }

  /** The items one after another. */
  function EncodeAll(items: seq<Value>): Encoded
    decreases items, 0
  {
    if items == [] then Done([])
    else
      var front := EncodeAll(items[..|items| - 1]);
      if front.Failed? then front
      else
        var last := Encode(items[|items| - 1]);
        if last.Failed? then last else Done(front.bytes + last.bytes)
  }

  /** The entries as they are emitted; each key is checked before its value. */
  function EncodeFields(fields: seq<Field>): Paired
    decreases fields, 0
  {
    if fields == [] then Pairs([])
    else
      var front := EncodeFields(fields[..|fields| - 1]);
      if front.NoPairs? then front else EncodeField(front.pairs, fields[|fields| - 1])
  }

  function EncodeField(pairs: seq<Pair>, field: Field): Paired
    decreases field, 2
  {
    var key := Encode(field.key);
    if key.Failed? then NoPairs(key.error)
    else if !IsKey(key.bytes) then NoPairs(KeyRefused)
    else
      var value := Encode(field.value);
      if value.Failed? then NoPairs(value.error) else Pairs(pairs + [Pair(key.bytes, value.bytes)])
  }

  predicate Repeats(pairs: seq<Pair>) {
    exists i | 0 < i < |pairs| :: pairs[i - 1].key == pairs[i].key
  }

  function Joined(pairs: seq<Pair>): Bytes {
    if pairs == [] then [] else Joined(pairs[..|pairs| - 1]) + pairs[|pairs| - 1].key + pairs[|pairs| - 1].value
  }

  function SortPairs(pairs: seq<Pair>): (r: seq<Pair>)
    ensures multiset(r) == multiset(pairs) && |r| == |pairs| && Sorted(KeyBefore, r)
  {
    KeysOrdered();
    Sort(KeyBefore, pairs)
  }

  /** Entries are written in key order; a repeated key is refused. */
  function EncodeMap(pairs: seq<Pair>): Encoded {
    var sorted := SortPairs(pairs);
    if Repeats(sorted) then Failed(KeyRepeated) else Counted([MAP], |sorted|, Joined(sorted))
  }

  // ---------- byte order ----------

  lemma {:induction false} BytesIrreflexive(a: Bytes)
    ensures !ByteLess(a, a)
  {
    if a != [] {
      BytesIrreflexive(a[1..]);
    }
  }

  lemma {:induction false} BytesTransitive(a: Bytes, b: Bytes, c: Bytes)
    requires ByteLess(a, b) && ByteLess(b, c)
    ensures ByteLess(a, c)
  {
    if a != [] && a[0] == b[0] && b[0] == c[0] {
      BytesTransitive(a[1..], b[1..], c[1..]);
    }
  }

  lemma {:induction false} BytesComparable(a: Bytes, b: Bytes)
    ensures a == b || ByteLess(a, b) || ByteLess(b, a)
  {
    if a != [] && b != [] && a[0] == b[0] {
      BytesComparable(a[1..], b[1..]);
      assert a == [a[0]] + a[1..] && b == [b[0]] + b[1..];
    }
  }

  lemma BytesTotal()
    ensures StrictTotal(ByteLess)
  {
    forall a ensures !ByteLess(a, a) {
      BytesIrreflexive(a);
    }
    forall a, b, c | ByteLess(a, b) && ByteLess(b, c) ensures ByteLess(a, c) {
      BytesTransitive(a, b, c);
    }
    forall a, b ensures a == b || ByteLess(a, b) || ByteLess(b, a) {
      BytesComparable(a, b);
    }
  }

  lemma KeysOrdered()
    ensures StrictOrder(KeyBefore)
  {
    forall a: Pair ensures !KeyBefore(a, a) {
      BytesIrreflexive(a.key);
    }
    forall a, b, c | KeyBefore(a, b) && KeyBefore(b, c) ensures KeyBefore(a, c) {
      BytesTransitive(a.key, b.key, c.key);
    }
  }

  // ---------- the encoder as it runs ----------

  class Buffer {
    var bytes: Bytes

    constructor ()
      ensures bytes == []
    {
      bytes := [];
    }

    method Extend(more: Bytes)
      modifies this
      ensures bytes == old(bytes) + more
    {
      bytes := bytes + more;
    }
  }

  /** Writes one item at the end of `out`. A failure may leave part of it. */
  method Serialize(v: Value, out: Buffer) returns (error: Option<EncodeError>)
    modifies out
    ensures error.Some? ==> Encode(v) == Failed(error.value)
    ensures error.None? ==> Encode(v).Done? && out.bytes == old(out.bytes) + Encode(v).bytes
    decreases v, 1
  {
    match v
    case Unit =>
      out.Extend([UNIT]);
      error := None;
    case Absent =>
      out.Extend([NONE]);
      error := None;
    case Present(value) =>
      ghost var before := out.bytes;
      out.Extend([SOME]);
      error := Serialize(value, out);
      if error.None? {
        Reassociate(before, [SOME], Encode(value).bytes);
      }
    case Flag(on) =>
      out.Extend([if on then TRUE else FALSE]);
      error := None;
    case Unsigned(width, n) =>
      out.Extend([U8 + Rank(width)] + Big(n, Size(width)));
      error := None;
    case Signed(width, i) =>
      out.Extend([I8 + Rank(width)] + BigSigned(i, Size(width)));
      error := None;
    case Text(utf8) => error := LengthPrefixed([STR], |utf8|, utf8, out);
    case Blob(bytes) => error := LengthPrefixed([BYTES], |bytes|, bytes, out);
    case List(items) => error := SerializeSeq(items, out);
    case Dict(fields) => error := SerializeMap(fields, out);
    case Variant(name, payload) =>
      ghost var before := out.bytes;
      if |name| > U64_MAX {
        return Some(LengthOverflow);
      }
      out.Extend([VARIANT, STR] + Big(|name|, 8) + name);
      error := Serialize(payload, out);
      if error.None? {
        Reassociate(before, [VARIANT, STR] + Big(|name|, 8) + name, Encode(payload).bytes);
      }
    case Float => error := Some(FloatRefused);
    case JsonNumber(text) =>
      var r := EncodeNumber(NumberValue(text));
      if r.Failed? {
        return Some(r.error);
      }
      out.Extend(r.bytes);
      error := None;
    case JsonText => error := Some(RawJson);
  }

  lemma Reassociate(a: Bytes, b: Bytes, c: Bytes)
    ensures a + b + c == a + (b + c)
  {
  }

  method LengthPrefixed(tag: Bytes, count: nat, body: Bytes, out: Buffer) returns (error: Option<EncodeError>)
    modifies out
    ensures error.Some? ==> Counted(tag, count, body) == Failed(error.value)
    ensures error.None? ==> Counted(tag, count, body).Done? && out.bytes == old(out.bytes) + Counted(tag, count, body).bytes
  {
    if count > U64_MAX {
      return Some(LengthOverflow);
    }
    out.Extend(tag + Big(count, 8) + body);
    error := None;
  }

  /** Elements are written into a body of their own, so the count can precede
      them. */
  method SerializeSeq(items: seq<Value>, out: Buffer) returns (error: Option<EncodeError>)
    modifies out
    ensures error.Some? ==> Encode(List(items)) == Failed(error.value)
    ensures error.None? ==> Encode(List(items)).Done? && out.bytes == old(out.bytes) + Encode(List(items)).bytes
    decreases items, 0
  {
    var body := new Buffer();
    for i := 0 to |items|
      invariant out.bytes == old(out.bytes)
      invariant EncodeAll(items[..i]) == Done(body.bytes)
    {
      AllStep(items, i);
      var failed := Serialize(items[i], body);
      if failed.Some? {
        AllFails(items, i + 1);
        return failed;
      }
    }
    assert items[..|items|] == items;
    error := LengthPrefixed([SEQ], |items|, body.bytes, out);
  }

  lemma AllStep(items: seq<Value>, i: nat)
    requires i < |items|
    ensures var soFar, last := EncodeAll(items[..i]), Encode(items[i]);
      EncodeAll(items[..i + 1])
        == (if soFar.Failed? then soFar else if last.Failed? then last else Done(soFar.bytes + last.bytes))
  {
    assert items[..i + 1][..i] == items[..i];
  }

  lemma {:induction false} AllFails(items: seq<Value>, i: nat)
    requires i <= |items| && EncodeAll(items[..i]).Failed?
    ensures EncodeAll(items) == EncodeAll(items[..i])
    decreases |items|
  {
    if i == |items| {
      assert items[..i] == items;
    } else {
      assert items[..|items| - 1][..i] == items[..i];
      AllFails(items[..|items| - 1], i);
    }
  }

  /** Entries are encoded on their own as they arrive and sorted at the end. */
  method SerializeMap(fields: seq<Field>, out: Buffer) returns (error: Option<EncodeError>)
    modifies out
    ensures error.Some? ==> Encode(Dict(fields)) == Failed(error.value)
    ensures error.None? ==> Encode(Dict(fields)).Done? && out.bytes == old(out.bytes) + Encode(Dict(fields)).bytes
    decreases fields, 0
  {
    var entries: seq<Pair> := [];
    for i := 0 to |fields|
      invariant out.bytes == old(out.bytes)
      invariant EncodeFields(fields[..i]) == Pairs(entries)
    {
      FieldsStep(fields, i);
      hide EncodeFields, EncodeField, Encode;
      var field := fields[i];
      var failed, pair := SerializeField(field, entries);
      if failed.Some? {
        FieldsFail(fields, i + 1);
        DictFails(fields, failed.value);
        return failed;
      }
      entries := entries + [pair];
    }
    assert fields[..|fields|] == fields;
    error := FinishMap(entries, out);
    DictIs(fields, entries);
  }

  lemma DictFails(fields: seq<Field>, error: EncodeError)
    requires EncodeFields(fields) == NoPairs(error)
    ensures Encode(Dict(fields)) == Failed(error)
  {
  }

  lemma DictIs(fields: seq<Field>, entries: seq<Pair>)
    requires EncodeFields(fields) == Pairs(entries)
    ensures Encode(Dict(fields)) == EncodeMap(entries)
  {
    hide EncodeMap;
  }

  /** One entry's key, checked, then its value. */
  method SerializeField(field: Field, ghost entries: seq<Pair>) returns (error: Option<EncodeError>, pair: Pair)
    ensures error.Some? ==> EncodeField(entries, field) == NoPairs(error.value)
    ensures error.None? ==> EncodeField(entries, field) == Pairs(entries + [pair])
    decreases field, 2
  {
    hide Encode, Big;
    pair := Pair([], []);
    var key := new Buffer();
    error := Serialize(field.key, key);
    if error.Some? {
      return;
    }
    assert [] + Encode(field.key).bytes == Encode(field.key).bytes;
    if !IsKey(key.bytes) {
      return Some(KeyRefused), pair;
    }
    var value := new Buffer();
    error := Serialize(field.value, value);
    if error.None? {
      assert [] + Encode(field.value).bytes == Encode(field.value).bytes;
    }
    pair := Pair(key.bytes, value.bytes);
  }

  lemma FieldsStep(fields: seq<Field>, i: nat)
    requires i < |fields|
    ensures var soFar := EncodeFields(fields[..i]);
      EncodeFields(fields[..i + 1]) == if soFar.NoPairs? then soFar else EncodeField(soFar.pairs, fields[i])
  {
    assert fields[..i + 1][..i] == fields[..i];
  }

  lemma {:induction false} FieldsFail(fields: seq<Field>, i: nat)
    requires i <= |fields| && EncodeFields(fields[..i]).NoPairs?
    ensures EncodeFields(fields) == EncodeFields(fields[..i])
    decreases |fields|
  {
    if i == |fields| {
      assert fields[..i] == fields;
    } else {
      assert fields[..|fields| - 1][..i] == fields[..i];
      FieldsFail(fields[..|fields| - 1], i);
    }
  }

  method FinishMap(entries: seq<Pair>, out: Buffer) returns (error: Option<EncodeError>)
    modifies out
    ensures error.Some? ==> EncodeMap(entries) == Failed(error.value)
    ensures error.None? ==> EncodeMap(entries).Done? && out.bytes == old(out.bytes) + EncodeMap(entries).bytes
  {
    hide KeyBefore, Big, Joined;
    var sorted := SortPairs(entries);
    var i := 1;
    while i < |sorted|
      invariant i >= 1
      invariant forall j | 0 < j < i && j < |sorted| :: sorted[j - 1].key != sorted[j].key
      invariant out.bytes == old(out.bytes)
    {
      if sorted[i - 1].key == sorted[i].key {
        return Some(KeyRepeated);
      }
      i := i + 1;
    }
    if |sorted| > U64_MAX {
      return Some(LengthOverflow);
    }
    var joined := JoinPairs(sorted);
    out.Extend([MAP] + Big(|sorted|, 8) + joined);
    error := None;
  }

  method JoinPairs(pairs: seq<Pair>) returns (joined: Bytes)
    ensures joined == Joined(pairs)
  {
    joined := [];
    for i := 0 to |pairs|
      invariant joined == Joined(pairs[..i])
    {
      assert pairs[..i + 1][..i] == pairs[..i];
      joined := joined + pairs[i].key + pairs[i].value;
    }
    assert pairs[..|pairs|] == pairs;
  }
}
