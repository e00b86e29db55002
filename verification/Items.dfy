/** The item an encoding stands for, and that each item has one encoding which
    is a prefix of no other. */
module Items {
  import opened Options
  import opened Orders
  import opened Identifiers
  import opened Encoding

  /** A value up to the order its maps are emitted in. Map entries go by the
      bytes of their key. */
  datatype Item =
    | UnitItem
    | AbsentItem
    | PresentItem(item: Item)
    | FlagItem(on: bool)
    | UnsignedItem(width: Width, n: nat)
    | SignedItem(width: Width, i: int)
    | TextItem(utf8: Bytes)
    | BlobItem(bytes: Bytes)
    | ListItem(items: seq<Item>)
    | MapItem(fields: map<Bytes, Item>)
    | VariantItem(name: Bytes, payload: Item)

  predicate Scalar(item: Item) {
    item.TextItem? || item.UnsignedItem? || item.SignedItem?
  }

  function WriteScalar(item: Item): Bytes {
    match item
    case UnsignedItem(width, n) => [U8 + Rank(width)] + Big(n, Size(width))
    case SignedItem(width, i) => [I8 + Rank(width)] + BigSigned(i, Size(width))
    case TextItem(utf8) => [STR] + Big(|utf8|, 8) + utf8
    case _ => []
  }

  function MeaningNumber(v: Value): Option<Item> {
    match v
    case Unsigned(width, n) => Some(UnsignedItem(width, n))
    case Signed(width, i) => Some(SignedItem(width, i))
    case _ => None
  }

  /** What a value stands for; nothing if it holds a float, raw JSON text, a map
      key that is no string or integer, or a repeated key. */
  function Meaning(v: Value): Option<Item>
    decreases v, 1
  {
    match v
    case Unit => Some(UnitItem)
    case Absent => Some(AbsentItem)
    case Present(value) =>
      var r := Meaning(value);
      if r.None? then None else Some(PresentItem(r.value))
    case Flag(on) => Some(FlagItem(on))
    case Unsigned(width, n) => Some(UnsignedItem(width, n))
    case Signed(width, i) => Some(SignedItem(width, i))
    case Text(utf8) => Some(TextItem(utf8))
    case Blob(bytes) => Some(BlobItem(bytes))
    case List(items) =>
      var r := MeaningAll(items);
      if r.None? then None else Some(ListItem(r.value))
    case Dict(fields) =>
      var r := MeaningFields(fields);
      if r.None? then None else Some(MapItem(r.value))
    case Variant(name, payload) =>
      var r := Meaning(payload);
      if r.None? then None else Some(VariantItem(name, r.value))
    case Float => None
    case JsonNumber(text) => MeaningNumber(NumberValue(text))
    case JsonText => None
  }

  function MeaningAll(items: seq<Value>): (r: Option<seq<Item>>)
    decreases items, 0
  {
    if items == [] then Some([])
    else
      var front, last := MeaningAll(items[..|items| - 1]), Meaning(items[|items| - 1]);
      if front.None? || last.None? then None else Some(front.value + [last.value])
  }

  function MeaningFields(fields: seq<Field>): Option<map<Bytes, Item>>
    decreases fields, 0
  {
    if fields == [] then Some(map[])
    else
      var front := MeaningFields(fields[..|fields| - 1]);
      if front.None? then None else MeaningField(front.value, fields[|fields| - 1])
  }

  function MeaningField(m: map<Bytes, Item>, field: Field): Option<map<Bytes, Item>>
    decreases field, 2
  {
    var key, value := Meaning(field.key), Meaning(field.value);
    if key.None? || !Scalar(key.value) || value.None? || WriteScalar(key.value) in m then None
    else Some(m[WriteScalar(key.value) := value.value])
  }

  function KeysInOrder(keys: set<Bytes>): (r: seq<Bytes>)
    ensures Ascends(ByteLess, r) && Elements(r) == keys && |r| == |keys|
    ensures forall k | k in r :: k in keys
  {
    BytesTotal();
    var r := Ascending(ByteLess, keys);
    assert forall k | k in r :: k in Elements(r);
    r
  }

  /** The one encoding of an item. */
  function Write(item: Item): Bytes
    decreases item, 1, 0
  {
    match item
    case UnitItem => [UNIT]
    case AbsentItem => [NONE]
    case PresentItem(inner) => [SOME] + Write(inner)
    case FlagItem(on) => [if on then TRUE else FALSE]
    case UnsignedItem(_, _) => WriteScalar(item)
    case SignedItem(_, _) => WriteScalar(item)
    case TextItem(_) => WriteScalar(item)
    case BlobItem(bytes) => [BYTES] + Big(|bytes|, 8) + bytes
    case ListItem(items) => [SEQ] + Big(|items|, 8) + WriteAll(items)
    case MapItem(fields) => [MAP] + Big(|fields|, 8) + WriteEntries(item, KeysInOrder(fields.Keys))
    case VariantItem(name, payload) => [VARIANT, STR] + Big(|name|, 8) + name + Write(payload)
  }

  function WriteAll(items: seq<Item>): Bytes
    decreases items, 0, 0
  {
    if items == [] then [] else Write(items[0]) + WriteAll(items[1..])
  }

  function WriteEntries(item: Item, keys: seq<Bytes>): Bytes
    requires item.MapItem? && forall k | k in keys :: k in item.fields
    decreases item, 0, |keys|
  {
    if keys == [] then [] else keys[0] + Write(item.fields[keys[0]]) + WriteEntries(item, keys[1..])
  }

  /** Numbers fit their width and lengths fit a u64. */
  ghost predicate Sized(item: Item) {
    match item
    case PresentItem(inner) => Sized(inner)
    case UnsignedItem(_, _) => SizedScalar(item)
    case SignedItem(_, _) => SizedScalar(item)
    case TextItem(_) => SizedScalar(item)
    case BlobItem(bytes) => |bytes| <= U64_MAX
    case ListItem(items) => |items| <= U64_MAX && forall i | 0 <= i < |items| :: Sized(items[i])
    case MapItem(fields) => |fields| <= U64_MAX && forall k | k in fields :: KeyOf(k) && Sized(fields[k])
    case VariantItem(name, payload) => |name| <= U64_MAX && Sized(payload)
    case _ => true
  }

  predicate SizedScalar(item: Item) {
    match item
    case UnsignedItem(width, n) => n < Power(Size(width))
    case SignedItem(width, i) => 0 - Power(Size(width)) <= 2 * i < Power(Size(width))
    case TextItem(utf8) => |utf8| <= U64_MAX
    case _ => false
  }

  /** The encoding of a string or an integer. */
  ghost predicate KeyOf(key: Bytes) {
    exists item :: SizedScalar(item) && key == WriteScalar(item)
  }

  // ---------- each item has its own encoding ----------

  lemma Cut(a: Bytes, x: Bytes, b: Bytes, y: Bytes)
    requires a + x == b + y && |a| == |b|
    ensures a == b && x == y
  {
    assert a == (a + x)[..|a|] && b == (b + y)[..|a|];
    assert x == (a + x)[|a|..] && y == (b + y)[|a|..];
  }

  lemma {:induction false} BigOnce(n: nat, m: nat, w: nat)
    requires n < Power(w) && m < Power(w) && Big(n, w) == Big(m, w)
    ensures n == m
  {
    if w > 0 {
      Cut(Big(n / 256, w - 1), [n % 256], Big(m / 256, w - 1), [m % 256]);
      BigOnce(n / 256, m / 256, w - 1);
    }
  }

  lemma EightBytes()
    ensures Power(8) == 0x1_0000_0000_0000_0000
  {
    assert Power(4) == 0x1_0000_0000;
  }

  lemma SignedOnce(i: int, j: int, w: nat)
    requires 0 - Power(w) <= 2 * i < Power(w) && 0 - Power(w) <= 2 * j < Power(w) && BigSigned(i, w) == BigSigned(j, w)
    ensures i == j
  {
    BigOnce(if i >= 0 then i else i + Power(w), if j >= 0 then j else j + Power(w), w);
  }

  /** A tag, a count of eight bytes, and that much text. */
  lemma CountedOnce(tag: Bytes, n: nat, x: Bytes, m: nat, y: Bytes)
    requires n <= U64_MAX && m <= U64_MAX
    requires tag + Big(n, 8) + x == tag + Big(m, 8) + y
    ensures n == m && x == y
  {
    Cut(tag + Big(n, 8), x, tag + Big(m, 8), y);
    Cut(tag, Big(n, 8), tag, Big(m, 8));
    EightBytes();
    BigOnce(n, m, 8);
  }

  lemma ScalarHead(item: Item, x: Bytes)
    requires Scalar(item)
    ensures WriteScalar(item) + x != []
    ensures (WriteScalar(item) + x)[0]
      == match item
         case UnsignedItem(width, _) => U8 + Rank(width)
         case SignedItem(width, _) => I8 + Rank(width)
         case _ => STR
  {
    hide Big, BigSigned;
  }

  ghost predicate SameKind(a: Item, b: Item) {
    match a
    case UnitItem => b.UnitItem?
    case AbsentItem => b.AbsentItem?
    case PresentItem(_) => b.PresentItem?
    case FlagItem(on) => b == a
    case UnsignedItem(width, _) => b.UnsignedItem? && b.width == width
    case SignedItem(width, _) => b.SignedItem? && b.width == width
    case TextItem(_) => b.TextItem?
    case BlobItem(_) => b.BlobItem?
    case ListItem(_) => b.ListItem?
    case MapItem(_) => b.MapItem?
    case VariantItem(_, _) => b.VariantItem?
  }

  lemma TagsTell(a: Item, b: Item)
    requires Tag(a) == Tag(b)
    ensures SameKind(a, b)
  {
  }

  lemma ScalarOnce(a: Item, b: Item, x: Bytes, y: Bytes)
    requires SizedScalar(a) && SizedScalar(b) && WriteScalar(a) + x == WriteScalar(b) + y
    ensures a == b && x == y
  {
    ScalarHead(a, x);
    ScalarHead(b, y);
    assert Tag(a) == Tag(b);
    TagsTell(a, b);
    hide *;
    SizedIsScalar(a);
    KindIs(a, b);
    match a
    case UnsignedItem(_, _) => UnsignedOnce(a, b, x, y);
    case SignedItem(_, _) => SignedItemOnce(a, b, x, y);
    case TextItem(_) => TextOnce(a, b, x, y);
  }

  lemma SizedIsScalar(a: Item)
    requires SizedScalar(a)
    ensures a.UnsignedItem? || a.SignedItem? || a.TextItem?
  {
  }

  lemma KindIs(a: Item, b: Item)
    requires SameKind(a, b)
    ensures a.PresentItem? ==> b.PresentItem?
    ensures a.UnitItem? || a.AbsentItem? || a.FlagItem? ==> b == a
    ensures a.UnsignedItem? ==> b.UnsignedItem? && b.width == a.width
    ensures a.SignedItem? ==> b.SignedItem? && b.width == a.width
    ensures a.TextItem? ==> b.TextItem?
    ensures a.BlobItem? ==> b.BlobItem?
    ensures a.ListItem? ==> b.ListItem?
    ensures a.MapItem? ==> b.MapItem?
    ensures a.VariantItem? ==> b.VariantItem?
  {
  }

  lemma TextWritten(a: Item)
    requires a.TextItem?
    ensures WriteScalar(a) == [STR] + Big(|a.utf8|, 8) + a.utf8
    ensures SizedScalar(a) ==> |a.utf8| <= U64_MAX
  {
    hide Big;
  }

  lemma After(a: Bytes, b: Bytes, c: Bytes)
    ensures a + b + c == a + (b + c)
  {
  }

  lemma UnsignedOnce(a: Item, b: Item, x: Bytes, y: Bytes)
    requires a.UnsignedItem? && b.UnsignedItem? && a.width == b.width && SizedScalar(a) && SizedScalar(b)
    requires WriteScalar(a) + x == WriteScalar(b) + y
    ensures a == b && x == y
  {
    hide Big, Power;
    Cut(WriteScalar(a), x, WriteScalar(b), y);
    Cut([U8 + Rank(a.width)], Big(a.n, Size(a.width)), [U8 + Rank(a.width)], Big(b.n, Size(a.width)));
    BigOnce(a.n, b.n, Size(a.width));
  }

  lemma SignedItemOnce(a: Item, b: Item, x: Bytes, y: Bytes)
    requires a.SignedItem? && b.SignedItem? && a.width == b.width && SizedScalar(a) && SizedScalar(b)
    requires WriteScalar(a) + x == WriteScalar(b) + y
    ensures a == b && x == y
  {
    hide BigSigned, Power;
    Cut(WriteScalar(a), x, WriteScalar(b), y);
    Cut([I8 + Rank(a.width)], BigSigned(a.i, Size(a.width)), [I8 + Rank(a.width)], BigSigned(b.i, Size(a.width)));
    SignedOnce(a.i, b.i, Size(a.width));
  }

  lemma TextOnce(a: Item, b: Item, x: Bytes, y: Bytes)
    requires a.TextItem? && b.TextItem? && SizedScalar(a) && SizedScalar(b)
    requires WriteScalar(a) + x == WriteScalar(b) + y
    ensures a == b && x == y
  {
    TextWritten(a);
    TextWritten(b);
    hide *;
    After([STR] + Big(|a.utf8|, 8), a.utf8, x);
    After([STR] + Big(|b.utf8|, 8), b.utf8, y);
    CountedOnce([STR], |a.utf8|, a.utf8 + x, |b.utf8|, b.utf8 + y);
    Cut(a.utf8, x, b.utf8, y);
  }

  lemma KeyOnce(a: Bytes, b: Bytes, x: Bytes, y: Bytes)
    requires KeyOf(a) && KeyOf(b) && a + x == b + y
    ensures a == b && x == y
  {
    hide SizedScalar, WriteScalar;
    var i :| SizedScalar(i) && a == WriteScalar(i);
    var j :| SizedScalar(j) && b == WriteScalar(j);
    ScalarOnce(i, j, x, y);
  }

  function Tag(item: Item): Byte {
    match item
    case UnitItem => UNIT
    case AbsentItem => NONE
    case PresentItem(_) => SOME
    case FlagItem(on) => if on then TRUE else FALSE
    case UnsignedItem(width, _) => U8 + Rank(width)
    case SignedItem(width, _) => I8 + Rank(width)
    case TextItem(_) => STR
    case BlobItem(_) => BYTES
    case ListItem(_) => SEQ
    case MapItem(_) => MAP
    case VariantItem(_, _) => VARIANT
  }

  lemma StartsWithTag(item: Item, x: Bytes)
    ensures Write(item) != [] && (Write(item) + x)[0] == Tag(item)
  {
    hide Big, BigSigned, KeysInOrder;
    if Scalar(item) {
      ScalarHead(item, x);
    }
  }

  /** No encoding is a prefix of another, and equal encodings come from one item. */
  lemma {:induction false} WrittenOnce(a: Item, b: Item, x: Bytes, y: Bytes)
    requires Sized(a) && Sized(b) && Write(a) + x == Write(b) + y
    ensures a == b && x == y
    decreases a, 1, 0
  {
    hide *;
    StartsWithTag(a, x);
    StartsWithTag(b, y);
    TagsTell(a, b);
    KindIs(a, b);
    SizedIs(a);
    SizedIs(b);
    WriteIs(a, x);
    WriteIs(b, y);
    match a
    case PresentItem(inner) =>
      Cut([SOME], Write(inner) + x, [SOME], Write(b.item) + y);
      WrittenOnce(inner, b.item, x, y);
    case BlobItem(bytes) =>
      CountedOnce([BYTES], |bytes|, bytes + x, |b.bytes|, b.bytes + y);
      Cut(bytes, x, b.bytes, y);
    case ListItem(items) =>
      CountedOnce([SEQ], |items|, WriteAll(items) + x, |b.items|, WriteAll(b.items) + y);
      AllOnce(items, b.items, x, y);
    case MapItem(fields) => MapOnce(a, b, x, y);
    case VariantItem(name, payload) =>
      CountedOnce([VARIANT, STR], |name|, name + (Write(payload) + x), |b.name|, b.name + (Write(b.payload) + y));
      Cut(name, Write(payload) + x, b.name, Write(b.payload) + y);
      WrittenOnce(payload, b.payload, x, y);
    case UnitItem => Cut(Write(a), x, Write(b), y);
    case AbsentItem => Cut(Write(a), x, Write(b), y);
    case FlagItem(on) => Cut(Write(a), x, Write(b), y);
    case _ => ScalarOnce(a, b, x, y);
  }

  lemma SizedIs(a: Item)
    requires Sized(a)
    ensures a.PresentItem? ==> Sized(a.item)
    ensures a.UnsignedItem? || a.SignedItem? || a.TextItem? ==> SizedScalar(a)
    ensures a.BlobItem? ==> |a.bytes| <= U64_MAX
    ensures a.ListItem? ==> |a.items| <= U64_MAX && forall i | 0 <= i < |a.items| :: Sized(a.items[i])
    ensures a.MapItem? ==> |a.fields| <= U64_MAX && forall k | k in a.fields :: KeyOf(k) && Sized(a.fields[k])
    ensures a.VariantItem? ==> |a.name| <= U64_MAX && Sized(a.payload)
  {
    hide KeyOf, SizedScalar;
  }

  /** An item's encoding with what follows it, cut where its parts end. */
  lemma WriteIs(a: Item, x: Bytes)
    ensures a.PresentItem? ==> Write(a) + x == [SOME] + (Write(a.item) + x)
    ensures a.UnsignedItem? || a.SignedItem? || a.TextItem? ==> Write(a) == WriteScalar(a)
    ensures a.BlobItem? ==> Write(a) + x == [BYTES] + Big(|a.bytes|, 8) + (a.bytes + x)
    ensures a.ListItem? ==> Write(a) + x == [SEQ] + Big(|a.items|, 8) + (WriteAll(a.items) + x)
    ensures a.MapItem? ==>
      var keys := KeysInOrder(a.fields.Keys);
      Write(a) + x == [MAP] + Big(|a.fields|, 8) + (WriteEntries(a, keys) + x)
    ensures a.VariantItem? ==>
      Write(a) + x == [VARIANT, STR] + Big(|a.name|, 8) + (a.name + (Write(a.payload) + x))
  {
    hide Big, WriteAll, WriteEntries, KeysInOrder, WriteScalar;
    if a.VariantItem? {
      VariantHead(a, x);
    }
  }

  lemma VariantHead(a: Item, x: Bytes)
    requires a.VariantItem?
    ensures Write(a) + x == [VARIANT, STR] + Big(|a.name|, 8) + (a.name + (Write(a.payload) + x))
  {
    var head := [VARIANT, STR] + Big(|a.name|, 8);
    assert Write(a) == head + a.name + Write(a.payload);
    hide *;
    Regroup(head, a.name, Write(a.payload), x);
  }

  lemma Regroup(a: Bytes, b: Bytes, c: Bytes, d: Bytes)
    ensures a + b + c + d == a + (b + (c + d))
  {
    assert b + c + d == b + (c + d);
  }

  lemma {:induction false} AllOnce(a: seq<Item>, b: seq<Item>, x: Bytes, y: Bytes)
    requires |a| == |b| && WriteAll(a) + x == WriteAll(b) + y
    requires (forall i | 0 <= i < |a| :: Sized(a[i])) && forall i | 0 <= i < |b| :: Sized(b[i])
    ensures a == b && x == y
    decreases a, 0, 0
  {
    hide Write, Sized;
    if a != [] {
      assert WriteAll(a) + x == Write(a[0]) + (WriteAll(a[1..]) + x);
      assert WriteAll(b) + y == Write(b[0]) + (WriteAll(b[1..]) + y);
      WrittenOnce(a[0], b[0], WriteAll(a[1..]) + x, WriteAll(b[1..]) + y);
      AllOnce(a[1..], b[1..], x, y);
      assert a == [a[0]] + a[1..] && b == [b[0]] + b[1..];
    } else {
      assert WriteAll(a) + x == x && WriteAll(b) + y == y;
    }
  }

  lemma {:induction false} MapOnce(a: Item, b: Item, x: Bytes, y: Bytes)
    requires a.MapItem? && b.MapItem? && Sized(a) && Sized(b) && Write(a) + x == Write(b) + y
    ensures a == b && x == y
    decreases a, 0, |a.fields| + 1
  {
    hide *;
    var ks, ls := KeysInOrder(a.fields.Keys), KeysInOrder(b.fields.Keys);
    SizedIs(a);
    SizedIs(b);
    WriteIs(a, x);
    WriteIs(b, y);
    CountedOnce([MAP], |ks|, WriteEntries(a, ks) + x, |ls|, WriteEntries(b, ls) + y);
    EntriesOnce(a, b, ks, ls, x, y);
    SameFields(a, b, ks);
  }

  lemma SameFields(a: Item, b: Item, ks: seq<Bytes>)
    requires a.MapItem? && b.MapItem? && Elements(ks) == a.fields.Keys && Elements(ks) == b.fields.Keys
    requires forall k | k in ks :: k in a.fields && k in b.fields && a.fields[k] == b.fields[k]
    ensures a == b
  {
    forall k | k in a.fields ensures k in b.fields && a.fields[k] == b.fields[k] {
      assert k in Elements(ks);
    }
    assert a.fields.Keys == b.fields.Keys;
    assert a.fields == b.fields;
  }

  lemma {:induction false} EntriesOnce(a: Item, b: Item, ks: seq<Bytes>, ls: seq<Bytes>, x: Bytes, y: Bytes)
    requires a.MapItem? && b.MapItem? && |ks| == |ls|
    requires forall k | k in ks :: k in a.fields && KeyOf(k) && Sized(a.fields[k])
    requires forall k | k in ls :: k in b.fields && KeyOf(k) && Sized(b.fields[k])
    requires WriteEntries(a, ks) + x == WriteEntries(b, ls) + y
    ensures ks == ls && (forall k | k in ks :: a.fields[k] == b.fields[k]) && x == y
    decreases a, 0, |ks|
  {
    hide Write, Sized, KeyOf;
    if ks != [] {
      var k, l := ks[0], ls[0];
      var p, q := Write(a.fields[k]), Write(b.fields[l]);
      EntriesHead(a, ks, x);
      EntriesHead(b, ls, y);
      KeyOnce(k, l, p + (WriteEntries(a, ks[1..]) + x), q + (WriteEntries(b, ls[1..]) + y));
      WrittenOnce(a.fields[k], b.fields[l], WriteEntries(a, ks[1..]) + x, WriteEntries(b, ls[1..]) + y);
      EntriesOnce(a, b, ks[1..], ls[1..], x, y);
      assert ks == [k] + ks[1..] && ls == [l] + ls[1..];
    } else {
      assert WriteEntries(a, ks) + x == x && WriteEntries(b, ls) + y == y;
    }
  }

  lemma EntriesHead(a: Item, ks: seq<Bytes>, x: Bytes)
    requires a.MapItem? && ks != [] && forall k | k in ks :: k in a.fields
    ensures WriteEntries(a, ks) + x == ks[0] + (Write(a.fields[ks[0]]) + (WriteEntries(a, ks[1..]) + x))
  {
    hide Write;
  }
}
