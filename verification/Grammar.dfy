/** The documented item grammar, read from bytes: tags and widths as its table
    states them, numbers by what their bytes stand for. The encoder's output
    reads back, and its map keys come in the order the grammar promises. */
module Grammar {
  import opened Options
  import opened Orders
  import opened Identifiers
  import opened Encoding
  import opened Items

  // ---------- big-endian numbers ----------

  /** What bytes stand for, most significant first. */
  function Number(b: Bytes): nat {
    if b == [] then 0 else Number(b[..|b| - 1]) * 256 + b[|b| - 1]
  }

  lemma {:induction false} NumberOfBig(n: nat, w: nat)
    requires n < Power(w)
    ensures Number(Big(n, w)) == n
  {
    if w > 0 {
      NumberOfBig(n / 256, w - 1);
      assert Big(n, w)[..w - 1] == Big(n / 256, w - 1);
    }
  }

  lemma {:induction false} LastByteDecides(a: Bytes, b: Bytes, c: Byte, d: Byte)
    requires |a| == |b|
    ensures ByteLess(a + [c], b + [d]) <==> ByteLess(a, b) || (a == b && c < d)
    decreases |a|
  {
    if a == [] {
      assert a + [c] == [c] && b + [d] == [d];
    } else {
      assert (a + [c])[1..] == a[1..] + [c] && (b + [d])[1..] == b[1..] + [d];
      LastByteDecides(a[1..], b[1..], c, d);
      assert a == [a[0]] + a[1..] && b == [b[0]] + b[1..];
    }
  }

  /** Among numbers that fit `w` bytes, byte order is numeric order. */
  lemma {:induction false} BigOrder(n: nat, m: nat, w: nat)
    requires n < Power(w) && m < Power(w)
    ensures ByteLess(Big(n, w), Big(m, w)) <==> n < m
  {
    if w > 0 {
      BigOrder(n / 256, m / 256, w - 1);
      LastByteDecides(Big(n / 256, w - 1), Big(m / 256, w - 1), n % 256, m % 256);
      NumberOfBig(n / 256, w - 1);
      NumberOfBig(m / 256, w - 1);
    }
  }

  /** The first byte is the most significant. */
  lemma {:induction false} BigLeads(n: nat, w: nat)
    requires w > 0 && n < Power(w)
    ensures Power(w - 1) > 0 && Big(n, w)[0] == n / Power(w - 1)
  {
    if w == 1 {
      assert Big(n, 1) == Big(n / 256, 0) + [n % 256];
    } else {
      BigLeads(n / 256, w - 1);
      DivideTwice(n, Power(w - 2));
    }
  }

  lemma DivideTwice(n: nat, p: nat)
    requires p > 0
    ensures n / 256 / p == n / (256 * p)
  {
    var q, r := n / 256 / p, n / 256 % p;
    assert n / 256 == p * q + r;
    assert n == 256 * p * q + (256 * r + n % 256);
    Multiple(256 * p, q - n / (256 * p), n % (256 * p) - (256 * r + n % 256));
  }

  lemma Multiple(d: nat, e: int, rest: int)
    requires d > 0 && d * e == rest && 0 - d < rest < d
    ensures e == 0
  {
    assert e >= 1 ==> d * e >= d;
    assert e <= -1 ==> d * e <= 0 - d;
  }

  lemma {:induction false} AlikeDecides(p: Bytes, a: Bytes, b: Bytes)
    ensures ByteLess(p + a, p + b) <==> ByteLess(a, b)
    decreases |p|
  {
    if p == [] {
      assert p + a == a && p + b == b;
    } else {
      assert (p + a)[1..] == p[1..] + a && (p + b)[1..] == p[1..] + b;
      AlikeDecides(p[1..], a, b);
    }
  }

  lemma {:induction false} HeadsDecide(a: Bytes, b: Bytes, x: Bytes, y: Bytes)
    requires |a| == |b| && a != b
    ensures ByteLess(a + x, b + y) <==> ByteLess(a, b)
    decreases |a|
  {
    assert (a + x)[0] == a[0] && (b + y)[0] == b[0];
    assert a == [a[0]] + a[1..] && b == [b[0]] + b[1..];
    if a[0] == b[0] {
      assert (a + x)[1..] == a[1..] + x && (b + y)[1..] == b[1..] + y;
      HeadsDecide(a[1..], b[1..], x, y);
    }
  }

  /** String keys order by byte length first and then bytewise. */
  lemma TextKeysSort(a: Bytes, b: Bytes)
    requires |a| <= U64_MAX && |b| <= U64_MAX
    ensures ByteLess(Write(TextItem(a)), Write(TextItem(b))) <==> |a| < |b| || (|a| == |b| && ByteLess(a, b))
  {
    EightBytes();
    hide Big, ByteLess, Power;
    assert Write(TextItem(a)) == [STR] + (Big(|a|, 8) + a) && Write(TextItem(b)) == [STR] + (Big(|b|, 8) + b);
    AlikeDecides([STR], Big(|a|, 8) + a, Big(|b|, 8) + b);
    if |a| == |b| {
      AlikeDecides(Big(|a|, 8), a, b);
    } else {
      NumberOfBig(|a|, 8);
      NumberOfBig(|b|, 8);
      HeadsDecide(Big(|a|, 8), Big(|b|, 8), a, b);
      BigOrder(|a|, |b|, 8);
    }
  }

  /** Unsigned keys of one width order as numbers. */
  lemma UnsignedKeysSort(width: Width, n: nat, m: nat)
    requires n < Power(Size(width)) && m < Power(Size(width))
    ensures ByteLess(Write(UnsignedItem(width, n)), Write(UnsignedItem(width, m))) <==> n < m
  {
    hide Big, ByteLess, Power;
    AlikeDecides([U8 + Rank(width)], Big(n, Size(width)), Big(m, Size(width)));
    BigOrder(n, m, Size(width));
  }

  // ---------- reading an item ----------

  /** An item and the bytes after it. */
  datatype Reading<+T> = Read(value: T, rest: Bytes) | Unread

  function ReadCount(b: Bytes): Reading<nat> {
    if |b| < 8 then Unread else Read(Number(b[..8]), b[8..])
  }

  function ReadBytes(b: Bytes): Reading<Bytes> {
    match ReadCount(b)
    case Unread => Unread
    case Read(n, rest) => if |rest| < n then Unread else Read(rest[..n], rest[n..])
  }

  /** An integer of `size` bytes; two's complement when signed. */
  function ReadUnsigned(b: Bytes, width: Width, size: nat): Reading<Item> {
    if |b| < size then Unread else Read(UnsignedItem(width, Number(b[..size])), b[size..])
  }

  function ReadSigned(b: Bytes, width: Width, size: nat): Reading<Item> {
    if |b| < size then Unread
    else
      var n := Number(b[..size]);
      Read(SignedItem(width, if 2 * n < Power(size) then n else n - Power(size)), b[size..])
  }

  /** The items that are a tag and their own bytes. */
  function ReadScalar(b: Bytes): Reading<Item> {
    if b == [] then Unread
    else
      var tag, body := b[0], b[1..];
      if tag == 0x10 then ReadUnsigned(body, W8, 1)
      else if tag == 0x11 then ReadUnsigned(body, W16, 2)
      else if tag == 0x12 then ReadUnsigned(body, W32, 4)
      else if tag == 0x13 then ReadUnsigned(body, W64, 8)
      else if tag == 0x14 then ReadUnsigned(body, W128, 16)
      else if tag == 0x18 then ReadSigned(body, W8, 1)
      else if tag == 0x19 then ReadSigned(body, W16, 2)
      else if tag == 0x1a then ReadSigned(body, W32, 4)
      else if tag == 0x1b then ReadSigned(body, W64, 8)
      else if tag == 0x1c then ReadSigned(body, W128, 16)
      else if tag == 0x40 then
        var text := ReadBytes(body);
        if text.Unread? then Unread else Read(TextItem(text.value), text.rest)
      else Unread
  }

  function ReadItem(b: Bytes): (r: Reading<Item>)
    ensures r.Read? ==> |r.rest| < |b|
    decreases |b|, 0
  {
    if b == [] then Unread
    else
      var tag, body := b[0], b[1..];
      if tag == 0x00 then Read(UnitItem, body)
      else if tag == 0x01 then Read(AbsentItem, body)
      else if tag == 0x02 then
        var inner := ReadItem(body);
        if inner.Unread? then Unread else Read(PresentItem(inner.value), inner.rest)
      else if tag == 0x03 then Read(FlagItem(false), body)
      else if tag == 0x04 then Read(FlagItem(true), body)
      else if tag == 0x41 then
        var blob := ReadBytes(body);
        if blob.Unread? then Unread else Read(BlobItem(blob.value), blob.rest)
      else if tag == 0x50 then
        var count := ReadCount(body);
        if count.Unread? then Unread
        else
          var items := ReadItems(count.value, count.rest);
          if items.Unread? then Unread else Read(ListItem(items.value), items.rest)
      else if tag == 0x51 then
        var count := ReadCount(body);
        if count.Unread? then Unread
        else
          var fields := ReadEntries(count.value, None, count.rest);
          if fields.Unread? then Unread else Read(MapItem(fields.value), fields.rest)
      else if tag == 0x60 then
        if body == [] || body[0] != 0x40 then Unread
        else
          var name := ReadBytes(body[1..]);
          if name.Unread? then Unread
          else
            var payload := ReadItem(name.rest);
            if payload.Unread? then Unread else Read(VariantItem(name.value, payload.value), payload.rest)
      else ReadScalar(b)
  }

  function ReadItems(n: nat, b: Bytes): (r: Reading<seq<Item>>)
    ensures r.Read? ==> |r.rest| <= |b|
    decreases |b|, 1
  {
    if n == 0 then Read([], b)
    else
      var first := ReadItem(b);
      if first.Unread? then Unread
      else
        var others := ReadItems(n - 1, first.rest);
        if others.Unread? then Unread else Read([first.value] + others.value, others.rest)
  }

  /** Entries whose keys are strings or integers and ascend by their bytes. */
  function ReadEntries(n: nat, last: Option<Bytes>, b: Bytes): (r: Reading<map<Bytes, Item>>)
    ensures r.Read? ==> |r.rest| <= |b|
    decreases |b|, 1
  {
    if n == 0 then Read(map[], b)
    else
      var key := ReadScalar(b);
      if key.Unread? || |key.rest| >= |b| then Unread
      else
        var k := b[..|b| - |key.rest|];
        if last.Some? && !ByteLess(last.value, k) then Unread
        else
          var value := ReadItem(key.rest);
          if value.Unread? then Unread
          else
            var others := ReadEntries(n - 1, Some(k), value.rest);
            if others.Unread? then Unread else Read(others.value[k := value.value], others.rest)
  }

  // ---------- what is written reads back ----------

  lemma CountReads(n: nat, x: Bytes)
    requires n <= U64_MAX
    ensures ReadCount(Big(n, 8) + x) == Read(n, x)
  {
    EightBytes();
    NumberOfBig(n, 8);
    var b := Big(n, 8) + x;
    assert b[..8] == Big(n, 8) && b[8..] == x;
  }

  lemma BytesRead(bytes: Bytes, x: Bytes)
    requires |bytes| <= U64_MAX
    ensures ReadBytes(Big(|bytes|, 8) + (bytes + x)) == Read(bytes, x)
  {
    CountReads(|bytes|, bytes + x);
    assert (bytes + x)[..|bytes|] == bytes && (bytes + x)[|bytes|..] == x;
  }

  lemma UnsignedReads(width: Width, n: nat, x: Bytes)
    requires n < Power(Size(width))
    ensures ReadUnsigned(Big(n, Size(width)) + x, width, Size(width)) == Read(UnsignedItem(width, n), x)
  {
    NumberOfBig(n, Size(width));
    var b := Big(n, Size(width)) + x;
    assert b[..Size(width)] == Big(n, Size(width)) && b[Size(width)..] == x;
  }

  lemma SignedReads(width: Width, i: int, x: Bytes)
    requires 0 - Power(Size(width)) <= 2 * i < Power(Size(width))
    ensures ReadSigned(BigSigned(i, Size(width)) + x, width, Size(width)) == Read(SignedItem(width, i), x)
  {
    var n := if i >= 0 then i else i + Power(Size(width));
    NumberOfBig(n, Size(width));
    var b := BigSigned(i, Size(width)) + x;
    assert b[..Size(width)] == Big(n, Size(width)) && b[Size(width)..] == x;
    hide Power, Big;
  }

  lemma ScalarReads(item: Item, x: Bytes)
    requires SizedScalar(item)
    ensures ReadScalar(WriteScalar(item) + x) == Read(item, x)
  {
    match item
    case UnsignedItem(width, n) => UnsignedScalar(width, n, x);
    case SignedItem(width, i) => SignedScalar(width, i, x);
    case TextItem(utf8) => TextScalar(utf8, x);
    hide *;
  }

  /** Which reading a tag calls for. */
  lemma Dispatch(tag: Byte, body: Bytes)
    ensures forall width | tag == U8 + Rank(width) :: ReadScalar([tag] + body) == ReadUnsigned(body, width, Size(width))
    ensures forall width | tag == I8 + Rank(width) :: ReadScalar([tag] + body) == ReadSigned(body, width, Size(width))
    ensures tag == STR ==>
      ReadScalar([tag] + body)
        == if ReadBytes(body).Unread? then Unread else Read(TextItem(ReadBytes(body).value), ReadBytes(body).rest)
  {
    hide ReadUnsigned, ReadSigned, ReadBytes;
    assert ([tag] + body)[0] == tag && ([tag] + body)[1..] == body;
  }

  lemma UnsignedScalar(width: Width, n: nat, x: Bytes)
    requires n < Power(Size(width))
    ensures ReadScalar(WriteScalar(UnsignedItem(width, n)) + x) == Read(UnsignedItem(width, n), x)
  {
    UnsignedWritten(width, n, x);
    hide *;
    UnsignedReads(width, n, x);
    Dispatch(U8 + Rank(width), Big(n, Size(width)) + x);
  }

  lemma UnsignedWritten(width: Width, n: nat, x: Bytes)
    ensures WriteScalar(UnsignedItem(width, n)) + x == [U8 + Rank(width)] + (Big(n, Size(width)) + x)
    ensures U8 + Rank(width) < 256
  {
    hide Big;
  }

  lemma SignedScalar(width: Width, i: int, x: Bytes)
    requires 0 - Power(Size(width)) <= 2 * i < Power(Size(width))
    ensures ReadScalar(WriteScalar(SignedItem(width, i)) + x) == Read(SignedItem(width, i), x)
  {
    SignedWritten(width, i, x);
    hide *;
    SignedReads(width, i, x);
    Dispatch(I8 + Rank(width), BigSigned(i, Size(width)) + x);
  }

  lemma SignedWritten(width: Width, i: int, x: Bytes)
    ensures WriteScalar(SignedItem(width, i)) + x == [I8 + Rank(width)] + (BigSigned(i, Size(width)) + x)
    ensures I8 + Rank(width) < 256
  {
    hide BigSigned;
  }

  lemma TextAfter(a: Bytes, b: Bytes, x: Bytes)
    ensures [STR] + a + b + x == [STR] + (a + (b + x))
  {
  }

  lemma TextScalar(utf8: Bytes, x: Bytes)
    requires |utf8| <= U64_MAX
    ensures ReadScalar(WriteScalar(TextItem(utf8)) + x) == Read(TextItem(utf8), x)
  {
    TextWritten(TextItem(utf8));
    hide *;
    BytesRead(utf8, x);
    Dispatch(STR, Big(|utf8|, 8) + (utf8 + x));
    TextAfter(Big(|utf8|, 8), utf8, x);
  }

  /** Decoding by the grammar undoes the encoding, whatever bytes follow. */
  lemma {:induction false} ReadsBack(item: Item, x: Bytes)
    requires Sized(item)
    ensures ReadItem(Write(item) + x) == Read(item, x)
    decreases item, 1, 0
  {
    hide *;
    WriteIs(item, x);
    SizedIs(item);
    match item
    case UnitItem => PlainReads(item, x);
    case AbsentItem => PlainReads(item, x);
    case FlagItem(_) => PlainReads(item, x);
    case PresentItem(inner) =>
      ReadsBack(inner, x);
      PresentReads(Write(inner) + x);
    case BlobItem(bytes) =>
      BytesRead(bytes, x);
      BlobReads(Big(|bytes|, 8) + (bytes + x));
      After([BYTES], Big(|bytes|, 8), bytes + x);
    case ListItem(items) =>
      CountReads(|items|, WriteAll(items) + x);
      AllReads(items, x);
      ListReads(Big(|items|, 8) + (WriteAll(items) + x));
      After([SEQ], Big(|items|, 8), WriteAll(items) + x);
    case MapItem(fields) =>
      var keys := KeysInOrder(fields.Keys);
      MapReadsBack(item, x);
      CountReads(|fields|, WriteEntries(item, keys) + x);
      MapReads(Big(|fields|, 8) + (WriteEntries(item, keys) + x));
      After([MAP], Big(|fields|, 8), WriteEntries(item, keys) + x);
    case VariantItem(name, payload) =>
      ReadsBack(payload, x);
      BytesRead(name, Write(payload) + x);
      VariantReads(Big(|name|, 8) + (name + (Write(payload) + x)));
      After([VARIANT, STR], Big(|name|, 8), name + (Write(payload) + x));
    case _ =>
      ScalarReads(item, x);
      SizedIsScalar(item);
      ScalarItem(item, x);
  }

  lemma PlainReads(item: Item, x: Bytes)
    requires item.UnitItem? || item.AbsentItem? || item.FlagItem?
    ensures ReadItem(Write(item) + x) == Read(item, x)
  {
    assert (Write(item) + x)[1..] == x;
  }

  lemma ScalarItem(item: Item, x: Bytes)
    requires item.UnsignedItem? || item.SignedItem? || item.TextItem?
    requires ReadScalar(WriteScalar(item) + x) == Read(item, x)
    ensures ReadItem(WriteScalar(item) + x) == Read(item, x)
  {
    hide ReadScalar, Big, BigSigned, ReadItems, ReadEntries, ReadBytes, ReadCount;
    ScalarHead(item, x);
    hide WriteScalar;
  }

  lemma PresentReads(body: Bytes)
    ensures var inner := ReadItem(body);
      ReadItem([SOME] + body) == if inner.Unread? then Unread else Read(PresentItem(inner.value), inner.rest)
  {
    assert ([SOME] + body)[1..] == body;
  }

  lemma BlobReads(body: Bytes)
    ensures var blob := ReadBytes(body);
      ReadItem([BYTES] + body) == if blob.Unread? then Unread else Read(BlobItem(blob.value), blob.rest)
  {
    assert ([BYTES] + body)[1..] == body;
  }

  lemma ListReads(body: Bytes)
    requires ReadCount(body).Read?
    ensures var count := ReadCount(body);
      var items := ReadItems(count.value, count.rest);
      ReadItem([SEQ] + body) == if items.Unread? then Unread else Read(ListItem(items.value), items.rest)
  {
    assert ([SEQ] + body)[1..] == body;
  }

  lemma MapReads(body: Bytes)
    requires ReadCount(body).Read?
    ensures var count := ReadCount(body);
      var fields := ReadEntries(count.value, None, count.rest);
      ReadItem([MAP] + body) == if fields.Unread? then Unread else Read(MapItem(fields.value), fields.rest)
  {
    assert ([MAP] + body)[1..] == body;
  }

  lemma VariantReads(body: Bytes)
    requires ReadBytes(body).Read?
    ensures var name := ReadBytes(body);
      var payload := ReadItem(name.rest);
      ReadItem([VARIANT, STR] + body)
        == if payload.Unread? then Unread else Read(VariantItem(name.value, payload.value), payload.rest)
  {
    assert ([VARIANT, STR] + body)[1..] == [STR] + body && ([STR] + body)[1..] == body;
  }

  lemma {:induction false} AllReads(items: seq<Item>, x: Bytes)
    requires forall i | 0 <= i < |items| :: Sized(items[i])
    ensures ReadItems(|items|, WriteAll(items) + x) == Read(items, x)
    decreases items, 0, 0
  {
    hide ReadItem, Write, Sized;
    if items == [] {
      assert WriteAll(items) + x == x;
    } else {
      assert WriteAll(items) + x == Write(items[0]) + (WriteAll(items[1..]) + x);
      ReadsBack(items[0], WriteAll(items[1..]) + x);
      AllReads(items[1..], x);
      assert items == [items[0]] + items[1..];
    }
  }

  lemma {:induction false} MapReadsBack(item: Item, x: Bytes)
    requires item.MapItem? && Sized(item)
    ensures var keys := KeysInOrder(item.fields.Keys);
      && |keys| == |item.fields|
      && ReadEntries(|item.fields|, None, WriteEntries(item, keys) + x) == Read(item.fields, x)
    decreases item, 0, |item.fields| + 1
  {
    hide *;
    var keys := KeysInOrder(item.fields.Keys);
    SizedIs(item);
    EntriesRead(item, None, keys, x);
    KeysCover(item.fields, keys);
  }

  /** The part of a map under some of its keys. */
  function Under(fields: map<Bytes, Item>, keys: seq<Bytes>): map<Bytes, Item> {
    map k | k in fields && k in keys :: fields[k]
  }

  lemma KeysCover(fields: map<Bytes, Item>, keys: seq<Bytes>)
    requires Elements(keys) == fields.Keys && |keys| == |fields.Keys|
    ensures Under(fields, keys) == fields && |keys| == |fields|
  {
    forall k | k in fields ensures k in keys {
      assert k in Elements(keys);
    }
  }

  lemma {:induction false} EntriesRead(item: Item, last: Option<Bytes>, keys: seq<Bytes>, x: Bytes)
    requires item.MapItem? && Ascends(ByteLess, keys)
    requires forall k | k in keys :: k in item.fields && KeyOf(k) && Sized(item.fields[k])
    requires last.Some? && keys != [] ==> ByteLess(last.value, keys[0])
    ensures ReadEntries(|keys|, last, WriteEntries(item, keys) + x) == Read(Under(item.fields, keys), x)
    decreases item, 0, |keys|
  {
    hide *;
    if keys == [] {
      NoEntries(item, last, x);
    } else {
      var k, rest := keys[0], keys[1..];
      LaterKeys(keys);
      var after := WriteEntries(item, rest) + x;
      EntriesHead(item, keys, x);
      KeyReads(k, Write(item.fields[k]) + after);
      ReadsBack(item.fields[k], after);
      EntriesRead(item, Some(k), rest, x);
      EntryReads(|keys|, last, k, Write(item.fields[k]) + after);
      UnderMore(item.fields, keys);
    }
  }

  lemma NoEntries(item: Item, last: Option<Bytes>, x: Bytes)
    requires item.MapItem?
    ensures ReadEntries(0, last, WriteEntries(item, []) + x) == Read(Under(item.fields, []), x)
  {
    assert WriteEntries(item, []) + x == x;
  }

  lemma LaterKeys(keys: seq<Bytes>)
    requires keys != [] && Ascends(ByteLess, keys)
    ensures Ascends(ByteLess, keys[1..]) && keys[0] in keys && |keys[1..]| == |keys| - 1
    ensures keys[1..] != [] ==> ByteLess(keys[0], keys[1..][0])
    ensures forall k | k in keys[1..] :: k in keys
  {
    hide ByteLess;
  }

  lemma UnderMore(fields: map<Bytes, Item>, keys: seq<Bytes>)
    requires keys != [] && keys[0] in fields
    ensures Under(fields, keys) == Under(fields, keys[1..])[keys[0] := fields[keys[0]]]
  {
    assert keys == [keys[0]] + keys[1..];
  }

  lemma KeyReads(k: Bytes, x: Bytes)
    requires KeyOf(k)
    ensures k != [] && ReadScalar(k + x).Read? && ReadScalar(k + x).rest == x
  {
    hide SizedScalar, WriteScalar, ReadScalar;
    var item :| SizedScalar(item) && k == WriteScalar(item);
    ScalarReads(item, x);
    SizedIsScalar(item);
    ScalarHead(item, []);
    assert k + [] == k;
  }

  lemma EntryReads(n: nat, last: Option<Bytes>, k: Bytes, x: Bytes)
    requires n > 0 && k != [] && ReadScalar(k + x).Read? && ReadScalar(k + x).rest == x
    requires last.Some? ==> ByteLess(last.value, k)
    ensures var value := ReadItem(x);
      ReadEntries(n, last, k + x)
        == if value.Unread? then Unread
           else
             var others := ReadEntries(n - 1, Some(k), value.rest);
             if others.Unread? then Unread else Read(others.value[k := value.value], others.rest)
  {
    hide ReadScalar, ReadItem, ByteLess;
    assert (k + x)[..|k + x| - |x|] == k;
  }
}
