/** The canonical encoding of an operation, and that it stands for exactly the
    operation's index, transition and content, members in identity order. */
module Operations {
  import opened Options
  import opened Orders
  import T = Texts
  import opened Records
  import opened Identifiers
  import opened Encoding
  import opened Items
  import C = Canonical
  import HnswGraph

  // ---------- text ----------

  /** The UTF-8 encoding of one character (section 3 of RFC 3629). */
  function Utf8Char(c: char): (r: Bytes)
    ensures r != []
  {
    var n := c as int;
    if n < 0x80 then [n]
    else if n < 0x800 then [0xc0 + n / 64, 0x80 + n % 64]
    else if n < 0x10000 then [0xe0 + n / 4096, 0x80 + n / 64 % 64, 0x80 + n % 64]
    else [0xf0 + n / 262144, 0x80 + n / 4096 % 64, 0x80 + n / 64 % 64, 0x80 + n % 64]
  }

  function Utf8(s: string): Bytes {
    if s == "" then [] else Utf8Char(s[0]) + Utf8(s[1..])
  }

  lemma CharLength(c: char)
    ensures var r := Utf8Char(c); var n := c as int;
      && (n < 0x80 <==> r[0] < 0x80)
      && (0x80 <= n < 0x800 <==> 0xc0 <= r[0] < 0xe0)
      && (0x800 <= n < 0x10000 <==> 0xe0 <= r[0] < 0xf0)
      && (0x10000 <= n <==> 0xf0 <= r[0])
      && |r| == (if n < 0x80 then 1 else if n < 0x800 then 2 else if n < 0x10000 then 3 else 4)
  {
  }

  /** The lead byte tells the length, every later byte starts with the bits 10,
      and the remaining bits spell the code point. */
  lemma CharSpells(c: char)
    ensures var r, n := Utf8Char(c), c as int;
      && |r| == (if n <= 0x7f then 1 else if n <= 0x7ff then 2 else if n <= 0xffff then 3 else 4)
      && (forall i | 0 < i < |r| :: r[i] / 64 == 2)
      && (|r| == 1 ==> n == Bits7(r[0]) && r[0] / 128 == 0)
      && (|r| == 2 ==> r[0] / 32 == 6 && n == Bits5(r[0]) * 64 + Bits6(r[1]))
      && (|r| == 3 ==> r[0] / 16 == 14 && n == Bits4(r[0]) * 4096 + Bits6(r[1]) * 64 + Bits6(r[2]))
      && (|r| == 4 ==> r[0] / 8 == 30 && n == Bits3(r[0]) * 262144 + Bits6(r[1]) * 4096 + Bits6(r[2]) * 64 + Bits6(r[3]))
  {
    CharLength(c);
    CharBytes(c);
    hide Utf8Char;
    var r, n := Utf8Char(c), c as int;
    if |r| == 2 {
      TwoBytes(n, r[0], r[1]);
    } else if |r| == 3 {
      ThreeBytes(n, r[0], r[1], r[2]);
    } else if |r| == 4 {
      FourBytes(n, r[0], r[1], r[2], r[3]);
    }
    hide Bits3, Bits4, Bits5, Bits6;
  }

  /** A later byte carries six bits. */
  lemma LaterByte(n: nat, b: Byte)
    requires b == 0x80 + n % 64
    ensures b / 64 == 2 && Bits6(b) == n % 64
  {
  }

  lemma TwoBytes(n: nat, a: Byte, b: Byte)
    requires 0x80 <= n < 0x800 && a == 0xc0 + n / 64 && b == 0x80 + n % 64
    ensures a / 32 == 6 && b / 64 == 2 && n == Bits5(a) * 64 + Bits6(b)
  {
    LaterByte(n, b);
    hide Bits6;
  }

  lemma ThreeBytes(n: nat, a: Byte, b: Byte, c: Byte)
    requires 0x800 <= n < 0x10000 && a == 0xe0 + n / 4096 && b == 0x80 + n / 64 % 64 && c == 0x80 + n % 64
    ensures a / 16 == 14 && b / 64 == 2 && c / 64 == 2 && n == Bits4(a) * 4096 + Bits6(b) * 64 + Bits6(c)
  {
    LaterByte(n / 64, b);
    LaterByte(n, c);
    hide Bits6;
    Sixes(n);
  }

  lemma FourBytes(n: nat, a: Byte, b: Byte, c: Byte, d: Byte)
    requires 0x10000 <= n < 0x110000 && a == 0xf0 + n / 262144
    requires b == 0x80 + n / 4096 % 64 && c == 0x80 + n / 64 % 64 && d == 0x80 + n % 64
    ensures a / 8 == 30 && b / 64 == 2 && c / 64 == 2 && d / 64 == 2
    ensures n == Bits3(a) * 262144 + Bits6(b) * 4096 + Bits6(c) * 64 + Bits6(d)
  {
    LaterByte(n / 4096, b);
    LaterByte(n / 64, c);
    LaterByte(n, d);
    hide Bits6;
    Sixes(n);
  }

  function Bits3(b: Byte): nat { b % 8 }
  function Bits4(b: Byte): nat { b % 16 }
  function Bits5(b: Byte): nat { b % 32 }
  function Bits6(b: Byte): nat { b % 64 }
  function Bits7(b: Byte): nat { b % 128 }

  lemma CharOnce(c: char, d: char, x: Bytes, y: Bytes)
    requires Utf8Char(c) + x == Utf8Char(d) + y
    ensures c == d && x == y
  {
    CharLength(c);
    CharLength(d);
    assert (Utf8Char(c) + x)[0] == Utf8Char(c)[0] && (Utf8Char(d) + y)[0] == Utf8Char(d)[0];
    assert |Utf8Char(c)| == |Utf8Char(d)|;
    Cut(Utf8Char(c), x, Utf8Char(d), y);
    SameChar(c, d);
  }

  lemma Sixes(n: nat)
    ensures n == n / 64 * 64 + n % 64
    ensures n == n / 4096 * 4096 + n / 64 % 64 * 64 + n % 64
    ensures n == n / 262144 * 262144 + n / 4096 % 64 * 4096 + n / 64 % 64 * 64 + n % 64
  {
    assert n / 64 / 64 == n / 4096 && n / 4096 / 64 == n / 262144;
  }

  lemma SameChar(c: char, d: char)
    requires Utf8Char(c) == Utf8Char(d)
    ensures c == d
  {
    CharLength(c);
    CharLength(d);
    CharBytes(c);
    CharBytes(d);
    hide Utf8Char;
    Sixes(c as int);
    Sixes(d as int);
    assert c as int == d as int;
  }

  lemma CharBytes(c: char)
    ensures var r := Utf8Char(c); var n := c as int;
      && (|r| == 1 ==> r[0] == n)
      && (|r| == 2 ==> r[0] == 0xc0 + n / 64 && r[1] == 0x80 + n % 64)
      && (|r| == 3 ==> r[0] == 0xe0 + n / 4096 && r[1] == 0x80 + n / 64 % 64 && r[2] == 0x80 + n % 64)
      && (|r| == 4 ==>
            r[0] == 0xf0 + n / 262144 && r[1] == 0x80 + n / 4096 % 64 && r[2] == 0x80 + n / 64 % 64 && r[3] == 0x80 + n % 64)
  {
  }

  lemma {:induction false} Utf8Once(s: string, t: string)
    requires Utf8(s) == Utf8(t)
    ensures s == t
  {
    hide Utf8Char;
    if s != "" && t != "" {
      CharOnce(s[0], t[0], Utf8(s[1..]), Utf8(t[1..]));
      Utf8Once(s[1..], t[1..]);
      assert s == [s[0]] + s[1..] && t == [t[0]] + t[1..];
    }
  }

  // ---------- what an operation emits ----------

  /** How a consumer's own values serialize. */
  datatype Codec = Codec(member: Member -> Value, provenance: Provenance -> Value, retention: Retention -> Value)

  /** Different values stand for different items. */
  ghost predicate Faithful(codec: Codec) {
    && (forall a, b :: Tells(codec.member(a), codec.member(b)) ==> a == b)
    && (forall a, b :: Tells(codec.provenance(a), codec.provenance(b)) ==> a == b)
    && (forall a, b :: Tells(codec.retention(a), codec.retention(b)) ==> a == b)
  }

  /** Both values stand for one and the same item. */
  predicate Tells(v: Value, w: Value) {
    Meaning(v).Some? && Meaning(v) == Meaning(w)
  }

  function TextValue(s: string): Value {
    Text(Utf8(s))
  }

  function Named(name: string, value: Value): Field {
    Field(TextValue(name), value)
  }

  function IndexValue(index: Index): Value {
    Dict([Named("namespace", TextValue(index.namespace)), Named("name", TextValue(index.name))])
  }

  function TransitionName(transition: Transition): string {
    match transition
    case CreateT => "Create"
    case InsertT => "Insert"
    case RemoveT => "Remove"
    case RebuildT => "Rebuild"
    case DestroyT => "Destroy"
  }

  function DistanceName(distance: HnswGraph.VectorDistance): string {
    match distance
    case L2 => "L2"
    case Cosine => "Cosine"
    case InnerProduct => "InnerProduct"
  }

  function TextValues(s: seq<string>): (r: seq<Value>)
    ensures |r| == |s| && forall i | 0 <= i < |r| :: r[i] == TextValue(s[i])
  {
    seq(|s|, i requires 0 <= i < |s| => TextValue(s[i]))
  }

  function AnalyzerValue(analyzer: TokenizerConfig): Value {
    Dict([Named("name", TextValue(analyzer.name)), Named("args", List(TextValues(analyzer.args)))])
  }

  function Analyzers(s: seq<TokenizerConfig>): (r: seq<Value>)
    ensures |r| == |s| && forall i | 0 <= i < |r| :: r[i] == AnalyzerValue(s[i])
  {
    seq(|s|, i requires 0 <= i < |s| => AnalyzerValue(s[i]))
  }

  function HnswFields(hnsw: HnswGraph.Config): seq<Field> {
    [Named("dimensions", Unsigned(W64, hnsw.dimensions)),
     Named("distance", TextValue(DistanceName(hnsw.distance))),
     Named("ef_construction", Unsigned(W64, hnsw.efConstruction)),
     Named("m_neighbours", Unsigned(W64, hnsw.mNeighbours))]
  }

  function FtsFields(fts: FtsConfig): seq<Field> {
    [Named("tokenizer", AnalyzerValue(fts.tokenizer)), Named("filters", List(Analyzers(fts.filters)))]
  }

  function ConfigValue(config: IndexConfig): Value {
    match config
    case Vector(hnsw) => Variant(Utf8("Vector"), Dict(HnswFields(hnsw)))
    case Fts(fts) => Variant(Utf8("Fts"), Dict(FtsFields(fts)))
  }

  /** A vector as the bit patterns of its components. */
  function Bits(vector: HnswGraph.Vector): (r: seq<Value>)
    ensures |r| == |vector| && forall i | 0 <= i < |r| :: r[i] == Unsigned(W32, vector[i])
  {
    seq(|vector|, i requires 0 <= i < |vector| => Unsigned(W32, vector[i]))
  }

  function ContentValue(content: Content): Value {
    match content
    case VectorContent(vector) => Variant(Utf8("vector_bits"), List(Bits(vector)))
    case Document(text) => Variant(Utf8("document"), TextValue(text))
  }

  function MemberFields(codec: Codec, member: IndexMember): seq<Field> {
    [Named("id", codec.member(member.id)), Named("provenance", codec.provenance(member.provenance)),
     Named("content", ContentValue(member.content))]
  }

  function Members(codec: Codec, members: seq<IndexMember>): (r: seq<Value>)
    ensures |r| == |members| && forall i | 0 <= i < |r| :: r[i] == Dict(MemberFields(codec, members[i]))
  {
    seq(|members|, i requires 0 <= i < |members| => Dict(MemberFields(codec, members[i])))
  }

  function MemberIds(codec: Codec, ids: seq<Member>): (r: seq<Value>)
    ensures |r| == |ids| && forall i | 0 <= i < |r| :: r[i] == codec.member(ids[i])
  {
    seq(|ids|, i requires 0 <= i < |ids| => codec.member(ids[i]))
  }

  /** A change by its fields alone, members in identity order. */
  function ChangeFields(codec: Codec, change: Change): seq<Field> {
    match change
    case Create(config) => [Named("config", ConfigValue(config))]
    case Insert(members) => [Named("members", List(Members(codec, SortedMembers(members))))]
    case Remove(ids) => [Named("members", List(MemberIds(codec, SortedIds(ids))))]
    case Rebuild(config, members) =>
      [Named("config", ConfigValue(config)), Named("members", List(Members(codec, SortedMembers(members))))]
    case Destroy(retention) => [Named("retention", codec.retention(retention))]
  }

  function OperationFields(codec: Codec, operation: Operation): seq<Field> {
    [Named("index", IndexValue(operation.index)),
     Named("transition", TextValue(TransitionName(TransitionOf(operation.change)))),
     Named("change", Dict(ChangeFields(codec, operation.change)))]
  }

  function OperationValue(codec: Codec, operation: Operation): Value {
    Dict(OperationFields(codec, operation))
  }

  // ---------- equal items have equal parts ----------

  /** Two structs of the same field names that stand for one item agree field by
      field. */
  lemma SameStruct(fs: seq<Field>, gs: seq<Field>, j: nat)
    requires Tells(Dict(fs), Dict(gs)) && j < |fs| && j < |gs| && fs[j].key == gs[j].key
    ensures Tells(fs[j].value, gs[j].value)
  {
    hide *;
    C.DictIsMap(fs);
    C.DictIsMap(gs);
    TellsIs(Dict(fs), Dict(gs));
    C.FieldsHold(fs, j);
    C.FieldsHold(gs, j);
    TellsIs(fs[j].value, gs[j].value);
  }

  lemma TellsIs(v: Value, w: Value)
    ensures Tells(v, w) <==> Meaning(v).Some? && Meaning(v) == Meaning(w)
  {
    hide Meaning;
  }

  lemma {:induction false} AllHold(items: seq<Value>, j: nat)
    requires MeaningAll(items).Some? && j < |items|
    ensures |MeaningAll(items).value| == |items|
    ensures Meaning(items[j]).Some? && MeaningAll(items).value[j] == Meaning(items[j]).value
    decreases |items|
  {
    hide Meaning;
    C.MeaningCounts(items);
    C.MeaningCounts(items[..|items| - 1]);
    if j < |items| - 1 {
      AllHold(items[..|items| - 1], j);
    }
  }

  /** Two lists that stand for one item are equally long and agree throughout. */
  lemma SameList(xs: seq<Value>, ys: seq<Value>)
    requires Tells(List(xs), List(ys))
    ensures |xs| == |ys| && forall i | 0 <= i < |xs| :: Tells(xs[i], ys[i])
  {
    C.MeaningCounts(xs);
    C.MeaningCounts(ys);
    assert MeaningAll(xs).Some? && MeaningAll(xs) == MeaningAll(ys);
    hide Meaning, MeaningAll;
    forall i | 0 <= i < |xs| ensures Tells(xs[i], ys[i]) {
      AllHold(xs, i);
      AllHold(ys, i);
    }
  }

  lemma SameText(s: string, t: string)
    requires Tells(TextValue(s), TextValue(t))
    ensures s == t
  {
    hide Utf8;
    Utf8Once(s, t);
  }

  lemma SameVariant(a: Bytes, p: Value, b: Bytes, q: Value)
    requires Tells(Variant(a, p), Variant(b, q))
    ensures a == b && Tells(p, q)
  {
  }

  lemma SameIndex(a: Index, b: Index)
    requires Tells(IndexValue(a), IndexValue(b))
    ensures a == b
  {
    hide *;
    IndexFields(a);
    IndexFields(b);
    var fs := [Named("namespace", TextValue(a.namespace)), Named("name", TextValue(a.name))];
    var gs := [Named("namespace", TextValue(b.namespace)), Named("name", TextValue(b.name))];
    NamedIs("namespace", TextValue(a.namespace));
    NamedIs("namespace", TextValue(b.namespace));
    NamedIs("name", TextValue(a.name));
    NamedIs("name", TextValue(b.name));
    SameStruct(fs, gs, 0);
    SameStruct(fs, gs, 1);
    SameText(a.namespace, b.namespace);
    SameText(a.name, b.name);
  }

  lemma IndexFields(a: Index)
    ensures IndexValue(a) == Dict([Named("namespace", TextValue(a.namespace)), Named("name", TextValue(a.name))])
  {
    hide Named, TextValue;
  }

  lemma NamedIs(name: string, value: Value)
    ensures Named(name, value) == Field(TextValue(name), value)
  {
    hide TextValue;
  }

  lemma SameTexts(s: seq<string>, t: seq<string>)
    requires Tells(List(TextValues(s)), List(TextValues(t)))
    ensures s == t
  {
    SameList(TextValues(s), TextValues(t));
    hide Tells, TextValue, TextValues;
    forall i | 0 <= i < |s| ensures s[i] == t[i] {
      assert Tells(TextValues(s)[i], TextValues(t)[i]);
      SameText(s[i], t[i]);
    }
  }

  lemma SameAnalyzer(a: TokenizerConfig, b: TokenizerConfig)
    requires Tells(AnalyzerValue(a), AnalyzerValue(b))
    ensures a == b
  {
    var fs := [Named("name", TextValue(a.name)), Named("args", List(TextValues(a.args)))];
    var gs := [Named("name", TextValue(b.name)), Named("args", List(TextValues(b.args)))];
    assert AnalyzerValue(a) == Dict(fs) && AnalyzerValue(b) == Dict(gs);
    hide Tells, TextValue, TextValues;
    SameStruct(fs, gs, 0);
    SameStruct(fs, gs, 1);
    SameText(a.name, b.name);
    SameTexts(a.args, b.args);
  }

  lemma SameAnalyzers(s: seq<TokenizerConfig>, t: seq<TokenizerConfig>)
    requires Tells(List(Analyzers(s)), List(Analyzers(t)))
    ensures s == t
  {
    SameList(Analyzers(s), Analyzers(t));
    hide Tells, AnalyzerValue, Analyzers;
    forall i | 0 <= i < |s| ensures s[i] == t[i] {
      assert Tells(Analyzers(s)[i], Analyzers(t)[i]);
      SameAnalyzer(s[i], t[i]);
    }
  }

  lemma SameHnsw(a: HnswGraph.Config, b: HnswGraph.Config)
    requires Tells(Dict(HnswFields(a)), Dict(HnswFields(b)))
    ensures a == b
  {
    var fs, gs := HnswFields(a), HnswFields(b);
    hide Tells, TextValue, DistanceName;
    SameStruct(fs, gs, 0);
    SameStruct(fs, gs, 1);
    SameStruct(fs, gs, 2);
    SameStruct(fs, gs, 3);
    SameNumber(a.dimensions, b.dimensions);
    SameNumber(a.efConstruction, b.efConstruction);
    SameNumber(a.mNeighbours, b.mNeighbours);
    SameText(DistanceName(a.distance), DistanceName(b.distance));
    DistancesDiffer(a.distance, b.distance);
  }

  lemma SameNumber(n: nat, m: nat)
    requires Tells(Unsigned(W64, n), Unsigned(W64, m))
    ensures n == m
  {
  }

  lemma DistancesDiffer(a: HnswGraph.VectorDistance, b: HnswGraph.VectorDistance)
    requires DistanceName(a) == DistanceName(b)
    ensures a == b
  {
    assert |DistanceName(a)| == |DistanceName(b)|;
  }

  lemma SameFts(a: FtsConfig, b: FtsConfig)
    requires Tells(Dict(FtsFields(a)), Dict(FtsFields(b)))
    ensures a == b
  {
    var fs, gs := FtsFields(a), FtsFields(b);
    hide Tells, TextValue, AnalyzerValue, Analyzers;
    SameStruct(fs, gs, 0);
    SameStruct(fs, gs, 1);
    SameAnalyzer(a.tokenizer, b.tokenizer);
    SameAnalyzers(a.filters, b.filters);
  }

  lemma SameConfig(a: IndexConfig, b: IndexConfig)
    requires Tells(ConfigValue(a), ConfigValue(b))
    ensures a == b
  {
    var v, w := ConfigValue(a), ConfigValue(b);
    assert v.Variant? && w.Variant?;
    hide Tells, HnswFields, FtsFields, Utf8;
    SameVariant(v.name, v.payload, w.name, w.payload);
    FamiliesDiffer();
    if a.Vector? && b.Vector? {
      SameHnsw(a.hnsw, b.hnsw);
    } else if a.Fts? && b.Fts? {
      SameFts(a.fts, b.fts);
    }
  }

  lemma FamiliesDiffer()
    ensures Utf8("Vector") != Utf8("Fts") && Utf8("vector_bits") != Utf8("document")
  {
    hide Utf8;
    if Utf8("Vector") == Utf8("Fts") {
      Utf8Once("Vector", "Fts");
      assert false;
    }
    if Utf8("vector_bits") == Utf8("document") {
      Utf8Once("vector_bits", "document");
      assert false;
    }
  }

  lemma SameBits(v: HnswGraph.Vector, w: HnswGraph.Vector)
    requires Tells(List(Bits(v)), List(Bits(w)))
    ensures v == w
  {
    SameList(Bits(v), Bits(w));
    forall i | 0 <= i < |v| ensures v[i] == w[i] {
      assert Tells(Bits(v)[i], Bits(w)[i]);
    }
  }

  lemma SameContent(a: Content, b: Content)
    requires Tells(ContentValue(a), ContentValue(b))
    ensures a == b
  {
    var v, w := ContentValue(a), ContentValue(b);
    assert v.Variant? && w.Variant?;
    hide Tells, Bits, Utf8, TextValue;
    SameVariant(v.name, v.payload, w.name, w.payload);
    FamiliesDiffer();
    if a.VectorContent? && b.VectorContent? {
      SameBits(a.vector, b.vector);
    } else if a.Document? && b.Document? {
      SameText(a.text, b.text);
    }
  }

  lemma SameMember(codec: Codec, a: IndexMember, b: IndexMember)
    requires Faithful(codec) && Tells(Dict(MemberFields(codec, a)), Dict(MemberFields(codec, b)))
    ensures a == b
  {
    var fs, gs := MemberFields(codec, a), MemberFields(codec, b);
    hide Tells, TextValue, ContentValue;
    SameStruct(fs, gs, 0);
    SameStruct(fs, gs, 1);
    SameStruct(fs, gs, 2);
    SameContent(a.content, b.content);
    assert Tells(codec.member(a.id), codec.member(b.id));
    assert Tells(codec.provenance(a.provenance), codec.provenance(b.provenance));
  }

  lemma SameListing(codec: Codec, s: seq<IndexMember>, t: seq<IndexMember>)
    requires Faithful(codec) && Tells(List(Members(codec, s)), List(Members(codec, t)))
    ensures s == t
  {
    SameList(Members(codec, s), Members(codec, t));
    hide Tells, MemberFields, Members, Faithful;
    forall i | 0 <= i < |s| ensures s[i] == t[i] {
      assert Tells(Members(codec, s)[i], Members(codec, t)[i]);
      SameMember(codec, s[i], t[i]);
    }
  }

  lemma SameIds(codec: Codec, s: seq<Member>, t: seq<Member>)
    requires Faithful(codec) && Tells(List(MemberIds(codec, s)), List(MemberIds(codec, t)))
    ensures s == t
  {
    SameList(MemberIds(codec, s), MemberIds(codec, t));
    hide Tells, MemberIds;
    forall i | 0 <= i < |s| ensures s[i] == t[i] {
      assert Tells(MemberIds(codec, s)[i], MemberIds(codec, t)[i]);
      assert Tells(codec.member(s[i]), codec.member(t[i]));
    }
  }

  /** Changes of one transition that stand for one item have the same content up
      to member order. */
  lemma SameChange(codec: Codec, a: Change, b: Change)
    requires Faithful(codec) && TransitionOf(a) == TransitionOf(b)
    requires Tells(Dict(ChangeFields(codec, a)), Dict(ChangeFields(codec, b)))
    ensures Canonical(a) == Canonical(b)
  {
    hide Tells, TextValue, ConfigValue, Members, MemberIds, SortedMembers, SortedIds, Faithful;
    var fs, gs := ChangeFields(codec, a), ChangeFields(codec, b);
    SameStruct(fs, gs, 0);
    match a
    case Create(config) => SameConfig(config, b.config);
    case Insert(members) => SameListing(codec, SortedMembers(members), SortedMembers(b.members));
    case Remove(ids) => SameIds(codec, SortedIds(ids), SortedIds(b.ids));
    case Rebuild(config, members) =>
      SameConfig(config, b.config);
      SameStruct(fs, gs, 1);
      SameListing(codec, SortedMembers(members), SortedMembers(b.members));
    case Destroy(retention) => SameRetention(codec, retention, b.retention);
  }

  lemma SameRetention(codec: Codec, a: Retention, b: Retention)
    requires Faithful(codec) && Tells(codec.retention(a), codec.retention(b))
    ensures a == b
  {
    hide Tells;
  }

  lemma TransitionsDiffer(a: Transition, b: Transition)
    requires TransitionName(a) == TransitionName(b)
    ensures a == b
  {
    assert TransitionName(a)[0] == TransitionName(b)[0];
    assert TransitionName(a)[2] == TransitionName(b)[2];
  }

  /** Operations that stand for one item have the same index and the same
      content up to member order. */
  lemma SameOperation(codec: Codec, a: Operation, b: Operation)
    requires Faithful(codec) && Tells(OperationValue(codec, a), OperationValue(codec, b))
    ensures a.index == b.index && Canonical(a.change) == Canonical(b.change)
  {
    hide Tells, TextValue, IndexValue, TransitionName, ChangeFields, Records.Canonical, Faithful;
    var fs, gs := OperationFields(codec, a), OperationFields(codec, b);
    SameStruct(fs, gs, 0);
    SameStruct(fs, gs, 1);
    SameStruct(fs, gs, 2);
    SameIndex(a.index, b.index);
    SameText(TransitionName(TransitionOf(a.change)), TransitionName(TransitionOf(b.change)));
    TransitionsDiffer(TransitionOf(a.change), TransitionOf(b.change));
    SameChange(codec, a.change, b.change);
  }

  /** The canonical change alone decides what is emitted. */
  lemma EmittedAlike(codec: Codec, a: Operation, b: Operation)
    requires a.index == b.index && Canonical(a.change) == Canonical(b.change)
    ensures OperationValue(codec, a) == OperationValue(codec, b)
  {
    hide Named, ConfigValue, Members, MemberIds, SortedMembers, SortedIds, IndexValue, TextValue, TransitionName;
  }

  /** Two operations have equal canonical bytes exactly when their digests name
      the same content: same index, same change, members in any order. */
  lemma BytesAreContent(codec: Codec, a: Operation, b: Operation)
    requires Faithful(codec)
    requires C.Typed(OperationValue(codec, a)) && C.Typed(OperationValue(codec, b))
    requires Encode(OperationValue(codec, a)).Done? && Encode(OperationValue(codec, b)).Done?
    ensures Encode(OperationValue(codec, a)).bytes == Encode(OperationValue(codec, b)).bytes
      <==> IdentityOf(a).digest == IdentityOf(b).digest
  {
    hide *;
    C.BytesMeanValues(OperationValue(codec, a), OperationValue(codec, b));
    TellsIs(OperationValue(codec, a), OperationValue(codec, b));
    DigestIs(a);
    DigestIs(b);
    if Tells(OperationValue(codec, a), OperationValue(codec, b)) {
      SameOperation(codec, a, b);
    }
    if IdentityOf(a).digest == IdentityOf(b).digest {
      EmittedAlike(codec, a, b);
    }
  }

  lemma DigestIs(a: Operation)
    ensures IdentityOf(a).digest == Digest(a.index, Canonical(a.change))
  {
    hide Records.Canonical;
  }

  // ---------- numbers held as text ----------

  lemma {:induction false} PlainReads(n: nat)
    ensures Plain(n) != "" && T.AllDigits(Plain(n)) && T.Value(Plain(n)) == n
  {
    if n >= 10 {
      PlainReads(n / 10);
      var s := Plain(n);
      assert s[..|s| - 1] == Plain(n / 10);
    }
  }

  /** An arbitrary-precision number is the integer it is exactly the decimal
      text of, in the type the default build would hold it in; any other text is
      refused as a float. */
  lemma NumberText(text: string, n: nat)
    ensures NumberValue(text) == Unsigned(W64, n) <==> n <= U64_MAX && text == Plain(n)
    ensures NumberValue(text) == Signed(W64, -(n as int)) <==>
      1 <= n <= 0x8000_0000_0000_0000 && text == "-" + Plain(n)
  {
    hide Plain, T.Value;
    PlainReads(n);
    if text == Plain(n) {
      assert T.IsDigit(text[0]);
    }
    if text == "-" + Plain(n) {
      assert text[1..] == Plain(n);
    }
    if text != "" && text[0] == '-' {
      if ParseWhole(text) >= 0 {
        assert !T.IsDigit(text[0]);
      }
    }
  }
}
