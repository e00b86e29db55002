/** The item an operation is hashed as, read against its documented schema:
    which fields it has, under which names, and what each holds. */
module OperationItems {
  import opened Options
  import opened Records
  import opened Encoding
  import opened Items
  import opened Operations
  import opened Grammar
  import C = Canonical
  import HnswGraph

  /** A struct of `size` fields. */
  predicate Struct(item: Item, size: nat) {
    item.MapItem? && |item.fields| == size
  }

  /** The field `name` of a struct holds what `value` stands for. */
  predicate Holds(item: Item, name: string, value: Value) {
    && item.MapItem? && Write(TextItem(Utf8(name))) in item.fields
    && Meaning(value) == Some(item.fields[Write(TextItem(Utf8(name)))])
  }

  /** The field `name` of a struct, if it has one. */
  function At(item: Item, name: string): Option<Item> {
    if item.MapItem? && Write(TextItem(Utf8(name))) in item.fields
    then Some(item.fields[Write(TextItem(Utf8(name)))])
    else None
  }

  predicate TextAt(item: Item, name: string, text: string) {
    At(item, name) == Some(TextItem(Utf8(text)))
  }

  predicate NumberAt(item: Item, name: string, n: nat) {
    At(item, name) == Some(UnsignedItem(W64, n))
  }

  ghost predicate IsIndex(item: Item, index: Index) {
    Struct(item, 2) && TextAt(item, "namespace", index.namespace) && TextAt(item, "name", index.name)
  }

  ghost predicate AreTexts(item: Item, texts: seq<string>) {
    item.ListItem? && |item.items| == |texts| && forall i | 0 <= i < |texts| :: item.items[i] == TextItem(Utf8(texts[i]))
  }

  ghost predicate IsAnalyzer(item: Item, analyzer: TokenizerConfig) {
    && Struct(item, 2) && TextAt(item, "name", analyzer.name)
    && At(item, "args").Some? && AreTexts(At(item, "args").value, analyzer.args)
  }

  ghost predicate AreAnalyzers(item: Item, analyzers: seq<TokenizerConfig>) {
    item.ListItem? && |item.items| == |analyzers| && forall i | 0 <= i < |analyzers| :: IsAnalyzer(item.items[i], analyzers[i])
  }

  ghost predicate IsHnsw(item: Item, hnsw: HnswGraph.Config) {
    && Struct(item, 4)
    && NumberAt(item, "dimensions", hnsw.dimensions)
    && TextAt(item, "distance", match hnsw.distance case L2 => "L2" case Cosine => "Cosine" case InnerProduct => "InnerProduct")
    && NumberAt(item, "ef_construction", hnsw.efConstruction)
    && NumberAt(item, "m_neighbours", hnsw.mNeighbours)
  }

  ghost predicate IsFts(item: Item, fts: FtsConfig) {
    && Struct(item, 2)
    && At(item, "tokenizer").Some? && IsAnalyzer(At(item, "tokenizer").value, fts.tokenizer)
    && At(item, "filters").Some? && AreAnalyzers(At(item, "filters").value, fts.filters)
  }

  ghost predicate IsConfig(item: Item, config: IndexConfig) {
    item.VariantItem? &&
    match config
    case Vector(hnsw) => item.name == Utf8("Vector") && IsHnsw(item.payload, hnsw)
    case Fts(fts) => item.name == Utf8("Fts") && IsFts(item.payload, fts)
  }

  ghost predicate IsContent(item: Item, content: Content) {
    item.VariantItem? &&
    match content
    case VectorContent(vector) =>
      && item.name == Utf8("vector_bits") && item.payload.ListItem? && |item.payload.items| == |vector|
      && forall i | 0 <= i < |vector| :: item.payload.items[i] == UnsignedItem(W32, vector[i])
    case Document(text) => item.name == Utf8("document") && item.payload == TextItem(Utf8(text))
  }

  ghost predicate IsMember(codec: Codec, item: Item, member: IndexMember) {
    && Struct(item, 3) && Holds(item, "id", codec.member(member.id))
    && Holds(item, "provenance", codec.provenance(member.provenance))
    && At(item, "content").Some? && IsContent(At(item, "content").value, member.content)
  }

  /** The members of a batch, by ascending identity. */
  ghost predicate AreMembers(codec: Codec, item: Item, members: seq<IndexMember>) {
    && item.ListItem? && |item.items| == |members|
    && exists sorted: seq<IndexMember> ::
         && multiset(sorted) == multiset(members) && |sorted| == |members|
         && (forall i, j | 0 <= i < j < |sorted| :: sorted[i].id <= sorted[j].id)
         && forall i | 0 <= i < |sorted| :: IsMember(codec, item.items[i], sorted[i])
  }

  ghost predicate AreIds(codec: Codec, item: Item, ids: seq<Member>) {
    && item.ListItem? && |item.items| == |ids|
    && exists sorted: seq<Member> ::
         && multiset(sorted) == multiset(ids) && |sorted| == |ids|
         && (forall i, j | 0 <= i < j < |sorted| :: sorted[i] <= sorted[j])
         && forall i | 0 <= i < |sorted| :: Meaning(codec.member(sorted[i])) == Some(item.items[i])
  }

  ghost predicate IsChange(codec: Codec, item: Item, change: Change) {
    match change
    case Create(config) => Struct(item, 1) && At(item, "config").Some? && IsConfig(At(item, "config").value, config)
    case Insert(members) => Struct(item, 1) && At(item, "members").Some? && AreMembers(codec, At(item, "members").value, members)
    case Remove(ids) => Struct(item, 1) && At(item, "members").Some? && AreIds(codec, At(item, "members").value, ids)
    case Rebuild(config, members) =>
      && Struct(item, 2) && At(item, "config").Some? && IsConfig(At(item, "config").value, config)
      && At(item, "members").Some? && AreMembers(codec, At(item, "members").value, members)
    case Destroy(retention) => Struct(item, 1) && Holds(item, "retention", codec.retention(retention))
  }

  ghost predicate IsOperation(codec: Codec, item: Item, operation: Operation) {
    && Struct(item, 3)
    && At(item, "index").Some? && IsIndex(At(item, "index").value, operation.index)
    && TextAt(item, "transition",
         match operation.change
         case Create(_) => "Create"
         case Insert(_) => "Insert"
         case Remove(_) => "Remove"
         case Rebuild(_, _) => "Rebuild"
         case Destroy(_) => "Destroy")
    && At(item, "change").Some? && IsChange(codec, At(item, "change").value, operation.change)
  }

  // ---------- structs ----------

  lemma {:induction false} FieldsCount(fields: seq<Field>)
    requires MeaningFields(fields).Some?
    ensures |MeaningFields(fields).value| == |fields|
  {
    hide Meaning, WriteScalar, Scalar;
    if fields != [] {
      FieldsCount(fields[..|fields| - 1]);
    }
  }

  lemma StructIs(fields: seq<Field>)
    requires Meaning(Dict(fields)).Some?
    ensures MeaningFields(fields).Some? && Meaning(Dict(fields)) == Some(MapItem(MeaningFields(fields).value))
    ensures Struct(Meaning(Dict(fields)).value, |fields|)
  {
    hide *;
    C.DictIsMap(fields);
    StructOf(fields);
  }

  lemma StructOf(fields: seq<Field>)
    requires MeaningFields(fields).Some?
    ensures Struct(MapItem(MeaningFields(fields).value), |fields|)
  {
    FieldsCount(fields);
    hide MeaningFields;
  }

  /** What field `j` of a struct holds. */
  lemma FieldHolds(fields: seq<Field>, j: nat, name: string, value: Value)
    requires Meaning(Dict(fields)).Some? && j < |fields| && fields[j] == Named(name, value)
    ensures Meaning(value).Some? && At(Meaning(Dict(fields)).value, name) == Meaning(value)
    ensures Holds(Meaning(Dict(fields)).value, name, value)
  {
    hide *;
    StructIs(fields);
    C.FieldsHold(fields, j);
    NamedIs(name, value);
    TextMeans(name);
    AtIs(MeaningFields(fields).value, name, value);
  }

  lemma TextMeans(text: string)
    ensures Meaning(TextValue(text)) == Some(TextItem(Utf8(text)))
    ensures WriteScalar(TextItem(Utf8(text))) == Write(TextItem(Utf8(text)))
  {
    hide Utf8, WriteScalar;
  }

  lemma AtIs(m: map<Bytes, Item>, name: string, value: Value)
    requires Meaning(value).Some? && Write(TextItem(Utf8(name))) in m
    requires m[Write(TextItem(Utf8(name)))] == Meaning(value).value
    ensures At(MapItem(m), name) == Meaning(value) && Holds(MapItem(m), name, value)
  {
    hide Utf8, Write, Meaning;
  }

  lemma ListIs(items: seq<Value>)
    requires Meaning(List(items)).Some?
    ensures var list := Meaning(List(items)).value;
      && list.ListItem? && |list.items| == |items|
      && forall i | 0 <= i < |items| :: Meaning(items[i]) == Some(list.items[i])
  {
    C.MeaningCounts(items);
    assert MeaningAll(items).Some?;
    hide Meaning, MeaningAll;
    forall i | 0 <= i < |items| ensures Meaning(items[i]) == Some(MeaningAll(items).value[i]) {
      AllHold(items, i);
    }
    ListOf(items);
  }

  lemma ListOf(items: seq<Value>)
    requires MeaningAll(items).Some?
    ensures Meaning(List(items)) == Some(ListItem(MeaningAll(items).value))
  {
    hide MeaningAll;
  }

  lemma VariantIs(name: Bytes, payload: Value)
    requires Meaning(Variant(name, payload)).Some?
    ensures Meaning(payload).Some? && Meaning(Variant(name, payload)).value == VariantItem(name, Meaning(payload).value)
  {
  }

  // ---------- each part ----------

  lemma IndexRead(index: Index)
    requires Meaning(IndexValue(index)).Some?
    ensures IsIndex(Meaning(IndexValue(index)).value, index)
  {
    hide Meaning, At, Utf8, Named, TextValue, Struct, Holds;
    var fs := [Named("namespace", TextValue(index.namespace)), Named("name", TextValue(index.name))];
    StructIs(fs);
    FieldHolds(fs, 0, "namespace", TextValue(index.namespace));
    FieldHolds(fs, 1, "name", TextValue(index.name));
    TextMeans(index.namespace);
    TextMeans(index.name);
  }

  lemma TextsRead(texts: seq<string>)
    requires Meaning(List(TextValues(texts))).Some?
    ensures AreTexts(Meaning(List(TextValues(texts))).value, texts)
  {
    hide Meaning, Utf8, TextValue;
    ListIs(TextValues(texts));
    forall i | 0 <= i < |texts| ensures Meaning(TextValues(texts)[i]) == Some(TextItem(Utf8(texts[i]))) {
      TextMeans(texts[i]);
    }
  }

  lemma AnalyzerRead(analyzer: TokenizerConfig)
    requires Meaning(AnalyzerValue(analyzer)).Some?
    ensures IsAnalyzer(Meaning(AnalyzerValue(analyzer)).value, analyzer)
  {
    hide Meaning, At, Utf8, Named, TextValue, TextValues, Struct, Holds, AreTexts;
    var fs := [Named("name", TextValue(analyzer.name)), Named("args", List(TextValues(analyzer.args)))];
    StructIs(fs);
    FieldHolds(fs, 0, "name", TextValue(analyzer.name));
    FieldHolds(fs, 1, "args", List(TextValues(analyzer.args)));
    TextMeans(analyzer.name);
    TextsRead(analyzer.args);
  }

  lemma AnalyzersRead(analyzers: seq<TokenizerConfig>)
    requires Meaning(List(Analyzers(analyzers))).Some?
    ensures AreAnalyzers(Meaning(List(Analyzers(analyzers))).value, analyzers)
  {
    hide Meaning, AnalyzerValue, IsAnalyzer;
    ListIs(Analyzers(analyzers));
    var list := Meaning(List(Analyzers(analyzers))).value;
    forall i | 0 <= i < |analyzers| ensures IsAnalyzer(list.items[i], analyzers[i]) {
      assert Meaning(Analyzers(analyzers)[i]) == Some(list.items[i]);
      AnalyzerRead(analyzers[i]);
    }
  }

  lemma NumberMeans(n: nat)
    ensures Meaning(Unsigned(W64, n)) == Some(UnsignedItem(W64, n))
  {
  }

  lemma HnswRead(hnsw: HnswGraph.Config)
    requires Meaning(Dict(HnswFields(hnsw))).Some?
    ensures IsHnsw(Meaning(Dict(HnswFields(hnsw))).value, hnsw)
  {
    hide Meaning, At, Utf8, Named, TextValue, Struct, Holds;
    var fs := HnswFields(hnsw);
    StructIs(fs);
    FieldHolds(fs, 0, "dimensions", Unsigned(W64, hnsw.dimensions));
    FieldHolds(fs, 1, "distance", TextValue(DistanceName(hnsw.distance)));
    FieldHolds(fs, 2, "ef_construction", Unsigned(W64, hnsw.efConstruction));
    FieldHolds(fs, 3, "m_neighbours", Unsigned(W64, hnsw.mNeighbours));
    TextMeans(DistanceName(hnsw.distance));
    NumberMeans(hnsw.dimensions);
    NumberMeans(hnsw.efConstruction);
    NumberMeans(hnsw.mNeighbours);
  }

  lemma FtsRead(fts: FtsConfig)
    requires Meaning(Dict(FtsFields(fts))).Some?
    ensures IsFts(Meaning(Dict(FtsFields(fts))).value, fts)
  {
    hide Meaning, At, Utf8, Named, AnalyzerValue, Analyzers, Struct, Holds, IsAnalyzer, AreAnalyzers;
    var fs := FtsFields(fts);
    StructIs(fs);
    FieldHolds(fs, 0, "tokenizer", AnalyzerValue(fts.tokenizer));
    FieldHolds(fs, 1, "filters", List(Analyzers(fts.filters)));
    AnalyzerRead(fts.tokenizer);
    AnalyzersRead(fts.filters);
  }

  lemma ConfigRead(config: IndexConfig)
    requires Meaning(ConfigValue(config)).Some?
    ensures IsConfig(Meaning(ConfigValue(config)).value, config)
  {
    hide Meaning, Utf8, HnswFields, FtsFields, IsHnsw, IsFts;
    match config
    case Vector(hnsw) =>
      VariantIs(Utf8("Vector"), Dict(HnswFields(hnsw)));
      HnswRead(hnsw);
    case Fts(fts) =>
      VariantIs(Utf8("Fts"), Dict(FtsFields(fts)));
      FtsRead(fts);
  }

  lemma BitMeans(n: HnswGraph.Component)
    ensures Meaning(Unsigned(W32, n)) == Some(UnsignedItem(W32, n))
  {
  }

  lemma ContentRead(content: Content)
    requires Meaning(ContentValue(content)).Some?
    ensures IsContent(Meaning(ContentValue(content)).value, content)
  {
    hide Meaning, Utf8, TextValue;
    match content
    case VectorContent(vector) =>
      VariantIs(Utf8("vector_bits"), List(Bits(vector)));
      ListIs(Bits(vector));
      forall i | 0 <= i < |vector| ensures Meaning(Bits(vector)[i]) == Some(UnsignedItem(W32, vector[i])) {
        BitMeans(vector[i]);
      }
    case Document(text) =>
      VariantIs(Utf8("document"), TextValue(text));
      TextMeans(text);
  }

  lemma MemberRead(codec: Codec, member: IndexMember)
    requires Meaning(Dict(MemberFields(codec, member))).Some?
    ensures IsMember(codec, Meaning(Dict(MemberFields(codec, member))).value, member)
  {
    hide Meaning, At, Utf8, Named, ContentValue, Struct, Holds, IsContent;
    var fs := MemberFields(codec, member);
    StructIs(fs);
    FieldHolds(fs, 0, "id", codec.member(member.id));
    FieldHolds(fs, 1, "provenance", codec.provenance(member.provenance));
    FieldHolds(fs, 2, "content", ContentValue(member.content));
    ContentRead(member.content);
  }

  lemma MembersRead(codec: Codec, members: seq<IndexMember>)
    requires Meaning(List(Members(codec, SortedMembers(members)))).Some?
    ensures AreMembers(codec, Meaning(List(Members(codec, SortedMembers(members)))).value, members)
  {
    hide Meaning, MemberFields, IsMember, SortedMembers;
    var sorted := SortedMembers(members);
    ListIs(Members(codec, sorted));
    var list := Meaning(List(Members(codec, sorted))).value;
    forall i | 0 <= i < |sorted| ensures IsMember(codec, list.items[i], sorted[i]) {
      assert Meaning(Members(codec, sorted)[i]) == Some(list.items[i]);
      MemberRead(codec, sorted[i]);
    }
    forall i, j | 0 <= i < j < |sorted| ensures sorted[i].id <= sorted[j].id {
      assert !ById(sorted[j], sorted[i]);
    }
  }

  lemma IdsRead(codec: Codec, ids: seq<Member>)
    requires Meaning(List(MemberIds(codec, SortedIds(ids)))).Some?
    ensures AreIds(codec, Meaning(List(MemberIds(codec, SortedIds(ids)))).value, ids)
  {
    hide Meaning, SortedIds;
    var sorted := SortedIds(ids);
    ListIs(MemberIds(codec, sorted));
    forall i, j | 0 <= i < j < |sorted| ensures sorted[i] <= sorted[j] {
      assert !Before(sorted[j], sorted[i]);
    }
    var list := Meaning(List(MemberIds(codec, sorted))).value;
    forall i | 0 <= i < |sorted| ensures Meaning(codec.member(sorted[i])) == Some(list.items[i]) {
      assert MemberIds(codec, sorted)[i] == codec.member(sorted[i]);
    }
  }

  lemma ChangeRead(codec: Codec, change: Change)
    requires Meaning(Dict(ChangeFields(codec, change))).Some?
    ensures IsChange(codec, Meaning(Dict(ChangeFields(codec, change))).value, change)
  {
    hide Meaning, At, Utf8, Named, ConfigValue, Members, MemberIds, SortedMembers, SortedIds, Struct, Holds, IsConfig, AreMembers, AreIds;
    var fs := ChangeFields(codec, change);
    StructIs(fs);
    match change
    case Create(config) =>
      FieldHolds(fs, 0, "config", ConfigValue(config));
      ConfigRead(config);
    case Insert(members) =>
      FieldHolds(fs, 0, "members", List(Members(codec, SortedMembers(members))));
      MembersRead(codec, members);
    case Remove(ids) =>
      FieldHolds(fs, 0, "members", List(MemberIds(codec, SortedIds(ids))));
      IdsRead(codec, ids);
    case Rebuild(config, members) =>
      FieldHolds(fs, 0, "config", ConfigValue(config));
      FieldHolds(fs, 1, "members", List(Members(codec, SortedMembers(members))));
      ConfigRead(config);
      MembersRead(codec, members);
    case Destroy(retention) => FieldHolds(fs, 0, "retention", codec.retention(retention));
  }

  /** What an operation stands for follows the documented schema. */
  lemma OperationRead(codec: Codec, operation: Operation)
    requires Meaning(OperationValue(codec, operation)).Some?
    ensures IsOperation(codec, Meaning(OperationValue(codec, operation)).value, operation)
  {
    hide Meaning, At, Utf8, Named, TextValue, IndexValue, ChangeFields, Struct, Holds, IsIndex, IsChange;
    var fs := OperationFields(codec, operation);
    StructIs(fs);
    FieldHolds(fs, 0, "index", IndexValue(operation.index));
    FieldHolds(fs, 1, "transition", TextValue(TransitionName(TransitionOf(operation.change))));
    FieldHolds(fs, 2, "change", Dict(ChangeFields(codec, operation.change)));
    IndexRead(operation.index);
    TextMeans(TransitionName(TransitionOf(operation.change)));
    ChangeRead(codec, operation.change);
  }

  /** Reading an operation's canonical bytes by the grammar gives an item of the
      documented schema, and nothing is left over. */
  lemma BytesRead(codec: Codec, operation: Operation)
    requires C.Typed(OperationValue(codec, operation)) && Encode(OperationValue(codec, operation)).Done?
    ensures var r := ReadItem(Encode(OperationValue(codec, operation)).bytes);
      r.Read? && r.rest == [] && IsOperation(codec, r.value, operation)
  {
    hide *;
    EncodingReads(OperationValue(codec, operation));
    OperationRead(codec, operation);
  }

  /** Whatever the encoder accepts reads back as what it stands for. */
  lemma EncodingReads(v: Value)
    requires C.Typed(v) && Encode(v).Done?
    ensures Meaning(v).Some? && ReadItem(Encode(v).bytes) == Reading.Read(Meaning(v).value, [])
  {
    C.EncodeMeans(v);
    hide Encode, Meaning, ReadItem, Write, Sized;
    var item := Meaning(v).value;
    ReadsBack(item, []);
    assert Write(item) + [] == Write(item);
  }
}
