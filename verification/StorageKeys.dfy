/** The keys lifecycle state is stored under: printers, parsers, and the order
    the keys sort in. */
module StorageKeys {
  import opened Texts
  import opened Identifiers

  const DECIMAL_WIDTH: nat := 20

  datatype Parsed<+T> = Parsed(value: T) | Malformed

  datatype Part = MarkerPart | PayloadPart

  datatype Versioned = Versioned(index: Identity, version: nat)

  datatype Recorded = Recorded(index: Identity, key: string)

  datatype Quarantined = Quarantined(sequence: nat, index: Identity, version: nat, part: Part)

  function PartText(part: Part): string {
    if part.MarkerPart? then "marker" else "payload"
  }

  function HeadKey(index: Identity): string {
    index.namespace + [SEPARATOR] + index.name
  }

  function IndexPrefix(index: Identity): string {
    HeadKey(index) + [SEPARATOR]
  }

  function Decimal(n: nat): string {
    Digits(n, DECIMAL_WIDTH)
  }

  function VersionKey(index: Identity, version: nat): string {
    IndexPrefix(index) + Decimal(version)
  }

  function StagingKey(index: Identity, version: nat): string {
    VersionKey(index, version)
  }

  function OperationKey(index: Identity, key: string): string {
    IndexPrefix(index) + key
  }

  function QuarantineKey(sequence: nat, index: Identity, version: nat, part: Part): string {
    Decimal(sequence) + [SEPARATOR] + VersionKey(index, version) + [SEPARATOR] + PartText(part)
  }

  function ParseIdentity(namespace: string, name: string): Parsed<Identity> {
    if !Fits(OWNER_NAMESPACE, namespace) then Malformed
    else if !Fits(INDEX_NAME, name) then Malformed
    else Parsed(Identity(namespace, name))
  }

  function ParseDecimal(digits: string): Parsed<nat> {
    if |digits| != DECIMAL_WIDTH || !AllDigits(digits) then Malformed
    else if Value(digits) > U64_MAX then Malformed
    else Parsed(Value(digits))
  }

  function ParseNumber(digits: string): Parsed<nat> {
    var n := ParseDecimal(digits);
    if n.Malformed? || n.value == 0 then Malformed else n
  }

  function ParseHead(key: string): Parsed<Identity> {
    var parts := Split(key);
    if |parts| != 2 then Malformed else ParseIdentity(parts[0], parts[1])
  }

  function ParseVersion(key: string): Parsed<Versioned> {
    var parts := Split(key);
    if |parts| != 3 then Malformed
    else
      match (ParseIdentity(parts[0], parts[1]), ParseNumber(parts[2]))
      case (Parsed(index), Parsed(version)) => Parsed(Versioned(index, version))
      case (_, _) => Malformed
  }

  function ParseOperation(key: string): Parsed<Recorded> {
    var parts := Split(key);
    if |parts| != 3 then Malformed
    else
      match ParseIdentity(parts[0], parts[1])
      case Malformed => Malformed
      case Parsed(index) => if KeyOk(parts[2]) then Parsed(Recorded(index, parts[2])) else Malformed
  }

  function ParsePart(text: string): Parsed<Part> {
    if text == PartText(MarkerPart) then Parsed(MarkerPart)
    else if text == PartText(PayloadPart) then Parsed(PayloadPart)
    else Malformed
  }

  function ParseQuarantine(key: string): Parsed<Quarantined> {
    var parts := Split(key);
    if |parts| != 5 then Malformed
    else
      match (ParsePart(parts[4]), ParseDecimal(parts[0]), ParseIdentity(parts[1], parts[2]), ParseNumber(parts[3]))
      case (Parsed(part), Parsed(sequence), Parsed(index), Parsed(version)) =>
        Parsed(Quarantined(sequence, index, version, part))
      case (_, _, _, _) => Malformed
  }

  // ---------- numbers ----------

  lemma WidthFits()
    ensures U64_MAX < Pow10(DECIMAL_WIDTH)
  {
    assert Pow10(5) == 100_000;
    assert Pow10(10) == 10_000_000_000 by {
      assert Pow10(7) == 10_000_000;
    }
    assert Pow10(15) == 1_000_000_000_000_000 by {
      assert Pow10(12) == 1_000_000_000_000;
    }
    assert Pow10(17) == 100_000_000_000_000_000;
    assert Pow10(20) == 100_000_000_000_000_000_000;
  }

  lemma DigitsHoldNoSeparator(n: nat, w: nat)
    ensures SEPARATOR !in Digits(n, w)
  {
    forall i | 0 <= i < w ensures Digits(n, w)[i] != SEPARATOR {
      assert IsDigit(Digits(n, w)[i]);
    }
  }

  /** A number is accepted exactly as it prints. */
  lemma DecimalRoundTrip(digits: string, n: nat)
    ensures ParseDecimal(digits) == Parsed(n) <==> n <= U64_MAX && digits == Decimal(n)
  {
    WidthFits();
    if n <= U64_MAX {
      ValueOfDigits(n, DECIMAL_WIDTH);
    }
    if |digits| == DECIMAL_WIDTH && AllDigits(digits) {
      DigitsOfValue(digits);
    }
    hide Pow10, Digits, Value;
  }

  // ---------- printers and parsers are inverse ----------

  lemma IdentityRoundTrip(namespace: string, name: string, index: Identity)
    ensures ParseIdentity(namespace, name) == Parsed(index)
      <==> IdentityOk(index) && namespace == index.namespace && name == index.name
  {
    hide Fits;
  }

  lemma IdentityHasNoSeparator(index: Identity)
    requires IdentityOk(index)
    ensures SEPARATOR !in index.namespace && SEPARATOR !in index.name
  {
    NoSeparator(OWNER_NAMESPACE, index.namespace);
    NoSeparator(INDEX_NAME, index.name);
    hide Fits;
  }

  /** The parts of a key under an index. */
  lemma SplitUnder(index: Identity, rest: string)
    requires IdentityOk(index)
    ensures Split(IndexPrefix(index) + rest) == [index.namespace, index.name] + Split(rest)
  {
    hide Fits, Split;
    IdentityHasNoSeparator(index);
    SplitCuts(index.name, rest);
    SplitCuts(index.namespace, index.name + [SEPARATOR] + rest);
    assert IndexPrefix(index) + rest == index.namespace + [SEPARATOR] + (index.name + [SEPARATOR] + rest);
    assert [index.namespace] + ([index.name] + Split(rest)) == [index.namespace, index.name] + Split(rest);
  }

  lemma JoinThree(parts: seq<string>)
    requires |parts| == 3
    ensures Join(parts) == parts[0] + [SEPARATOR] + parts[1] + [SEPARATOR] + parts[2]
  {
    assert Join(parts[1..]) == parts[1] + [SEPARATOR] + parts[2] by {
      assert parts[1..][1..] == [parts[2]];
    }
  }

  /** Each parser accepts exactly what its printer writes, and reads it back. */
  lemma HeadRoundTrip(key: string, index: Identity)
    ensures ParseHead(key) == Parsed(index) <==> IdentityOk(index) && key == HeadKey(index)
  {
    hide Fits, Split;
    var parts := Split(key);
    if |parts| == 2 {
      JoinMore(parts);
      assert parts[1..] == [parts[1]] && Join(parts[1..]) == parts[1];
      assert key == parts[0] + [SEPARATOR] + parts[1];
      IdentityRoundTrip(parts[0], parts[1], index);
    }
    if IdentityOk(index) && key == HeadKey(index) {
      IdentityHasNoSeparator(index);
      SplitCuts(index.namespace, index.name);
      SplitWhole(index.name);
      IdentityRoundTrip(index.namespace, index.name, index);
    }
  }

  lemma VersionRoundTrip(key: string, index: Identity, version: nat)
    ensures ParseVersion(key) == Parsed(Versioned(index, version))
      <==> IdentityOk(index) && VersionOk(version) && key == VersionKey(index, version)
  {
    hide Fits, Split, ParseDecimal, ParseIdentity, Digits;
    var parts := Split(key);
    if |parts| == 3 {
      JoinThree(parts);
      IdentityRoundTrip(parts[0], parts[1], index);
      DecimalRoundTrip(parts[2], version);
      hide Join;
    }
    if IdentityOk(index) && VersionOk(version) && key == VersionKey(index, version) {
      DigitsHoldNoSeparator(version, DECIMAL_WIDTH);
      SplitUnder(index, Decimal(version));
      SplitWhole(Decimal(version));
    }
  }

  lemma OperationRoundTrip(text: string, index: Identity, key: string)
    ensures ParseOperation(text) == Parsed(Recorded(index, key))
      <==> IdentityOk(index) && KeyOk(key) && text == OperationKey(index, key)
  {
    hide Fits, Split, ParseIdentity;
    var parts := Split(text);
    if |parts| == 3 {
      JoinThree(parts);
      IdentityRoundTrip(parts[0], parts[1], index);
      hide Join;
    }
    if IdentityOk(index) && KeyOk(key) && text == OperationKey(index, key) {
      NoSeparator(OPERATION_KEY, key);
      SplitUnder(index, key);
      SplitWhole(key);
    }
  }

  lemma JoinFive(parts: seq<string>)
    requires |parts| == 5
    ensures Join(parts) == parts[0] + [SEPARATOR]
      + (parts[1] + [SEPARATOR] + parts[2] + [SEPARATOR] + parts[3]) + [SEPARATOR] + parts[4]
  {
    var rest := parts[2..];
    JoinThree(rest);
    assert parts[1..][1..] == rest;
    hide Join;
    assert Join(parts) == parts[0] + [SEPARATOR] + Join(parts[1..]) by { JoinMore(parts); }
    assert Join(parts[1..]) == parts[1] + [SEPARATOR] + Join(rest) by { JoinMore(parts[1..]); }
  }

  lemma JoinMore(parts: seq<string>)
    requires |parts| > 1
    ensures Join(parts) == parts[0] + [SEPARATOR] + Join(parts[1..])
  {
  }

  lemma QuarantineParts(sequence: nat, index: Identity, version: nat, part: Part)
    requires IdentityOk(index)
    ensures Split(QuarantineKey(sequence, index, version, part))
      == [Decimal(sequence), index.namespace, index.name, Decimal(version), PartText(part)]
  {
    hide Fits, Split, Digits;
    DigitsHoldNoSeparator(sequence, DECIMAL_WIDTH);
    DigitsHoldNoSeparator(version, DECIMAL_WIDTH);
    var tail := Decimal(version) + [SEPARATOR] + PartText(part);
    SplitWhole(PartText(part));
    SplitCuts(Decimal(version), PartText(part));
    SplitUnder(index, tail);
    SplitCuts(Decimal(sequence), IndexPrefix(index) + tail);
    assert QuarantineKey(sequence, index, version, part) == Decimal(sequence) + [SEPARATOR] + (IndexPrefix(index) + tail);
  }

  lemma QuarantineRoundTrip(key: string, sequence: nat, index: Identity, version: nat, part: Part)
    ensures ParseQuarantine(key) == Parsed(Quarantined(sequence, index, version, part))
      <==> sequence <= U64_MAX && IdentityOk(index) && VersionOk(version) && key == QuarantineKey(sequence, index, version, part)
  {
    hide Fits, Split, ParseDecimal, ParseIdentity, Digits, PartText;
    var parts := Split(key);
    PartsDiffer();
    if |parts| == 5 {
      JoinFive(parts);
      DecimalRoundTrip(parts[0], sequence);
      IdentityRoundTrip(parts[1], parts[2], index);
      DecimalRoundTrip(parts[3], version);
      hide Join;
    }
    if sequence <= U64_MAX && IdentityOk(index) && VersionOk(version) && key == QuarantineKey(sequence, index, version, part) {
      QuarantineParts(sequence, index, version, part);
    }
  }

  lemma PartsDiffer()
    ensures PartText(MarkerPart) != PartText(PayloadPart)
    ensures TextLess(PartText(MarkerPart), PartText(PayloadPart))
  {
  }

  // ---------- prefixes and order ----------

  /** An index's prefix starts the version, staging and operation keys of that
      index and of no other. */
  lemma PrefixOwns(index: Identity, other: Identity, rest: string)
    requires IdentityOk(index) && IdentityOk(other)
    ensures IndexPrefix(index) <= IndexPrefix(other) + rest <==> index == other
  {
    hide Fits;
    IdentityHasNoSeparator(index);
    IdentityHasNoSeparator(other);
    var key := IndexPrefix(other) + rest;
    if IndexPrefix(index) <= key {
      var after := key[|IndexPrefix(index)|..];
      assert key == index.namespace + [SEPARATOR] + (index.name + [SEPARATOR] + after);
      assert key == other.namespace + [SEPARATOR] + (other.name + [SEPARATOR] + rest);
      CutAlike(index.namespace, index.name + [SEPARATOR] + after, other.namespace, other.name + [SEPARATOR] + rest);
      CutAlike(index.name, after, other.name, rest);
    }
  }

  lemma VersionsApart(index: Identity, version: nat, other: Identity, number: nat)
    requires IdentityOk(index) && IdentityOk(other) && VersionOk(version) && VersionOk(number)
    ensures VersionKey(index, version) == VersionKey(other, number) <==> index == other && version == number
  {
    VersionRoundTrip(VersionKey(index, version), index, version);
    VersionRoundTrip(VersionKey(index, version), other, number);
  }

  lemma OperationsApart(index: Identity, key: string, other: Identity, name: string)
    requires IdentityOk(index) && IdentityOk(other) && KeyOk(key) && KeyOk(name)
    ensures OperationKey(index, key) == OperationKey(other, name) <==> index == other && key == name
  {
    OperationRoundTrip(OperationKey(index, key), index, key);
    OperationRoundTrip(OperationKey(index, key), other, name);
  }

  lemma HeadsApart(index: Identity, other: Identity)
    requires IdentityOk(index) && IdentityOk(other)
    ensures HeadKey(index) == HeadKey(other) <==> index == other
  {
    HeadRoundTrip(HeadKey(index), index);
    HeadRoundTrip(HeadKey(index), other);
  }

  /** Within one index, byte order of version keys is version order. */
  lemma VersionOrder(index: Identity, a: nat, b: nat)
    requires a <= U64_MAX && b <= U64_MAX
    ensures TextLess(VersionKey(index, a), VersionKey(index, b)) <==> a < b
  {
    WidthFits();
    hide TextLess, Digits, Pow10;
    SharedPrefix(IndexPrefix(index), Decimal(a), Decimal(b));
    DigitsOrder(a, b, DECIMAL_WIDTH);
  }

  /** Quarantine keys sort by sequence, and a marker before its payload. */
  lemma QuarantineOrder(a: nat, index: Identity, version: nat, part: Part, b: nat, other: Identity, number: nat, half: Part)
    requires a <= U64_MAX && b <= U64_MAX
    ensures var x, y := QuarantineKey(a, index, version, part), QuarantineKey(b, other, number, half);
      && (a != b ==> (TextLess(x, y) <==> a < b))
      && (a == b && index == other && version == number ==> (TextLess(x, y) <==> part.MarkerPart? && half.PayloadPart?))
  {
    WidthFits();
    hide TextLess, Digits, Pow10, PartText;
    var rest := [SEPARATOR] + VersionKey(index, version) + [SEPARATOR] + PartText(part);
    var tail := [SEPARATOR] + VersionKey(other, number) + [SEPARATOR] + PartText(half);
    assert QuarantineKey(a, index, version, part) == Decimal(a) + rest;
    assert QuarantineKey(b, other, number, half) == Decimal(b) + tail;
    DigitsOrder(a, b, DECIMAL_WIDTH);
    if a != b {
      ValueOfDigits(a, DECIMAL_WIDTH);
      ValueOfDigits(b, DECIMAL_WIDTH);
      HeadsDecide(Decimal(a), Decimal(b), rest, tail);
    } else if index == other && version == number {
      var front := Decimal(a) + [SEPARATOR] + VersionKey(index, version) + [SEPARATOR];
      SharedPrefix(front, PartText(part), PartText(half));
      PartsDiffer();
      TextIrreflexive(PartText(part));
      if part.PayloadPart? && half.MarkerPart? && TextLess(PartText(part), PartText(half)) {
        TextTransitive(PartText(half), PartText(part), PartText(half));
        TextIrreflexive(PartText(half));
        assert false;
      }
    }
  }

  // ---------- the documented spelling ----------

  /** Twenty decimal digits that spell a number, leading zeros included. */
  predicate Spells(text: string, n: nat) {
    |text| == 20 && AllDigits(text) && Texts.Value(text) == n
  }

  ghost predicate SpelledVersion(index: Identity, version: nat, key: string) {
    exists digits :: Spells(digits, version) && key == index.namespace + "/" + index.name + "/" + digits
  }

  ghost predicate SpelledQuarantine(sequence: nat, index: Identity, version: nat, part: string, key: string) {
    exists first, middle ::
      Spells(first, sequence) && SpelledVersion(index, version, middle) && key == first + "/" + middle + "/" + part
  }

  /** Each key is spelled as documented. */
  lemma KeyLayout(index: Identity, version: nat, key: string, sequence: nat)
    requires version <= U64_MAX && sequence <= U64_MAX
    ensures HeadKey(index) == index.namespace + "/" + index.name
    ensures OperationKey(index, key) == index.namespace + "/" + index.name + "/" + key
    ensures SpelledVersion(index, version, VersionKey(index, version)) && StagingKey(index, version) == VersionKey(index, version)
    ensures SpelledQuarantine(sequence, index, version, "marker", QuarantineKey(sequence, index, version, MarkerPart))
    ensures SpelledQuarantine(sequence, index, version, "payload", QuarantineKey(sequence, index, version, PayloadPart))
  {
    WidthFits();
    ValueOfDigits(version, DECIMAL_WIDTH);
    ValueOfDigits(sequence, DECIMAL_WIDTH);
    hide Pow10, Digits, Texts.Value;
    assert Spells(Decimal(version), version) && Spells(Decimal(sequence), sequence);
    assert SpelledVersion(index, version, VersionKey(index, version));
  }
}
