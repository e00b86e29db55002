/** Identifiers of named indexes and of the operations that change them. */
module Identifiers {

  /** The largest u64. */
  const U64_MAX: nat := 0xffff_ffff_ffff_ffff

  /** A lead character, then lead or punctuation characters. */
  datatype Grammar = Grammar(maxLen: nat, uppercase: bool, punctuation: string)

  const OWNER_NAMESPACE := Grammar(64, false, "._-")
  const INDEX_NAME := Grammar(128, false, "._-")
  const OPERATION_KEY := Grammar(128, true, "._:-")

  datatype Identity = Identity(namespace: string, name: string)

  datatype IdentifierError = Empty | TooLong(length: nat) | Unexpected(offset: nat)

  datatype Checked = Accepted | Rejected(error: IdentifierError)

  predicate Leads(g: Grammar, c: char) {
    '0' <= c <= '9' || 'a' <= c <= 'z' || (g.uppercase && 'A' <= c <= 'Z')
  }

  predicate FollowsLead(g: Grammar, c: char) {
    Leads(g, c) || (c as int < 128 && c in g.punctuation)
  }

  predicate Allowed(g: Grammar, value: string, i: nat)
    requires i < |value|
  {
    if i == 0 then Leads(g, value[i]) else FollowsLead(g, value[i])
  }

  predicate Fits(g: Grammar, value: string) {
    0 < |value| <= g.maxLen && forall i | 0 <= i < |value| :: Allowed(g, value, i)
  }

  /** The bytes of a text in UTF-8. */
  function ByteCount(value: string): (n: nat)
    ensures n >= |value|
  {
    if value == "" then 0
    else
      var c := value[0] as int;
      (if c < 0x80 then 1 else if c < 0x800 then 2 else if c < 0x10000 then 3 else 4) + ByteCount(value[1..])
  }

  /** Every character a grammar allows is one byte. */
  lemma {:induction false} AsciiCount(value: string)
    requires forall i | 0 <= i < |value| :: (value[i] as int) < 128
    ensures ByteCount(value) == |value|
  {
    if value != "" {
      AsciiCount(value[1..]);
    }
  }

  /** The check runs left to right and reports the first character it refuses;
      the limit is on bytes. */
  method Check(g: Grammar, value: string) returns (checked: Checked)
    ensures checked.Accepted? <==> Fits(g, value)
    ensures checked == Rejected(Empty) <==> value == ""
    ensures checked.Rejected? && checked.error.TooLong? <==> ByteCount(value) > g.maxLen && value != ""
    ensures checked.Rejected? && checked.error.Unexpected? ==>
      var at := checked.error.offset;
      at < |value| && !Allowed(g, value, at) && forall i | 0 <= i < at :: Allowed(g, value, i)
  {
    if value == "" {
      return Rejected(Empty);
    }
    if ByteCount(value) > g.maxLen {
      if Fits(g, value) {
        forall i | 0 <= i < |value| ensures (value[i] as int) < 128 {
          assert Allowed(g, value, i);
        }
        AsciiCount(value);
      }
      return Rejected(TooLong(ByteCount(value)));
    }
    for offset := 0 to |value|
      invariant forall i | 0 <= i < offset :: Allowed(g, value, i)
    {
      if !Allowed(g, value, offset) {
        return Rejected(Unexpected(offset));
      }
    }
    checked := Accepted;
  }

  predicate IdentityOk(index: Identity) {
    Fits(OWNER_NAMESPACE, index.namespace) && Fits(INDEX_NAME, index.name)
  }

  predicate KeyOk(key: string) {
    Fits(OPERATION_KEY, key)
  }

  predicate VersionOk(version: nat) {
    1 <= version <= U64_MAX
  }

  /** No identifier holds the separator of storage keys. */
  lemma NoSeparator(g: Grammar, value: string)
    requires Fits(g, value) && g in {OWNER_NAMESPACE, INDEX_NAME, OPERATION_KEY}
    ensures '/' !in value
  {
    forall i | 0 <= i < |value| ensures value[i] != '/' {
      assert Allowed(g, value, i);
    }
  }

  /** A lowercase letter or a digit first, then those and `.`, `_` and `-`. */
  ghost predicate LowerText(value: string, limit: nat) {
    && 1 <= |value| <= limit
    && (forall i | 0 <= i < |value| :: ('0' <= value[i] <= '9' || 'a' <= value[i] <= 'z') || (i > 0 && value[i] in "._-"))
  }

  /** A letter or a digit first, then those and `.`, `_`, `:` and `-`. */
  ghost predicate KeyText(value: string, limit: nat) {
    && 1 <= |value| <= limit
    && forall i | 0 <= i < |value| ::
         ('0' <= value[i] <= '9' || 'a' <= value[i] <= 'z' || 'A' <= value[i] <= 'Z') || (i > 0 && value[i] in "._:-")
  }

  /** The three grammars, written out. */
  lemma GrammarsAre(value: string)
    ensures Fits(OWNER_NAMESPACE, value) <==> LowerText(value, 64)
    ensures Fits(INDEX_NAME, value) <==> LowerText(value, 128)
    ensures Fits(OPERATION_KEY, value) <==> KeyText(value, 128)
  {
    forall i | 0 <= i < |value|
      ensures Allowed(OWNER_NAMESPACE, value, i) == Allowed(INDEX_NAME, value, i)
        == (('0' <= value[i] <= '9' || 'a' <= value[i] <= 'z') || (i > 0 && value[i] in "._-"))
      ensures Allowed(OPERATION_KEY, value, i)
        == (('0' <= value[i] <= '9' || 'a' <= value[i] <= 'z' || 'A' <= value[i] <= 'Z') || (i > 0 && value[i] in "._:-"))
    {
    }
  }
}
