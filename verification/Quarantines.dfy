/** Quarantine in a flat keyspace: one key for each marker and one for each
    payload moved beside it, and the entries read back from them. */
module Quarantines {
  import opened Options
  import opened Records
  import opened Slots
  import opened Identifiers
  import opened StorageKeys
  import opened Texts
  import opened Stores
  import opened Orders

  datatype Half = MarkerHalf(marker: Marker) | PayloadHalf(payload: Payload)

  datatype Listing = Listing(kept: seq<Kept>) | Unpaired(sequence: nat) | Unreadable

  function KeyOfHalf(k: Kept, part: Part): string {
    QuarantineKey(k.sequence, k.index, k.version, part)
  }

  function KeysOfOne(k: Kept): seq<string> {
    [KeyOfHalf(k, MarkerPart)] + if k.payload.Some? then [KeyOfHalf(k, PayloadPart)] else []
  }

  /** The keys of all entries, entry by entry. */
  function KeysOf(kept: seq<Kept>): seq<string> {
    if kept == [] then [] else KeysOf(kept[..|kept| - 1]) + KeysOfOne(kept[|kept| - 1])
  }

  function WithHalves(m: map<string, Half>, k: Kept): map<string, Half> {
    var marked := m[KeyOfHalf(k, MarkerPart) := MarkerHalf(k.marker)];
    if k.payload.Some? then marked[KeyOfHalf(k, PayloadPart) := PayloadHalf(k.payload.value)] else marked
  }

  function HalvesOf(kept: seq<Kept>): map<string, Half> {
    if kept == [] then map[] else WithHalves(HalvesOf(kept[..|kept| - 1]), kept[|kept| - 1])
  }

  ghost predicate KeptOk(k: Kept) {
    IdentityOk(k.index) && VersionOk(k.version)
  }

  /** Entries are numbered from 1 and name real indexes and versions. */
  ghost predicate Numbered(kept: seq<Kept>) {
    |kept| <= U64_MAX && forall i | 0 <= i < |kept| :: kept[i].sequence == i + 1 && KeptOk(kept[i])
  }

  lemma NumberedFront(kept: seq<Kept>)
    requires Numbered(kept) && kept != []
    ensures Numbered(kept[..|kept| - 1]) && kept[|kept| - 1].sequence == |kept| <= U64_MAX && KeptOk(kept[|kept| - 1])
    ensures kept == kept[..|kept| - 1] + [kept[|kept| - 1]]
  {
    hide KeptOk;
  }

  lemma {:induction false} KeysAreKeys(kept: seq<Kept>, key: string)
    ensures key in KeysOf(kept) <==> key in HalvesOf(kept)
  {
    hide KeyOfHalf;
    if kept != [] {
      KeysAreKeys(kept[..|kept| - 1], key);
    }
  }

  /** `key` names a half of an entry numbered at most `n`. */
  ghost predicate NamesUpTo(kept: seq<Kept>, key: string, n: nat) {
    exists i, part :: 0 <= i < |kept| && i < n && key == KeyOfHalf(kept[i], part)
  }

  lemma {:induction false} KeyNames(kept: seq<Kept>, key: string)
    requires key in KeysOf(kept)
    ensures NamesUpTo(kept, key, |kept|)
  {
    hide KeyOfHalf;
    var n := |kept| - 1;
    if key in KeysOf(kept[..n]) {
      KeyNames(kept[..n], key);
      var i, part :| 0 <= i < n && key == KeyOfHalf(kept[..n][i], part);
      assert key == KeyOfHalf(kept[i], part);
    } else if key == KeyOfHalf(kept[n], MarkerPart) {
      assert key == KeyOfHalf(kept[n], MarkerPart);
    } else {
      assert key == KeyOfHalf(kept[n], PayloadPart);
    }
  }

  lemma LaterKeys(a: Kept, part: Part, b: Kept, half: Part)
    requires a.sequence < b.sequence <= U64_MAX
    ensures TextLess(KeyOfHalf(a, part), KeyOfHalf(b, half))
  {
    hide QuarantineKey, TextLess;
    QuarantineOrder(a.sequence, a.index, a.version, part, b.sequence, b.index, b.version, half);
  }

  lemma MarkerFirst(k: Kept)
    requires k.sequence <= U64_MAX
    ensures TextLess(KeyOfHalf(k, MarkerPart), KeyOfHalf(k, PayloadPart))
  {
    hide QuarantineKey, TextLess;
    QuarantineOrder(k.sequence, k.index, k.version, MarkerPart, k.sequence, k.index, k.version, PayloadPart);
  }

  /** Entry by entry is byte order. */
  lemma {:induction false} KeysAscend(kept: seq<Kept>)
    requires Numbered(kept)
    ensures Ascends(TextLess, KeysOf(kept))
  {
    hide TextLess, KeyOfHalf, KeptOk;
    if kept != [] {
      var front, last := kept[..|kept| - 1], kept[|kept| - 1];
      NumberedFront(kept);
      KeysAscend(front);
      MarkerFirst(last);
      forall key, half | key in KeysOf(front) ensures TextLess(key, KeyOfHalf(last, half)) {
        KeyNames(front, key);
        var i, part :| 0 <= i < |front| && key == KeyOfHalf(front[i], part);
        LaterKeys(front[i], part, last, half);
      }
      JoinedAscends(KeysOf(front), KeysOfOne(last));
    }
  }

  lemma JoinedAscends(a: seq<string>, b: seq<string>)
    requires Ascends(TextLess, a) && Ascends(TextLess, b)
    requires forall x, y | x in a && y in b :: TextLess(x, y)
    ensures Ascends(TextLess, a + b)
  {
    hide TextLess;
  }

  /** Iterating the keyspace meets the keys entry by entry. */
  lemma IterationOrder(kept: seq<Kept>)
    requires Numbered(kept)
    ensures StrictTotal(TextLess) && Ascending(TextLess, HalvesOf(kept).Keys) == KeysOf(kept)
  {
    hide TextLess, KeysOf, HalvesOf;
    TextTotal();
    KeysAscend(kept);
    forall key ensures key in Elements(KeysOf(kept)) <==> key in HalvesOf(kept).Keys {
      KeysAreKeys(kept, key);
    }
    AscendsIsSorted(TextLess, KeysOf(kept));
    AscendsOnce(TextLess, KeysOf(kept), Ascending(TextLess, HalvesOf(kept).Keys));
  }

  // ---------- reading back ----------

  /** One key and its value added to a listing: a marker opens an entry, and a
      payload completes the entry its marker opened. */
  function Add(listing: Listing, key: string, half: Half): Listing {
    if !listing.Listing? then listing
    else if ParseQuarantine(key).Malformed? then Unreadable
    else
      var Quarantined(sequence, index, version, part) := ParseQuarantine(key).value;
      match (part, half)
      case (MarkerPart, MarkerHalf(marker)) => Listing(listing.kept + [Kept(sequence, index, version, marker, None)])
      case (PayloadPart, PayloadHalf(payload)) =>
        if listing.kept == [] then Unpaired(sequence)
        else
          var last := listing.kept[|listing.kept| - 1];
          if last.sequence == sequence && last.index == index && last.version == version && last.payload.None?
          then Listing(listing.kept[..|listing.kept| - 1] + [last.(payload := Some(payload))])
          else Unpaired(sequence)
      case (_, _) => Unreadable
  }

  function Rebuilt(keys: seq<string>, m: map<string, Half>): Listing
    requires forall k | k in keys :: k in m
  {
    if keys == [] then Listing([])
    else Add(Rebuilt(keys[..|keys| - 1], m), keys[|keys| - 1], m[keys[|keys| - 1]])
  }

  lemma {:induction false} RebuiltFrom(keys: seq<string>, m: map<string, Half>, other: map<string, Half>)
    requires forall k | k in keys :: k in m && k in other && m[k] == other[k]
    ensures Rebuilt(keys, m) == Rebuilt(keys, other)
  {
    hide Add;
    if keys != [] {
      RebuiltFrom(keys[..|keys| - 1], m, other);
    }
  }

  lemma ReadsBack(k: Kept, part: Part)
    requires KeptOk(k) && k.sequence <= U64_MAX
    ensures ParseQuarantine(KeyOfHalf(k, part)) == Parsed(Quarantined(k.sequence, k.index, k.version, part))
  {
    hide QuarantineKey, ParseQuarantine, IdentityOk;
    QuarantineRoundTrip(KeyOfHalf(k, part), k.sequence, k.index, k.version, part);
  }

  lemma AddsOne(kept: seq<Kept>, k: Kept)
    requires KeptOk(k) && k.sequence <= U64_MAX
    ensures var marked := Add(Listing(kept), KeyOfHalf(k, MarkerPart), MarkerHalf(k.marker));
      && (k.payload.None? ==> marked == Listing(kept + [k]))
      && (k.payload.Some? ==> Add(marked, KeyOfHalf(k, PayloadPart), PayloadHalf(k.payload.value)) == Listing(kept + [k]))
  {
    ReadsBack(k, MarkerPart);
    ReadsBack(k, PayloadPart);
    hide KeyOfHalf, ParseQuarantine, KeptOk;
    var alone := k.(payload := None);
    assert (kept + [alone])[..|kept|] == kept;
    assert alone.(payload := k.payload) == k;
  }

  /** The halves of a new entry are new keys and touch no other. */
  lemma HalvesApart(kept: seq<Kept>)
    requires Numbered(kept) && kept != []
    ensures var front, last := kept[..|kept| - 1], kept[|kept| - 1];
      && (forall key | key in KeysOf(front) :: key in HalvesOf(front) && key in HalvesOf(kept) && HalvesOf(kept)[key] == HalvesOf(front)[key])
      && KeyOfHalf(last, MarkerPart) in HalvesOf(kept) && HalvesOf(kept)[KeyOfHalf(last, MarkerPart)] == MarkerHalf(last.marker)
      && (last.payload.Some? ==>
            && KeyOfHalf(last, PayloadPart) in HalvesOf(kept)
            && HalvesOf(kept)[KeyOfHalf(last, PayloadPart)] == PayloadHalf(last.payload.value))
  {
    hide TextLess, KeyOfHalf, KeptOk;
    var front, last := kept[..|kept| - 1], kept[|kept| - 1];
    NumberedFront(kept);
    MarkerFirst(last);
    TextIrreflexive(KeyOfHalf(last, MarkerPart));
    forall key, half | key in KeysOf(front) ensures key != KeyOfHalf(last, half) && key in HalvesOf(front) {
      KeysAreKeys(front, key);
      KeyNames(front, key);
      var i, part :| 0 <= i < |front| && key == KeyOfHalf(front[i], part);
      LaterKeys(front[i], part, last, half);
      TextIrreflexive(key);
    }
  }

  /** Reading the keyspace back gives exactly the entries that were moved: no
      payload is met without its marker. */
  lemma {:induction false} ReadsAllBack(kept: seq<Kept>)
    requires Numbered(kept)
    ensures forall k | k in KeysOf(kept) :: k in HalvesOf(kept)
    ensures Rebuilt(KeysOf(kept), HalvesOf(kept)) == Listing(kept)
  {
    hide *;
    if kept == [] {
      NothingBack();
    } else {
      var front, last := kept[..|kept| - 1], kept[|kept| - 1];
      NumberedFront(kept);
      ReadsAllBack(front);
      HalvesApart(kept);
      AddsOne(front, last);
      RebuiltMore(kept);
    }
  }

  lemma NothingBack()
    ensures KeysOf([]) == [] && Rebuilt([], HalvesOf([])) == Listing([])
  {
  }

  lemma RebuiltMore(kept: seq<Kept>)
    requires kept != [] && Numbered(kept)
    requires var front, last := kept[..|kept| - 1], kept[|kept| - 1];
      && (forall key | key in KeysOf(front) :: key in HalvesOf(front) && key in HalvesOf(kept) && HalvesOf(kept)[key] == HalvesOf(front)[key])
      && Rebuilt(KeysOf(front), HalvesOf(front)) == Listing(front)
      && KeyOfHalf(last, MarkerPart) in HalvesOf(kept) && HalvesOf(kept)[KeyOfHalf(last, MarkerPart)] == MarkerHalf(last.marker)
      && (last.payload.Some? ==>
            && KeyOfHalf(last, PayloadPart) in HalvesOf(kept)
            && HalvesOf(kept)[KeyOfHalf(last, PayloadPart)] == PayloadHalf(last.payload.value))
      && var marked := Add(Listing(front), KeyOfHalf(last, MarkerPart), MarkerHalf(last.marker));
      && (last.payload.None? ==> marked == Listing(front + [last]))
      && (last.payload.Some? ==> Add(marked, KeyOfHalf(last, PayloadPart), PayloadHalf(last.payload.value)) == Listing(front + [last]))
    ensures forall k | k in KeysOf(kept) :: k in HalvesOf(kept)
    ensures Rebuilt(KeysOf(kept), HalvesOf(kept)) == Listing(kept)
  {
    hide *;
    var front, last := kept[..|kept| - 1], kept[|kept| - 1];
    var keys, m := KeysOf(front), HalvesOf(kept);
    RebuiltFrom(keys, m, HalvesOf(front));
    KeysMore(kept);
    var marker := keys + [KeyOfHalf(last, MarkerPart)];
    OneKeyMore(keys, KeyOfHalf(last, MarkerPart), m);
    if last.payload.Some? {
      OneKeyMore(marker, KeyOfHalf(last, PayloadPart), m);
    }
    assert kept == front + [last];
  }

  lemma KeysMore(kept: seq<Kept>)
    requires kept != []
    ensures var front, last := kept[..|kept| - 1], kept[|kept| - 1];
      var marker := KeysOf(front) + [KeyOfHalf(last, MarkerPart)];
      KeysOf(kept) == if last.payload.Some? then marker + [KeyOfHalf(last, PayloadPart)] else marker
  {
    hide KeyOfHalf;
  }

  lemma OneKeyMore(keys: seq<string>, key: string, m: map<string, Half>)
    requires key in m && forall k | k in keys :: k in m
    ensures forall k | k in keys + [key] :: k in m
    ensures Rebuilt(keys + [key], m) == Add(Rebuilt(keys, m), key, m[key])
  {
    hide Add;
    assert (keys + [key])[..|keys|] == keys;
  }

  /** The last key carries the highest sequence. */
  lemma LastKey(kept: seq<Kept>)
    requires Numbered(kept) && kept != []
    ensures KeysOf(kept) != []
    ensures var key := KeysOf(kept)[|KeysOf(kept)| - 1];
      ParseQuarantine(key).Parsed? && ParseQuarantine(key).value.sequence == |kept|
  {
    hide *;
    NumberedFront(kept);
    ReadsBack(kept[|kept| - 1], MarkerPart);
    ReadsBack(kept[|kept| - 1], PayloadPart);
    LastKeyIs(kept);
  }

  lemma LastKeyIs(kept: seq<Kept>)
    requires kept != []
    ensures KeysOf(kept) != []
    ensures KeysOf(kept)[|KeysOf(kept)| - 1]
      == KeyOfHalf(kept[|kept| - 1], if kept[|kept| - 1].payload.Some? then PayloadPart else MarkerPart)
  {
    hide KeyOfHalf;
  }
}
