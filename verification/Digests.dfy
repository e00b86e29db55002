/** The text form of an operation digest: exactly 64 lowercase hex digits. */
module Digests {
  import opened Options

  type Byte = b: nat | b < 256

  const BYTE_COUNT: nat := 32
  const HEX_LEN: nat := 64

  function HexChar(n: nat): char
    requires n < 16
  {
    if n < 10 then ('0' as int + n) as char else ('a' as int + n - 10) as char
  }

  function Nibble(c: char): (n: Option<nat>)
    ensures n.Some? ==> n.value < 16
  {
    if '0' <= c <= '9' then Some(c as int - '0' as int)
    else if 'a' <= c <= 'f' then Some(c as int - 'a' as int + 10)
    else None
  }

  lemma NibbleReads(c: char, n: nat)
    requires n < 16
    ensures Nibble(c) == Some(n) <==> c == HexChar(n)
  {
  }

  /** Half of a byte: the high half of each byte comes first. */
  function HalfAt(bytes: seq<Byte>, k: nat): (n: nat)
    requires k < 2 * |bytes|
    ensures n < 16
  {
    if k % 2 == 0 then bytes[k / 2] / 16 else bytes[k / 2] % 16
  }

  /** Two digits a byte. */
  function HexText(bytes: seq<Byte>): (s: string)
    ensures |s| == 2 * |bytes| && forall k | 0 <= k < |s| :: s[k] == HexChar(HalfAt(bytes, k))
  {
    seq(2 * |bytes|, k requires 0 <= k < 2 * |bytes| => HexChar(HalfAt(bytes, k)))
  }

  lemma ReadsHalf(bytes: seq<Byte>, k: nat)
    requires k < 2 * |bytes|
    ensures Nibble(HexText(bytes)[k]) == Some(HalfAt(bytes, k))
  {
    NibbleReads(HexText(bytes)[k], HalfAt(bytes, k));
    hide HalfAt;
  }

  /** Different digests print differently. */
  lemma HexOnce(a: seq<Byte>, b: seq<Byte>)
    requires HexText(a) == HexText(b)
    ensures a == b
  {
    assert |HexText(a)| == |HexText(b)|;
    hide HexText, Nibble;
    forall i | 0 <= i < |a| ensures a[i] == b[i] {
      ReadsHalf(a, 2 * i);
      ReadsHalf(b, 2 * i);
      ReadsHalf(a, 2 * i + 1);
      ReadsHalf(b, 2 * i + 1);
      assert a[i] / 16 == b[i] / 16 && a[i] % 16 == b[i] % 16;
    }
  }

  /** Accepts exactly the texts digests print as, and reads them back. */
  method Parse(value: string) returns (digest: Option<seq<Byte>>)
    ensures digest.Some? ==> |digest.value| == BYTE_COUNT && HexText(digest.value) == value
    ensures digest.None? ==> forall bytes: seq<Byte> | |bytes| == BYTE_COUNT :: HexText(bytes) != value
  {
    if |value| != HEX_LEN {
      return None;
    }
    var nibbles := new nat[HEX_LEN](_ => 0);
    for offset := 0 to HEX_LEN
      invariant forall i | 0 <= i < offset :: Nibble(value[i]) == Some(nibbles[i])
    {
      var parsed := Nibble(value[offset]);
      if parsed.None? {
        forall bytes: seq<Byte> | |bytes| == BYTE_COUNT ensures HexText(bytes) != value {
          ReadsHalf(bytes, offset);
        }
        return None;
      }
      nibbles[offset] := parsed.value;
    }
    var bytes: seq<Byte> := [];
    for i := 0 to BYTE_COUNT
      invariant |bytes| == i
      invariant forall j | 0 <= j < i :: bytes[j] == 16 * nibbles[2 * j] + nibbles[2 * j + 1]
    {
      assert Nibble(value[2 * i]) == Some(nibbles[2 * i]) && Nibble(value[2 * i + 1]) == Some(nibbles[2 * i + 1]);
      bytes := bytes + [16 * nibbles[2 * i] + nibbles[2 * i + 1]];
    }
    ghost var digits := nibbles[..];
    Assembled(value, digits, bytes);
    digest := Some(bytes);
  }

  lemma Assembled(value: string, nibbles: seq<nat>, bytes: seq<Byte>)
    requires |value| == |nibbles| == HEX_LEN && |bytes| == BYTE_COUNT
    requires forall i | 0 <= i < HEX_LEN :: Nibble(value[i]) == Some(nibbles[i])
    requires forall j | 0 <= j < BYTE_COUNT :: bytes[j] == 16 * nibbles[2 * j] + nibbles[2 * j + 1]
    ensures HexText(bytes) == value
  {
    forall i | 0 <= i < HEX_LEN ensures HexText(bytes)[i] == value[i] {
      HalfIs(value, nibbles, bytes, i);
      ReadsHalf(bytes, i);
      NibbleReads(value[i], nibbles[i]);
      NibbleReads(HexText(bytes)[i], nibbles[i]);
    }
  }

  lemma HalfIs(value: string, nibbles: seq<nat>, bytes: seq<Byte>, i: nat)
    requires |value| == |nibbles| == HEX_LEN && |bytes| == BYTE_COUNT && i < HEX_LEN
    requires forall i | 0 <= i < HEX_LEN :: Nibble(value[i]) == Some(nibbles[i])
    requires forall j | 0 <= j < BYTE_COUNT :: bytes[j] == 16 * nibbles[2 * j] + nibbles[2 * j + 1]
    ensures nibbles[i] == HalfAt(bytes, i) < 16
  {
    var j := i / 2;
    assert Nibble(value[2 * j]) == Some(nibbles[2 * j]) && Nibble(value[2 * j + 1]) == Some(nibbles[2 * j + 1]);
    hide Nibble;
    Halves(bytes[j], nibbles[2 * j], nibbles[2 * j + 1]);
    assert i == 2 * j || i == 2 * j + 1;
  }

  lemma Halves(b: nat, high: nat, low: nat)
    requires low < 16 && b == 16 * high + low
    ensures b / 16 == high && b % 16 == low
  {
  }

  /** The number a lowercase hex digit stands for. */
  ghost predicate Stands(c: char, n: nat) {
    (n < 10 && c == "0123456789"[n]) || (10 <= n < 16 && c == "abcdef"[n - 10])
  }

  /** Each byte prints as two digits, the more significant first. */
  lemma TwoDigits(bytes: seq<Byte>, i: nat) returns (high: nat, low: nat)
    requires i < |bytes|
    ensures Stands(HexText(bytes)[2 * i], high) && Stands(HexText(bytes)[2 * i + 1], low)
    ensures bytes[i] == 16 * high + low && low < 16
  {
    high, low := HalfAt(bytes, 2 * i), HalfAt(bytes, 2 * i + 1);
    Digit(high);
    Digit(low);
    hide HexChar;
  }

  lemma Digit(n: nat)
    requires n < 16
    ensures Stands(HexChar(n), n)
  {
  }
}
