/** Text as the storage keys use it: byte order, cutting at a separator, and
    fixed-width decimal numbers. */
module Texts {
  import opened Orders

  const SEPARATOR: char := '/'

  /** Byte order: the order of code points, a prefix before its extensions. */
  predicate TextLess(a: string, b: string) {
    b != "" && (a == "" || a[0] < b[0] || (a[0] == b[0] && TextLess(a[1..], b[1..])))
  }

  lemma {:induction false} TextIrreflexive(a: string)
    ensures !TextLess(a, a)
  {
    if a != "" {
      TextIrreflexive(a[1..]);
    }
  }

  lemma {:induction false} TextTransitive(a: string, b: string, c: string)
    requires TextLess(a, b) && TextLess(b, c)
    ensures TextLess(a, c)
  {
    if a != "" && a[0] == b[0] && b[0] == c[0] {
      TextTransitive(a[1..], b[1..], c[1..]);
    }
  }

  lemma {:induction false} TextComparable(a: string, b: string)
    ensures a == b || TextLess(a, b) || TextLess(b, a)
  {
    if a != "" && b != "" && a[0] == b[0] {
      TextComparable(a[1..], b[1..]);
      assert a == [a[0]] + a[1..] && b == [b[0]] + b[1..];
    }
  }

  lemma TextTotal()
    ensures StrictTotal(TextLess)
  {
    forall a ensures !TextLess(a, a) {
      TextIrreflexive(a);
    }
    forall a, b, c | TextLess(a, b) && TextLess(b, c) ensures TextLess(a, c) {
      TextTransitive(a, b, c);
    }
    forall a, b ensures a == b || TextLess(a, b) || TextLess(b, a) {
      TextComparable(a, b);
    }
  }

  /** A shared prefix does not matter. */
  lemma {:induction false} SharedPrefix(p: string, a: string, b: string)
    ensures TextLess(p + a, p + b) <==> TextLess(a, b)
  {
    if p == "" {
      assert p + a == a && p + b == b;
    } else {
      assert (p + a)[1..] == p[1..] + a && (p + b)[1..] == p[1..] + b;
      SharedPrefix(p[1..], a, b);
    }
  }

  /** Between heads of one length, the heads decide unless they are equal. */
  lemma {:induction false} HeadsDecide(a: string, b: string, x: string, y: string)
    requires |a| == |b| && a != b
    ensures TextLess(a + x, b + y) <==> TextLess(a, b)
  {
    if a[0] == b[0] {
      assert (a + x)[1..] == a[1..] + x && (b + y)[1..] == b[1..] + y;
      assert a == [a[0]] + a[1..] && b == [b[0]] + b[1..];
      HeadsDecide(a[1..], b[1..], x, y);
    }
  }

  /** Keys that start with `p` come from `p` on, and nothing comes between them. */
  lemma {:induction false} PrefixesContiguous(p: string, a: string, b: string)
    requires p <= b && !TextLess(a, p) && TextLess(a, b)
    ensures p <= a
  {
    if p != "" {
      TextIrreflexive(a);
      assert a != "" && a[0] == p[0];
      PrefixesContiguous(p[1..], a[1..], b[1..]);
      assert p == [p[0]] + p[1..] && a == [a[0]] + a[1..];
    }
  }

  lemma {:induction false} PrefixFirst(p: string, a: string)
    requires p <= a
    ensures !TextLess(a, p)
  {
    if p != "" {
      PrefixFirst(p[1..], a[1..]);
    }
  }

  /** The parts between separators; always at least one. */
  function Split(text: string): (parts: seq<string>)
    ensures parts != [] && (forall i | 0 <= i < |parts| :: SEPARATOR !in parts[i]) && Join(parts) == text
  {
    if text == "" then [""]
    else
      var rest := Split(text[1..]);
      if text[0] == SEPARATOR then
        assert Join([""] + rest) == "" + [SEPARATOR] + Join(rest);
        assert ([""] + rest)[1..] == rest;
        [""] + rest
      else
        JoinLonger(text[0], rest);
        [[text[0]] + rest[0]] + rest[1..]
  }

  function Join(parts: seq<string>): string
    requires parts != []
  {
    if |parts| == 1 then parts[0] else parts[0] + [SEPARATOR] + Join(parts[1..])
  }

  lemma JoinLonger(c: char, parts: seq<string>)
    requires parts != []
    ensures Join([[c] + parts[0]] + parts[1..]) == [c] + Join(parts)
  {
    assert ([[c] + parts[0]] + parts[1..])[1..] == parts[1..];
  }

  /** A part with no separator is cut off as it is. */
  lemma {:induction false} SplitCuts(part: string, rest: string)
    requires SEPARATOR !in part
    ensures Split(part + [SEPARATOR] + rest) == [part] + Split(rest)
  {
    var text := part + [SEPARATOR] + rest;
    if part == "" {
      assert text[1..] == rest;
    } else {
      assert text[1..] == part[1..] + [SEPARATOR] + rest;
      SplitCuts(part[1..], rest);
      assert [part[0]] + part[1..] == part;
    }
  }

  lemma {:induction false} SplitWhole(part: string)
    requires SEPARATOR !in part
    ensures Split(part) == [part]
  {
    if part != "" {
      SplitWhole(part[1..]);
      assert [part[0]] + part[1..] == part;
    }
  }

  /** Two texts cut alike have the same parts. */
  lemma CutAlike(a: string, x: string, b: string, y: string)
    requires SEPARATOR !in a && SEPARATOR !in b
    requires a + [SEPARATOR] + x == b + [SEPARATOR] + y
    ensures a == b && x == y
  {
    SplitCuts(a, x);
    SplitCuts(b, y);
    assert ([a] + Split(x))[0] == ([b] + Split(y))[0];
    assert x == (a + [SEPARATOR] + x)[|a| + 1..];
    assert y == (b + [SEPARATOR] + y)[|b| + 1..];
  }

  predicate IsDigit(c: char) {
    '0' <= c <= '9'
  }

  predicate AllDigits(s: string) {
    forall i | 0 <= i < |s| :: IsDigit(s[i])
  }

  function DigitChar(d: nat): char
    requires d < 10
  {
    ('0' as int + d) as char
  }

  function Pow10(w: nat): nat {
    if w == 0 then 1 else 10 * Pow10(w - 1)
  }

  /** `n` in decimal, zero-padded to `w` digits. */
  function Digits(n: nat, w: nat): (s: string)
    ensures |s| == w && AllDigits(s)
  {
    if w == 0 then "" else Digits(n / 10, w - 1) + [DigitChar(n % 10)]
  }

  /** The number a run of digits spells. */
  function Value(s: string): (n: nat)
    requires AllDigits(s)
    ensures n < Pow10(|s|)
  {
    if s == "" then 0 else 10 * Value(s[..|s| - 1]) + (s[|s| - 1] as int - '0' as int)
  }

  lemma {:induction false} ValueOfDigits(n: nat, w: nat)
    requires n < Pow10(w)
    ensures Value(Digits(n, w)) == n
  {
    if w > 0 {
      ValueOfDigits(n / 10, w - 1);
      assert Digits(n, w)[..w - 1] == Digits(n / 10, w - 1);
    }
  }

  lemma {:induction false} DigitsOfValue(s: string)
    requires AllDigits(s)
    ensures Digits(Value(s), |s|) == s
  {
    if s != "" {
      DigitsOfValue(s[..|s| - 1]);
      assert s == s[..|s| - 1] + [s[|s| - 1]];
    }
  }

  lemma {:induction false} LastDecides(a: string, b: string, c: char, d: char)
    requires |a| == |b|
    ensures TextLess(a + [c], b + [d]) <==> TextLess(a, b) || (a == b && c < d)
  {
    if a != "" {
      assert (a + [c])[1..] == a[1..] + [c] && (b + [d])[1..] == b[1..] + [d];
      assert a == [a[0]] + a[1..] && b == [b[0]] + b[1..];
      LastDecides(a[1..], b[1..], c, d);
    }
  }

  /** Padded to one width, byte order is numeric order. */
  lemma {:induction false} DigitsOrder(n: nat, m: nat, w: nat)
    requires n < Pow10(w) && m < Pow10(w)
    ensures TextLess(Digits(n, w), Digits(m, w)) <==> n < m
  {
    hide TextLess, DigitChar;
    if w == 0 {
      TextIrreflexive("");
    } else {
      DigitsOrder(n / 10, m / 10, w - 1);
      LastDecides(Digits(n / 10, w - 1), Digits(m / 10, w - 1), DigitChar(n % 10), DigitChar(m % 10));
      ValueOfDigits(n / 10, w - 1);
      ValueOfDigits(m / 10, w - 1);
      CharsOrder(n % 10, m % 10);
      TenDecides(n, m);
    }
  }

  lemma CharsOrder(c: nat, d: nat)
    requires c < 10 && d < 10
    ensures DigitChar(c) < DigitChar(d) <==> c < d
  {
  }

  lemma TenDecides(n: nat, m: nat)
    ensures n < m <==> n / 10 < m / 10 || (n / 10 == m / 10 && n % 10 < m % 10)
  {
  }
}
