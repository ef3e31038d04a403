/** Strings: decimal numbers, splitting and joining at a separator, hexadecimal. */
module Text {
  import opened Bytes
  import opened Options

  // ------------------------------------------------------------------ decimal numbers

  const DIGITS: string := "0123456789"

  function Digit(d: nat): char
    requires d < 10
  {
    DIGITS[d]
  }

  predicate IsDigit(c: char) {
    '0' <= c <= '9'
  }

  function DigitValue(c: char): (d: nat)
    requires IsDigit(c)
    ensures d < 10
  {
    c as nat - '0' as nat
  }

  predicate AllDigits(s: string) {
    forall i :: 0 <= i < |s| ==> IsDigit(s[i])
  }

  lemma DigitIsDigit(d: nat)
    requires d < 10
    ensures IsDigit(Digit(d)) && DigitValue(Digit(d)) == d
  {
  }

  function Decimal(n: nat): (s: string)
    ensures s != ""
  {
    if n < 10 then [Digit(n)] else Decimal(n / 10) + [Digit(n % 10)]
  }

  function Number(s: string): nat
    requires AllDigits(s)
  {
    if s == "" then 0 else 10 * Number(s[..|s| - 1]) + DigitValue(s[|s| - 1])
  }

  lemma NumberOfLast(s: string, c: char)
    requires AllDigits(s) && IsDigit(c)
    ensures AllDigits(s + [c]) && Number(s + [c]) == 10 * Number(s) + DigitValue(c)
  {
    assert (s + [c])[..|s + [c]| - 1] == s;
  }

  /** Decimal digits read back as the number they were written for. */
  lemma {:induction false} NumberOfDecimal(n: nat)
    ensures AllDigits(Decimal(n)) && Number(Decimal(n)) == n
  {
    DigitIsDigit(n % 10);
    if n < 10 {
      assert Decimal(n) == "" + [Digit(n)];
      NumberOfLast("", Digit(n));
    } else {
      NumberOfDecimal(n / 10);
      NumberOfLast(Decimal(n / 10), Digit(n % 10));
    }
  }

  lemma DecimalInjective(m: nat, n: nat)
    requires Decimal(m) == Decimal(n)
    ensures m == n
  {
    NumberOfDecimal(m);
    NumberOfDecimal(n);
  }

  // ------------------------------------------------------------------ splitting

  /** The first place of `c` in `s` from `at` on, or `|s|`. */
  function IndexFrom(s: string, c: char, at: nat): (i: nat)
    requires at <= |s|
    ensures at <= i <= |s| && (i < |s| ==> s[i] == c)
    ensures forall k :: at <= k < i ==> s[k] != c
    decreases |s| - at
  {
    if at == |s| || s[at] == c then at else IndexFrom(s, c, at + 1)
  }

  function IndexOf(s: string, c: char): (i: nat)
    ensures i <= |s| && (i < |s| ==> s[i] == c) && (i == |s| <==> c !in s)
    ensures forall k :: 0 <= k < i ==> s[k] != c
  {
    IndexFrom(s, c, 0)
  }

  /** The last place of `c` in the first `n` characters of `s`, or -1. */
  function LastIndexBelow(s: string, c: char, n: nat): (i: int)
    requires n <= |s|
    ensures -1 <= i < n && (i >= 0 ==> s[i] == c)
    ensures forall k :: i < k < n ==> s[k] != c
  {
    if n == 0 || s[n - 1] == c then n - 1 else LastIndexBelow(s, c, n - 1)
  }

  function LastIndexOf(s: string, c: char): (i: int)
    ensures -1 <= i < |s| && (i >= 0 ==> s[i] == c) && (i < 0 <==> c !in s)
    ensures forall k :: i < k < |s| ==> s[k] != c
  {
    LastIndexBelow(s, c, |s|)
  }

  /** The pieces of `s` between separators: one more than there are separators. */
  function Split(s: string, c: char): (parts: seq<string>)
    ensures parts != []
    decreases |s|
  {
    var i := IndexOf(s, c);
    if i == |s| then [s] else [s[..i]] + Split(s[i + 1..], c)
  }

  function Join(parts: seq<string>, c: char): string
    requires parts != []
  {
    if |parts| == 1 then parts[0] else parts[0] + [c] + Join(parts[1..], c)
  }

  /** The text before and after the last separator. */
  function RSplitOnce(s: string, c: char): Option<(string, string)> {
    var i := LastIndexOf(s, c);
    if i < 0 then None else Some((s[..i], s[i + 1..]))
  }

  predicate Lacks(parts: seq<string>, c: char) {
    forall i :: 0 <= i < |parts| ==> c !in parts[i]
  }

  /** Where the first separator stands, when the piece before it has none. */
  lemma IndexOfPrefixed(s: string, a: string, c: char, rest: string)
    requires s == a + [c] + rest && c !in a
    ensures IndexOf(s, c) == |a|
  {
    assert s[|a|] == c && forall k :: 0 <= k < |a| ==> s[k] == a[k];
  }

  lemma LastIndexOfSuffixed(s: string, a: string, c: char, b: string)
    requires s == a + [c] + b && c !in b
    ensures LastIndexOf(s, c) == |a|
  {
    assert s[|a|] == c && forall k :: |a| < k < |s| ==> s[k] == b[k - |a| - 1];
  }

  lemma SplitOfPrefixed(s: string, a: string, c: char, rest: string)
    requires s == a + [c] + rest && c !in a
    ensures Split(s, c) == [a] + Split(rest, c)
  {
    IndexOfPrefixed(s, a, c, rest);
    assert s[..|a|] == a && s[|a| + 1..] == rest;
  }

  lemma SplitOfPiece(s: string, c: char)
    requires c !in s
    ensures Split(s, c) == [s]
  {
  }

  /** Joined pieces split back into the pieces. */
  lemma {:induction false} SplitOfJoin(parts: seq<string>, c: char)
    requires parts != [] && Lacks(parts, c)
    ensures Split(Join(parts, c), c) == parts
    decreases |parts|
  {
    assert c !in parts[0];
    if |parts| == 1 {
      SplitOfPiece(parts[0], c);
    } else {
      SplitOfJoin(parts[1..], c);
      SplitOfPrefixed(Join(parts, c), parts[0], c, Join(parts[1..], c));
    }
  }

  lemma JoinOfCons(a: string, parts: seq<string>, c: char)
    requires parts != []
    ensures Join([a] + parts, c) == a + [c] + Join(parts, c)
  {
    assert ([a] + parts)[1..] == parts;
  }

  /** Splitting at the first separator: the piece before it, and the text after. */
  lemma SplitFirst(s: string, c: char) returns (a: string, rest: string)
    requires c in s
    ensures c !in a && s == a + [c] + rest && Split(s, c) == [a] + Split(rest, c)
  {
    var i := IndexOf(s, c);
    a, rest := s[..i], s[i + 1..];
    assert s == a + [c] + rest;
    SplitOfPrefixed(s, a, c, rest);
  }

  /** Splitting loses nothing, and leaves no separator in any piece. */
  lemma {:induction false} JoinOfSplit(s: string, c: char)
    ensures Join(Split(s, c), c) == s && Lacks(Split(s, c), c)
    decreases |s|
  {
    if c !in s {
      SplitOfPiece(s, c);
    } else {
      var a, rest := SplitFirst(s, c);
      JoinOfSplit(rest, c);
      JoinOfCons(a, Split(rest, c), c);
    }
  }

  lemma RSplitOfSuffixed(a: string, c: char, b: string)
    requires c !in b
    ensures RSplitOnce(a + [c] + b, c) == Some((a, b))
  {
    var s := a + [c] + b;
    LastIndexOfSuffixed(s, a, c, b);
    assert s[..|a|] == a && s[|a| + 1..] == b;
  }

  lemma RSplitParts(s: string, c: char)
    ensures RSplitOnce(s, c).None? <==> c !in s
    ensures RSplitOnce(s, c).Some? ==>
              var (a, b) := RSplitOnce(s, c).value; c !in b && s == a + [c] + b
  {
    var i := LastIndexOf(s, c);
    if i >= 0 {
      assert s == s[..i] + [c] + s[i + 1..];
    }
  }

  /** Two texts of the form piece, separator, rest are equal only part by part. */
  lemma PrefixedEqual(a: string, c: char, rest: string, a': string, rest': string)
    requires a + [c] + rest == a' + [c] + rest' && c !in a && c !in a'
    ensures a == a' && rest == rest'
  {
    var s := a + [c] + rest;
    IndexOfPrefixed(s, a, c, rest);
    IndexOfPrefixed(s, a', c, rest');
    assert s[..|a|] == a && s[..|a|] == a';
    assert s[|a| + 1..] == rest && s[|a| + 1..] == rest';
  }

  // ------------------------------------------------------------------ hexadecimal

  const HEX: string := "0123456789abcdef"

  function HexPair(b: byte): (s: string)
    ensures |s| == 2
  {
    [HEX[b / 16], HEX[b % 16]]
  }

  function Hex(bytes: seq<byte>): (s: string)
    ensures |s| == 2 * |bytes|
  {
    if bytes == [] then "" else HexPair(bytes[0]) + Hex(bytes[1..])
  }

  predicate IsHexDigit(c: char) {
    '0' <= c <= '9' || 'a' <= c <= 'f'
  }

  function HexValue(c: char): nat
    requires IsHexDigit(c)
  {
    if c <= '9' then c as nat - '0' as nat else c as nat - 'a' as nat + 10
  }

  /** Two digits, the high one first, read back as the byte. */
  lemma HexPairSpells(b: byte)
    ensures IsHexDigit(HexPair(b)[0]) && IsHexDigit(HexPair(b)[1])
    ensures 16 * HexValue(HexPair(b)[0]) + HexValue(HexPair(b)[1]) == b
  {
    HexDigitSpells(b / 16);
    HexDigitSpells(b % 16);
  }

  lemma HexDigitSpells(d: nat)
    requires d < 16
    ensures IsHexDigit(HEX[d]) && HexValue(HEX[d]) == d
  {
  }

  lemma HexPairInjective(a: byte, b: byte)
    requires HexPair(a) == HexPair(b)
    ensures a == b
  {
    HexPairSpells(a);
    HexPairSpells(b);
  }

  lemma {:induction false} HexInjective(a: seq<byte>, b: seq<byte>)
    requires Hex(a) == Hex(b)
    ensures a == b
    decreases |a|
  {
    if a != [] {
      var rest, rest' := Hex(a[1..]), Hex(b[1..]);
      assert Hex(a)[..2] == HexPair(a[0]) && Hex(b)[..2] == HexPair(b[0]);
      assert Hex(a)[2..] == rest && Hex(b)[2..] == rest';
      HexPairInjective(a[0], b[0]);
      HexInjective(a[1..], b[1..]);
    }
  }

  lemma {:induction false} HexIsHex(bytes: seq<byte>)
    ensures forall i :: 0 <= i < |Hex(bytes)| ==> IsHexDigit(Hex(bytes)[i])
    decreases |bytes|
  {
    if bytes != [] {
      HexIsHex(bytes[1..]);
      HexPairSpells(bytes[0]);
    }
  }
}
