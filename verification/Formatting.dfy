/** Number formatting as strconv does it, and what it takes to read a joined key back. */
module Formatting {

  const DIGITS := "0123456789abcdef"

  function Digit(d: nat): char
    requires d < 16
  {
    DIGITS[d]
  }

  function Value(c: char): nat {
    if '0' <= c <= '9' then (c - '0') as nat
    else if 'a' <= c <= 'f' then (c - 'a') as nat + 10
    else 16
  }

  // strconv.FormatUint
  function FormatUint(n: nat, base: nat): (s: string)
    requires 2 <= base <= 16
    ensures s != [] && forall c :: c in s ==> Value(c) < base
  {
    DivMod(n, base);
    DigitValue(n % base);
    if n < base then [Digit(n)] else FormatUint(n / base, base) + [Digit(n % base)]
  }

  lemma DivMod(n: nat, base: nat)
    requires 2 <= base
    ensures 0 <= n % base < base && n == (n / base) * base + n % base
    ensures n < base ==> n % base == n
    ensures n >= base ==> 0 <= n / base < n
  {
    var q := n / base;
    assert n == q * base + n % base;
    assert q * base >= q * 2;
  }

  lemma DigitValue(d: nat)
    requires d < 16
    ensures Value(Digit(d)) == d
  {
    assert d in {0, 1, 2, 3, 4, 5, 6, 7, 8, 9, 10, 11, 12, 13, 14, 15};
  }

  function ParseDigits(s: string, base: nat): nat {
    if s == [] then 0 else ParseDigits(s[..|s| - 1], base) * base + Value(s[|s| - 1])
  }

  lemma {:induction false} ParseFormat(n: nat, base: nat)
    requires 2 <= base <= 16
    ensures ParseDigits(FormatUint(n, base), base) == n
  {
    DivMod(n, base);
    DigitValue(n % base);
    var s := FormatUint(n, base);
    if n < base {
      assert s == [Digit(n)];
    } else {
      var q := n / base;
      ParseFormat(q, base);
      assert s[..|s| - 1] == FormatUint(q, base);
    }
  }

  // Different numbers print differently.
  lemma FormatInjective(m: nat, n: nat, base: nat)
    requires 2 <= base <= 16 && FormatUint(m, base) == FormatUint(n, base)
    ensures m == n
  {
    ParseFormat(m, base);
    ParseFormat(n, base);
  }

  // fmt's %d
  function FormatInt(n: int): string {
    if n < 0 then "-" + FormatUint(-n, 10) else FormatUint(n, 10)
  }

  lemma FormatIntInjective(m: int, n: int)
    requires FormatInt(m) == FormatInt(n)
    ensures m == n
  {
    var fm, fn := FormatUint(if m < 0 then -m else m, 10), FormatUint(if n < 0 then -n else n, 10);
    assert Value('-') == 16;
    assert fm[0] in fm && fn[0] in fn;
    if m < 0 && n < 0 {
      assert FormatInt(m)[1..] == fm && FormatInt(n)[1..] == fn;
    }
    assert fm == fn;
    FormatInjective(if m < 0 then -m else m, if n < 0 then -n else n, 10);
  }

  // Whatever follows the first separator, the text before it is determined.
  lemma FirstSeparator(sep: char, a: string, b: string, c: string, d: string)
    requires sep !in a && sep !in c && a + [sep] + b == c + [sep] + d
    ensures a == c && b == d
  {
    var x, y := a + [sep] + b, c + [sep] + d;
    assert x[|a|] == sep && y[|c|] == sep;
    assert |a| == |c|;
    assert x[..|a|] == a && y[..|c|] == c;
    assert x[|a| + 1..] == b && y[|c| + 1..] == d;
  }

  // Whatever precedes the last separator, the text after it is determined.
  lemma LastSeparator(sep: char, a: string, b: string, c: string, d: string)
    requires sep !in b && sep !in d && a + [sep] + b == c + [sep] + d
    ensures a == c && b == d
  {
    var x, y := a + [sep] + b, c + [sep] + d;
    assert x[|a|] == sep && y[|c|] == sep;
    assert |a| == |c|;
    assert x[..|a|] == a && y[..|c|] == c;
    assert x[|a| + 1..] == b && y[|c| + 1..] == d;
  }

  // ----- Amounts: printed when stored, parsed when read -----

  const MAX_UINT64: nat := 0xFFFF_FFFF_FFFF_FFFF

  // utils.ParseUint64: 0 on a syntax error, the greatest uint64 when out of range.
  function ParseUint64(s: string): nat {
    if s == [] || exists c :: c in s && Value(c) >= 10 then 0
    else if ParseDigits(s, 10) > MAX_UINT64 then MAX_UINT64
    else ParseDigits(s, 10)
  }

  // Every uint64 survives being stored as a string and read back.
  lemma AmountRoundTrip(n: nat)
    ensures ParseUint64(FormatUint(n, 10)) == n <==> n <= 18_446_744_073_709_551_615
  {
    ParseFormat(n, 10);
  }
}
