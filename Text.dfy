/** Character classes, positional numerals, and the few Python string
    operations the display code relies on: `int(s, base)`, zero-padded
    decimal formatting, `str.split`, `str.join`, `str.strip`, `str.startswith`
    and slicing `s[:n]`. Characters are Unicode scalar values, as in Python 3
    strings. */
module Text {
  import opened Wrappers

  function Min(a: int, b: int): int { if a <= b then a else b }
  function Max(a: int, b: int): int { if a <= b then b else a }

  // ---------------------------------------------------------------------------
  // Digits and positional values

  /** An ASCII decimal digit: what the regular-expression class `\d` is taken to match. */
  predicate IsDigit(c: char) { '0' <= c <= '9' }

  /** The regular-expression class `[0-9a-fA-F]`. */
  predicate IsHexDigit(c: char) { '0' <= c <= '9' || 'a' <= c <= 'f' || 'A' <= c <= 'F' }

  function DigitValue(c: char): (v: nat)
    requires IsHexDigit(c)
    ensures v < 16
    ensures IsDigit(c) <==> v < 10
  {
    if '0' <= c <= '9' then c as int - '0' as int
    else if 'a' <= c <= 'f' then c as int - 'a' as int + 10
    else c as int - 'A' as int + 10
  }

  /** The digit character for `d` (upper-case letters above nine). */
  function DigitChar(d: nat): (c: char)
    requires d < 16
    ensures IsHexDigit(c) && DigitValue(c) == d
  {
    if d < 10 then ('0' as int + d) as char else ('A' as int + d - 10) as char
  }

  /** `c` is a digit of `base` (an ASCII digit for 10, `[0-9a-fA-F]` for 16). */
  predicate InBase(c: char, base: nat) {
    IsHexDigit(c) && DigitValue(c) < base
  }

  /** Every character of `ds` is a digit of `base`. */
  predicate DigitsIn(ds: string, base: nat) {
    forall i :: 0 <= i < |ds| ==> InBase(ds[i], base)
  }

  /** The number `ds` denotes in `base`, most significant digit first:
      Python's `int(ds, base)` on a string of ASCII digits (leading zeros allowed). */
  function Value(ds: string, base: nat): nat
    requires DigitsIn(ds, base)
    decreases |ds|
  {
    if ds == [] then 0
    else
      var init := ds[..|ds| - 1];
      assert forall i | 0 <= i < |init| :: init[i] == ds[i];
      Shift(Value(init, base), base) + DigitValue(ds[|ds| - 1])
  }

  /** `v` moved one place left in `base`. */
  function Shift(v: nat, base: nat): (r: nat) {
    v * base
  }

  /** The shortest numeral for `n` in `base`: Python's `str(n)` for base 10.
      Reading it back gives `n`, it has one digit exactly when `n < base`, and
      a numeral of two or more digits does not start with a zero. */
  function Render(n: nat, base: nat): (ds: string)
    requires 2 <= base <= 16
    ensures |ds| >= 1 && DigitsIn(ds, base)
    ensures Value(ds, base) == n
    ensures |ds| == 1 <==> n < base
    ensures |ds| > 1 ==> DigitValue(ds[0]) != 0
    decreases n
  {
    if n < base then [DigitChar(n)]
    else
      var q, d := n / base, n % base;
      DivMod(n, base);
      var ds := Render(q, base) + [DigitChar(d)];
      assert ds[..|ds| - 1] == Render(q, base);
      ds
  }

  /** A decimal numeral without a leading zero: a single digit, or digits
      that do not start with `0`. */
  predicate IsCanonical(ds: string) {
    |ds| >= 1 && DigitsIn(ds, 10) && (|ds| > 1 ==> ds[0] != '0')
  }

  /** `str(n)` is the only decimal numeral for `n` without a leading zero. */
  lemma {:induction false} RenderUnique(ds: string)
    requires IsCanonical(ds)
    ensures Render(Value(ds, 10), 10) == ds
    decreases |ds|
  {
    var n := Value(ds, 10);
    if |ds| == 1 {
      assert ds[..0] == [];
      assert n == Shift(Value([], 10), 10) + DigitValue(ds[0]);
      assert DigitChar(n) == ds[0];
    } else {
      var init := ds[..|ds| - 1];
      assert forall i | 0 <= i < |init| :: init[i] == ds[i];
      assert IsCanonical(init) by {
        assert init[0] == ds[0];
      }
      RenderUnique(init);
      var q, d := Value(init, 10), DigitValue(ds[|ds| - 1]);
      assert n == q * 10 + d && d < 10;
      LeadingDigitPositive(init);
      DivMod(n, 10);
      assert n / 10 == q && n % 10 == d;
      assert DigitChar(d) == ds[|ds| - 1];
      assert ds == init + [ds[|ds| - 1]];
    }
  }

  /** A decimal numeral that starts with a digit other than `0` is not zero. */
  lemma {:induction false} LeadingDigitPositive(ds: string)
    requires |ds| >= 1 && DigitsIn(ds, 10) && ds[0] != '0'
    ensures Value(ds, 10) >= 1
    decreases |ds|
  {
    if |ds| > 1 {
      var init := ds[..|ds| - 1];
      assert forall i | 0 <= i < |init| :: init[i] == ds[i];
      LeadingDigitPositive(init);
    } else {
      assert ds[..0] == [];
    }
  }

  lemma DivMod(n: nat, base: nat)
    requires 2 <= base <= n
    ensures (n / base) * base + n % base == n && n % base < base
    ensures 1 <= n / base < n
  {
    var q := n / base;
    assert q * base <= n;
    assert q * 2 <= q * base;
  }

  function Zeros(k: nat): (z: string)
    ensures |z| == k && forall i :: 0 <= i < k ==> z[i] == '0'
  {
    seq(k, _ => '0')
  }

  lemma {:induction false} LeadingZeros(k: nat, ds: string, base: nat)
    requires 2 <= base && DigitsIn(ds, base)
    ensures DigitsIn(Zeros(k) + ds, base)
    ensures Value(Zeros(k) + ds, base) == Value(ds, base)
    decreases |ds|
  {
    var s := Zeros(k) + ds;
    if ds == [] {
      ZerosValue(k, base);
      assert s == Zeros(k);
    } else {
      LeadingZeros(k, ds[..|ds| - 1], base);
      assert s[..|s| - 1] == Zeros(k) + ds[..|ds| - 1];
    }
  }

  lemma {:induction false} ZerosValue(k: nat, base: nat)
    requires 2 <= base
    ensures DigitsIn(Zeros(k), base) && Value(Zeros(k), base) == 0
  {
    if k > 0 {
      ZerosValue(k - 1, base);
      assert Zeros(k)[..k - 1] == Zeros(k - 1);
    }
  }

  /** Python's format spec `0{width}d` (base 10) or `0{width}X` (base 16) on a
      non-negative integer: its digits, left-padded with '0' to at least
      `width` characters. */
  function ZeroPadded(n: nat, width: nat, base: nat): (ds: string)
    requires 2 <= base <= 16
    ensures DigitsIn(ds, base) && Value(ds, base) == n
    ensures |ds| == Max(width, |Render(n, base)|)
    ensures |ds| >= 1 && |ds| >= width
  {
    var digits := Render(n, base);
    LeadingZeros(width - Min(width, |digits|), digits, base);
    Zeros(width - Min(width, |digits|)) + digits
  }

  /** A signed decimal numeral, as Python prints an integer: a minus sign
      exactly for a negative number, then digits without a leading zero. */
  function IntToString(i: int): (s: string)
    ensures ParseInt(s) == Some(i)
    ensures |s| >= 1 && (s[0] == '-' <==> i < 0)
    ensures IsCanonical(if i < 0 then s[1..] else s)
  {
    if i < 0 then
      var s := "-" + Render(-i, 10);
      assert s[1..] == Render(-i, 10);
      s
    else
      var s := Render(i, 10);
      assert IsDigit(s[0]);
      s
  }

  /** Reads an optionally negative decimal numeral; the inverse of `IntToString`. */
  function ParseInt(s: string): Option<int> {
    if |s| >= 2 && s[0] == '-' && DigitsIn(s[1..], 10) then Some(0 - Value(s[1..], 10))
    else if |s| >= 1 && DigitsIn(s, 10) then Some(Value(s, 10))
    else None
  }

  // ---------------------------------------------------------------------------
  // Splitting and joining

  /** Python's `s.split(sep)` for a one-character separator: the pieces between
      separators, in order; an empty string gives one empty piece. */
  function Split(s: string, sep: char): (parts: seq<string>)
    ensures |parts| >= 1
    ensures forall k :: 0 <= k < |parts| ==> sep !in parts[k]
    decreases |s|
  {
    if s == [] then [[]]
    else
      var rest := Split(s[1..], sep);
      if s[0] == sep then [[]] + rest
      else [[s[0]] + rest[0]] + rest[1..]
  }

  /** Python's `sep.join(parts)`. */
  function Join(parts: seq<string>, sep: char): string
    decreases |parts|
  {
    if parts == [] then []
    else if |parts| == 1 then parts[0]
    else parts[0] + [sep] + Join(parts[1..], sep)
  }

  /** Joining the pieces of a split gives back the original text. */
  lemma {:induction false} JoinSplit(s: string, sep: char)
    ensures Join(Split(s, sep), sep) == s
    decreases |s|
  {
    if s != [] {
      var rest := Split(s[1..], sep);
      JoinSplit(s[1..], sep);
      var parts := Split(s, sep);
      if s[0] == sep {
        assert parts[1..] == rest;
      } else if |rest| >= 2 {
        assert parts[1..] == rest[1..];
      }
    }
  }

  lemma {:induction false} SplitNoSeparator(a: string, sep: char)
    requires sep !in a
    ensures Split(a, sep) == [a]
    decreases |a|
  {
    if a != [] {
      SplitNoSeparator(a[1..], sep);
      assert [a[0]] + a[1..] == a;
    }
  }

  lemma {:induction false} SplitAt(a: string, sep: char, b: string)
    requires sep !in a
    ensures Split(a + [sep] + b, sep) == [a] + Split(b, sep)
    decreases |a|
  {
    var s := a + [sep] + b;
    if a == [] {
      assert s[1..] == b;
    } else {
      assert s[1..] == a[1..] + [sep] + b;
      SplitAt(a[1..], sep, b);
      assert [a[0]] + a[1..] == a;
    }
  }

  /** Splitting a join of separator-free pieces gives back the pieces. */
  lemma {:induction false} SplitJoin(parts: seq<string>, sep: char)
    requires |parts| >= 1
    requires forall k :: 0 <= k < |parts| ==> sep !in parts[k]
    ensures Split(Join(parts, sep), sep) == parts
    decreases |parts|
  {
    if |parts| == 1 {
      SplitNoSeparator(parts[0], sep);
    } else {
      SplitJoin(parts[1..], sep);
      SplitAt(parts[0], sep, Join(parts[1..], sep));
      assert [parts[0]] + parts[1..] == parts;
    }
  }

  // ---------------------------------------------------------------------------
  // Prefixes and white space

  /** Python's `str.isspace()` on one character. */
  predicate IsSpace(c: char) {
    c == ' ' || '\t' <= c <= '\r' || '\U{1C}' <= c <= '\U{1F}' || c == '\U{85}' || c == '\U{A0}'
    || c == '\U{1680}' || '\U{2000}' <= c <= '\U{200A}' || c == '\U{2028}' || c == '\U{2029}'
    || c == '\U{202F}' || c == '\U{205F}' || c == '\U{3000}'
  }

  /** `s` without its leading white space (the part of `str.strip()` that decides
      what a stripped line starts with). */
  function TrimStart(s: string): string
    decreases |s|
  {
    if s != [] && IsSpace(s[0]) then TrimStart(s[1..]) else s
  }

  /** What `TrimStart` removes is white space, and what it keeps is a suffix of
      `s` that does not start with white space. */
  lemma {:induction false} TrimStartIsSuffix(s: string)
    ensures |TrimStart(s)| <= |s| && TrimStart(s) == s[|s| - |TrimStart(s)|..]
    ensures forall i :: 0 <= i < |s| - |TrimStart(s)| ==> IsSpace(s[i])
    ensures TrimStart(s) == [] || !IsSpace(TrimStart(s)[0])
    decreases |s|
  {
    if s != [] && IsSpace(s[0]) {
      TrimStartIsSuffix(s[1..]);
    }
  }

  /** Python's `s.startswith(p)`. */
  predicate StartsWith(s: string, p: string) {
    |p| <= |s| && s[..|p|] == p
  }

  /** Python's slice `s[:n]` for `n >= 0`: the first `n` characters, or all of
      `s` when it is shorter. */
  function Take(s: string, n: nat): (r: string)
    ensures |r| == Min(n, |s|) && StartsWith(s, r)
  {
    if |s| <= n then s else s[..n]
  }
}
