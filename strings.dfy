/** The JavaScript string operations the source relies on: `trim`, the `\s`
    class, `length` in UTF-16 code units, `parseInt` with a decimal radix,
    and the camelCase to snake_case rewrite
    `key.replace(/([A-Z])/g, '_$1').toLowerCase()`. */
module JsStrings {
  import opened Common

  /** The characters of ECMAScript's WhiteSpace and LineTerminator productions:
      what `\s` matches, what `trim` removes and what `parseInt` skips. */
  predicate IsSpace(c: char) {
    c == '\t' || c == '\n' || c == '\U{B}' || c == '\U{C}' || c == '\r' || c == ' '
    || c == '\U{A0}' || c == '\U{1680}' || ('\U{2000}' <= c <= '\U{200A}')
    || c == '\U{2028}' || c == '\U{2029}' || c == '\U{202F}' || c == '\U{205F}'
    || c == '\U{3000}' || c == '\U{FEFF}'
  }

  /** The number of white-space characters that start `s`. */
  function Lead(s: string): (n: nat)
    ensures n <= |s|
    ensures forall i :: 0 <= i < n ==> IsSpace(s[i])
    ensures n < |s| ==> !IsSpace(s[n])
  {
    if s != [] && IsSpace(s[0]) then 1 + Lead(s[1..]) else 0
  }

  /** The number of white-space characters that end `s`. */
  function Trail(s: string): (n: nat)
    ensures n <= |s|
    ensures forall i :: |s| - n <= i < |s| ==> IsSpace(s[i])
    ensures n < |s| ==> !IsSpace(s[|s| - 1 - n])
  {
    if s != [] && IsSpace(s[|s| - 1]) then 1 + Trail(s[..|s| - 1]) else 0
  }

  /** `s.trim()`: the longest infix of `s` that neither starts nor ends with
      white space; it is empty exactly when `s` is all white space. */
  function Trim(s: string): (r: string)
    ensures Lead(s) + |r| <= |s| && r == s[Lead(s)..Lead(s) + |r|]
    ensures forall i :: Lead(s) + |r| <= i < |s| ==> IsSpace(s[i])
    ensures r == [] <==> forall i :: 0 <= i < |s| ==> IsSpace(s[i])
    ensures r != [] ==> !IsSpace(r[0]) && !IsSpace(r[|r| - 1])
  {
    var t := s[Lead(s)..];
    TrimmedSlice(s, t);
    t[..|t| - Trail(t)]
  }

  /** The facts `Trim` promises, about the white space its two cuts remove. */
  lemma TrimmedSlice(s: string, t: string)
    requires t == s[Lead(s)..]
    ensures var a, r := Lead(s), t[..|t| - Trail(t)];
      && a + |r| <= |s| && r == s[a..a + |r|]
      && (forall i :: a + |r| <= i < |s| ==> IsSpace(s[i]))
      && (r == [] <==> forall i :: 0 <= i < |s| ==> IsSpace(s[i]))
      && (r != [] ==> !IsSpace(r[0]) && !IsSpace(r[|r| - 1]))
  {
    TrimmedTail(s, t);
    TrimmedEmpty(s, t);
    TrimmedEnds(s, t);
  }

  lemma TrimmedTail(s: string, t: string)
    requires t == s[Lead(s)..]
    ensures var a, r := Lead(s), t[..|t| - Trail(t)];
      && a + |r| <= |s| && r == s[a..a + |r|]
      && (forall i :: a + |r| <= i < |s| ==> IsSpace(s[i]))
  {
    var a, b := Lead(s), Trail(t);
    forall i | a + (|t| - b) <= i < |s|
      ensures IsSpace(s[i])
    {
      assert s[i] == t[i - a];
    }
  }

  lemma TrimmedEmpty(s: string, t: string)
    requires t == s[Lead(s)..]
    ensures t[..|t| - Trail(t)] == [] <==> forall i :: 0 <= i < |s| ==> IsSpace(s[i])
  {
    var a, b := Lead(s), Trail(t);
    if |t| - b != 0 {
      assert !IsSpace(s[a]);
    }
  }

  lemma TrimmedEnds(s: string, t: string)
    requires t == s[Lead(s)..]
    ensures var r := t[..|t| - Trail(t)];
      r != [] ==> !IsSpace(r[0]) && !IsSpace(r[|r| - 1])
  {
    var a, b := Lead(s), Trail(t);
    if |t| - b > 0 {
      assert t[0] == s[a];
    }
  }

  lemma {:induction false} TrimIdempotent(s: string)
    ensures Trim(Trim(s)) == Trim(s)
  {
    var r := Trim(s);
    if r != [] {
      assert Lead(r) == 0;
      assert Trail(r) == 0;
    }
  }

  /* ---------- string length ---------- */

  /** The number of UTF-16 code units of a character: two for one outside
      the Basic Multilingual Plane, one otherwise. */
  function Utf16Units(c: char): (n: nat)
    ensures 1 <= n <= 2
    ensures n == 2 <==> c as int >= 0x1_0000
  {
    if c as int >= 0x1_0000 then 2 else 1
  }

  /** `s.length` in JavaScript: the number of UTF-16 code units of `s`,
      between its number of characters and twice that. */
  function Utf16Length(s: string): (n: nat)
    ensures |s| <= n <= 2 * |s|
    ensures (forall i :: 0 <= i < |s| ==> s[i] as int < 0x1_0000) ==> n == |s|
  {
    if s == [] then 0 else Utf16Units(s[0]) + Utf16Length(s[1..])
  }

  /** The length of a concatenation is the sum of the lengths. */
  lemma {:induction false} Utf16LengthAppend(a: string, b: string)
    ensures Utf16Length(a + b) == Utf16Length(a) + Utf16Length(b)
  {
    if a == [] {
      assert a + b == b;
    } else {
      assert (a + b)[0] == a[0];
      assert (a + b)[1..] == a[1..] + b;
      Utf16LengthAppend(a[1..], b);
    }
  }

  /** A slice is never longer than the whole string. */
  lemma Utf16LengthSlice(s: string, i: nat, j: nat)
    requires i <= j <= |s|
    ensures Utf16Length(s[i..j]) <= Utf16Length(s)
  {
    assert s == s[..i] + s[i..j] + s[j..];
    Utf16LengthAppend(s[..i] + s[i..j], s[j..]);
    Utf16LengthAppend(s[..i], s[i..j]);
  }

  /** Trimming never lengthens a string. */
  lemma Utf16LengthTrim(s: string)
    ensures Utf16Length(Trim(s)) <= Utf16Length(s)
  {
    var a, r := Lead(s), Trim(s);
    assert a + |r| <= |s| && r == s[a..a + |r|];
    Utf16LengthSlice(s, a, a + |r|);
  }

  /* ---------- camelCase to snake_case ---------- */

  predicate IsUpper(c: char) {
    'A' <= c <= 'Z'
  }

  /** KELVIN SIGN, which `toLowerCase` maps to the ASCII letter `k`. */
  const Kelvin: char := '\U{212A}'

  /** LATIN CAPITAL LETTER I WITH DOT ABOVE, which `toLowerCase` maps to
      `i` followed by COMBINING DOT ABOVE. */
  const DottedI: char := '\U{130}'

  /** A character `toLowerCase` leaves alone in this model: neither an
      upper-case ASCII letter nor one of the two characters above. */
  predicate Plain(c: char) {
    !IsUpper(c) && c != Kelvin && c != DottedI
  }

  /** What `toLowerCase` makes of one character: an upper-case ASCII letter
      becomes its lower-case form, the Kelvin sign `k`, the dotted capital I
      two characters; any other character stays as it is. */
  function ToLower(c: char): (d: string)
    ensures IsUpper(c) ==> d == [(c as int + 32) as char]
    ensures c == Kelvin ==> d == "k"
    ensures c == DottedI ==> d == "i\U{307}"
    ensures Plain(c) ==> d == [c]
    ensures forall i :: 0 <= i < |d| ==> Plain(d[i])
  {
    if IsUpper(c) then [(c as int + 32) as char]
    else if c == Kelvin then "k"
    else if c == DottedI then "i\U{307}"
    else [c]
  }

  /** What the rewrite does to one character: the regular expression puts
      `_` before an upper-case ASCII letter only, and the whole string is
      then lower-cased. */
  function SnakeChar(c: char): string {
    if IsUpper(c) then ['_'] + ToLower(c) else ToLower(c)
  }

  /** The number of characters the rewrite adds: one per upper-case ASCII
      letter (its `_`) and one per dotted capital I (its combining dot). */
  function AddedCount(s: string): nat {
    if s == [] then 0 else (if IsUpper(s[0]) || s[0] == DottedI then 1 else 0) + AddedCount(s[1..])
  }

  /** The column name `key.replace(/([A-Z])/g, '_$1').toLowerCase()`: the
      added characters lengthen the key, and no character the lower-casing
      would change is left. */
  function SnakeCase(key: string): (col: string)
    ensures |col| == |key| + AddedCount(key)
    ensures forall i :: 0 <= i < |col| ==> Plain(col[i])
  {
    if key == [] then [] else SnakeChar(key[0]) + SnakeCase(key[1..])
  }

  /** The rewrite works character by character, so it distributes over concatenation. */
  lemma {:induction false} SnakeCaseAppend(a: string, b: string)
    ensures SnakeCase(a + b) == SnakeCase(a) + SnakeCase(b)
  {
    if a == [] {
      assert a + b == b;
    } else {
      assert (a + b)[0] == a[0];
      assert (a + b)[1..] == a[1..] + b;
      SnakeCaseAppend(a[1..], b);
    }
  }

  /** `s` holds only characters the rewrite leaves alone. */
  predicate AllPlain(s: string) {
    forall i :: 0 <= i < |s| ==> Plain(s[i])
  }

  /** A key of such characters is its own column name; in particular the
      rewrite is idempotent. */
  lemma {:induction false} SnakeCasePlain(s: string)
    requires AllPlain(s)
    ensures SnakeCase(s) == s
    decreases |s|
  {
    if s != [] {
      SnakeCasePlain(s[1..]);
    }
  }

  /** The Kelvin sign is lower-cased to `k` without the `_` an ASCII `K`
      would get. */
  lemma SnakeCaseKelvin(w: string)
    requires AllPlain(w)
    ensures SnakeCase([Kelvin] + w) == "k" + w
  {
    assert ([Kelvin] + w)[1..] == w;
    SnakeCasePlain(w);
  }

  /** A capitalised word followed by a word that starts with the Kelvin
      sign. */
  lemma SnakeCaseWordThenKelvin(c: char, w1: string, w2: string)
    requires IsUpper(c) && AllPlain(w1) && AllPlain(w2)
    ensures SnakeCase(([c] + w1) + ([Kelvin] + w2)) == (['_'] + ToLower(c) + w1) + ("k" + w2)
  {
    SnakeCaseAppend([c] + w1, [Kelvin] + w2);
    SnakeCaseCapitalized(c, w1);
    SnakeCaseKelvin(w2);
  }

  /** A capitalised word `Xyz…` of a camelCase key becomes `_xyz…`. */
  lemma SnakeCaseCapitalized(c: char, w: string)
    requires IsUpper(c) && AllPlain(w)
    ensures SnakeCase([c] + w) == ['_'] + ToLower(c) + w
  {
    assert ([c] + w)[1..] == w;
    SnakeCasePlain(w);
  }

  /** Two capitalised words in a row, as in `ContactNumber1`. */
  lemma SnakeCaseTwoWords(c1: char, w1: string, c2: char, w2: string)
    requires IsUpper(c1) && IsUpper(c2) && AllPlain(w1) && AllPlain(w2)
    ensures SnakeCase(([c1] + w1) + ([c2] + w2)) == (['_'] + ToLower(c1) + w1) + (['_'] + ToLower(c2) + w2)
  {
    SnakeCaseAppend([c1] + w1, [c2] + w2);
    SnakeCaseCapitalized(c1, w1);
    SnakeCaseCapitalized(c2, w2);
  }

  /** A key that is one capitalised word, with its expected rewrite. */
  lemma SnakeCaseOfWord(key: string, c: char, w: string, col: string)
    requires key == [c] + w && col == ['_'] + ToLower(c) + w
    requires IsUpper(c) && AllPlain(w)
    ensures SnakeCase(key) == col
  {
    SnakeCaseCapitalized(c, w);
  }

  /** A key that is two capitalised words, with its expected rewrite. */
  lemma SnakeCaseOfTwoWords(key: string, c1: char, w1: string, c2: char, w2: string, col: string)
    requires key == ([c1] + w1) + ([c2] + w2)
    requires col == (['_'] + ToLower(c1) + w1) + (['_'] + ToLower(c2) + w2)
    requires IsUpper(c1) && AllPlain(w1) && IsUpper(c2) && AllPlain(w2)
    ensures SnakeCase(key) == col
  {
    SnakeCaseTwoWords(c1, w1, c2, w2);
  }

  /** A lower-case entity word followed by a capitalised word. */
  lemma SnakeCaseOfPrefixed(base: string, word: string, suffix: string)
    requires SnakeCase(base) == base && SnakeCase(word) == "_" + suffix
    ensures SnakeCase(base + word) == (base + "_") + suffix
  {
    SnakeCaseAppend(base, word);
    assert base + ("_" + suffix) == (base + "_") + suffix;
  }

  /* ---------- parseInt ---------- */

  predicate IsDigit(c: char) {
    '0' <= c <= '9'
  }

  predicate AllDigits(s: string) {
    forall i :: 0 <= i < |s| ==> IsDigit(s[i])
  }

  /** The length of the longest run of decimal digits that starts `s`. */
  function DigitPrefix(s: string): (n: nat)
    ensures n <= |s| && AllDigits(s[..n])
    ensures n < |s| ==> !IsDigit(s[n])
  {
    if s != [] && IsDigit(s[0]) then
      var m := DigitPrefix(s[1..]);
      assert s[..m + 1] == [s[0]] + s[1..][..m];
      m + 1
    else 0
  }

  /** The number a string of decimal digits denotes. */
  function DigitsValue(s: string): nat
    requires AllDigits(s)
  {
    if s == [] then 0 else 10 * DigitsValue(s[..|s| - 1]) + (s[|s| - 1] as int - '0' as int)
  }

  /** What follows the leading white space of `s`. */
  function Unpadded(s: string): string {
    s[Lead(s)..]
  }

  /** `s` with leading white space and one optional `+` or `-` removed. */
  function Unsigned(s: string): string {
    var t := Unpadded(s);
    if t != [] && (t[0] == '+' || t[0] == '-') then t[1..] else t
  }

  /** `parseInt(s)` for decimal input: `None` stands for NaN, which it is
      exactly when no digit follows the white space and the sign; otherwise
      the value of the longest digit run, negated after a `-`. */
  function ParseInt(s: string): (r: Option<int>)
    ensures r.Some? <==> Unsigned(s) != [] && IsDigit(Unsigned(s)[0])
    ensures r.Some? ==> var u := Unsigned(s); var n := DigitPrefix(u);
      r.value == (if Unpadded(s)[0] == '-' then -(DigitsValue(u[..n]) as int) else DigitsValue(u[..n]))
  {
    var u := Unsigned(s);
    var n := DigitPrefix(u);
    if n == 0 then None
    else if Unpadded(s)[0] == '-' then Some(-(DigitsValue(u[..n]) as int))
    else Some(DigitsValue(u[..n]))
  }

  function DigitChar(d: nat): (c: char)
    requires d < 10
    ensures IsDigit(c) && c as int - '0' as int == d
  {
    ('0' as int + d) as char
  }

  /** The decimal digits of `m`, most significant first, without leading zeros. */
  function Digits(m: nat): (s: string)
    ensures s != [] && AllDigits(s)
  {
    if m < 10 then [DigitChar(m)] else Digits(m / 10) + [DigitChar(m % 10)]
  }

  /** `String(n)` for an integer. */
  function Decimal(n: int): string {
    if n < 0 then "-" + Digits(-n) else Digits(n)
  }

  lemma {:induction false} DigitsValueOfDigits(m: nat)
    ensures DigitsValue(Digits(m)) == m
  {
    if m >= 10 {
      var s := Digits(m);
      assert s[..|s| - 1] == Digits(m / 10);
      DigitsValueOfDigits(m / 10);
    }
  }

  lemma {:induction false} DigitPrefixOfDigits(d: string, rest: string)
    requires AllDigits(d)
    requires rest == [] || !IsDigit(rest[0])
    ensures DigitPrefix(d + rest) == |d|
  {
    if d != [] {
      assert (d + rest)[1..] == d[1..] + rest;
      DigitPrefixOfDigits(d[1..], rest);
    } else {
      assert d + rest == rest;
    }
  }

  /** `parseInt` inverts `String` on integers, and ignores whatever follows
      the digits when it does not start with a digit. */
  lemma ParseIntDecimal(n: int, rest: string)
    requires rest == [] || !IsDigit(rest[0])
    ensures ParseInt(Decimal(n) + rest) == Some(n)
  {
    var s := Decimal(n) + rest;
    var m: nat := if n < 0 then -n else n;
    var d := Digits(m);
    assert Lead(s) == 0 by {
      assert !IsSpace(s[0]);
    }
    assert Unpadded(s) == s;
    if n < 0 {
      assert s == "-" + (d + rest);
      assert Unsigned(s) == d + rest;
    } else {
      assert s == d + rest;
      assert Unsigned(s) == d + rest;
    }
    DigitPrefixOfDigits(d, rest);
    assert (d + rest)[..|d|] == d;
    DigitsValueOfDigits(m);
  }
}
