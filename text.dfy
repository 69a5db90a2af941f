/**
 * The string primitives the search core leans on: UTF-8 byte lengths (Rust
 * measures strings in bytes), Unicode whitespace and `trim`, first-occurrence
 * `find`, unsigned decimal printing, and ASCII case mapping.
 */
module Text {
  import opened Wrappers

  // ---------------------------------------------------------------------------
  // UTF-8 lengths

  /** Number of bytes the character occupies in UTF-8. */
  function CharBytes(c: char): (n: nat)
    ensures 1 <= n <= 4
    ensures n == 1 <==> c as int < 0x80
  {
    if c as int < 0x80 then 1
    else if c as int < 0x800 then 2
    else if c as int < 0x1_0000 then 3
    else 4
  }

  /** Bytes taken in UTF-8 by the first `n` characters of `s`: the byte offset of character `n`. */
  function Bytes(s: string, n: nat): (b: nat)
    requires n <= |s|
    ensures n <= b <= 4 * n
  {
    if n == 0 then 0 else Bytes(s, n - 1) + CharBytes(s[n - 1])
  }

  /** Byte length of a string in UTF-8: what Rust's `str::len` returns. */
  function ByteLen(s: string): (n: nat)
    ensures |s| <= n <= 4 * |s|
  {
    Bytes(s, |s|)
  }

  /** Byte offsets grow with the character index. */
  lemma {:induction false} BytesMono(s: string, a: nat, b: nat)
    requires a <= b <= |s|
    ensures Bytes(s, a) <= Bytes(s, b)
    decreases b - a
  {
    if a < b {
      BytesMono(s, a, b - 1);
    }
  }

  /** Two strings that agree on their first `n` characters agree on the bytes those take. */
  lemma {:induction false} BytesSame(s: string, t: string, n: nat)
    requires n <= |s| && n <= |t|
    requires forall i :: 0 <= i < n ==> s[i] == t[i]
    ensures Bytes(s, n) == Bytes(t, n)
    decreases n
  {
    if n > 0 {
      BytesSame(s, t, n - 1);
    }
  }

  /** Byte offsets in `a + b` past the end of `a`. */
  lemma {:induction false} BytesAppend(a: string, b: string, j: nat)
    requires j <= |b|
    ensures Bytes(a + b, |a| + j) == ByteLen(a) + Bytes(b, j)
    decreases j
  {
    if j == 0 {
      BytesSame(a + b, a, |a|);
    } else {
      BytesAppend(a, b, j - 1);
      assert (a + b)[|a| + j - 1] == b[j - 1];
    }
  }

  lemma ByteLenAppend(a: string, b: string)
    ensures ByteLen(a + b) == ByteLen(a) + ByteLen(b)
  {
    BytesAppend(a, b, |b|);
  }

  /** The bytes of a slice are the difference of the byte offsets at its ends. */
  lemma {:induction false} BytesSlice(s: string, a: nat, b: nat)
    requires a <= b <= |s|
    ensures Bytes(s, b) == Bytes(s, a) + ByteLen(s[a..b])
    decreases b - a
  {
    if a < b {
      BytesSlice(s, a, b - 1);
      var t := s[a..b];
      BytesSame(t, s[a..b - 1], b - 1 - a);
      assert t[b - 1 - a] == s[b - 1];
    }
  }

  /** For ASCII text bytes and characters coincide. */
  lemma {:induction false} BytesAscii(s: string, n: nat)
    requires n <= |s|
    requires forall i :: 0 <= i < n ==> s[i] as int < 0x80
    ensures Bytes(s, n) == n
    decreases n
  {
    if n > 0 {
      BytesAscii(s, n - 1);
    }
  }

  lemma ByteLenAscii(s: string)
    requires forall i :: 0 <= i < |s| ==> s[i] as int < 0x80
    ensures ByteLen(s) == |s|
  {
    BytesAscii(s, |s|);
  }

  // ---------------------------------------------------------------------------
  // Whitespace and trimming

  /** The Unicode White_Space property, which Rust's `char::is_whitespace` tests. */
  predicate IsWhitespace(c: char) {
    ('\t' <= c <= '\r') || c == ' ' || c == '\U{85}' || c == '\U{A0}' || c == '\U{1680}'
    || ('\U{2000}' <= c <= '\U{200A}') || c == '\U{2028}' || c == '\U{2029}'
    || c == '\U{202F}' || c == '\U{205F}' || c == '\U{3000}'
  }

  /** Drops leading whitespace (see `TrimStartSpec`). */
  function TrimStart(s: string): (r: string)
    ensures |r| <= |s|
    ensures r == [] || !IsWhitespace(r[0])
  {
    if s != [] && IsWhitespace(s[0]) then TrimStart(s[1..]) else s
  }

  /** The result of `TrimStart` is the suffix of `s` left after a run of whitespace. */
  lemma {:induction false} TrimStartSpec(s: string)
    ensures var r := TrimStart(s);
      && r == s[|s| - |r|..]
      && (forall i :: 0 <= i < |s| - |r| ==> IsWhitespace(s[i]))
    decreases |s|
  {
    if s != [] && IsWhitespace(s[0]) {
      TrimStartSpec(s[1..]);
    }
  }

  /** Drops trailing whitespace (see `TrimEndSpec`). */
  function TrimEnd(s: string): (r: string)
    ensures |r| <= |s|
    ensures r == [] || !IsWhitespace(r[|r| - 1])
  {
    if s != [] && IsWhitespace(s[|s| - 1]) then TrimEnd(s[..|s| - 1]) else s
  }

  /** The result of `TrimEnd` is the prefix of `s` left before a run of whitespace. */
  lemma {:induction false} TrimEndSpec(s: string)
    ensures var r := TrimEnd(s);
      && r == s[..|r|]
      && (forall i :: |r| <= i < |s| ==> IsWhitespace(s[i]))
    decreases |s|
  {
    if s != [] && IsWhitespace(s[|s| - 1]) {
      TrimEndSpec(s[..|s| - 1]);
    }
  }

  /** Rust's `str::trim`: no whitespace is left at either end. */
  function Trim(s: string): (r: string)
    ensures |r| <= |s|
    ensures r == [] || (!IsWhitespace(r[0]) && !IsWhitespace(r[|r| - 1]))
  {
    TrimEndSpec(TrimStart(s));
    TrimEnd(TrimStart(s))
  }

  // ---------------------------------------------------------------------------
  // Substring search

  /** `part` occurs in `text` at character index `k`. */
  predicate OccursAt(text: string, part: string, k: nat) {
    k + |part| <= |text| && text[k..k + |part|] == part
  }

  function FindFrom(text: string, part: string, i: nat): (r: Option<nat>)
    requires i <= |text|
    ensures r.Some? ==> i <= r.value && r.value + |part| <= |text|
    decreases |text| - i
  {
    if OccursAt(text, part, i) then Some(i)
    else if i == |text| then None
    else FindFrom(text, part, i + 1)
  }

  /** The search from `i` finds the first occurrence at or after `i`, if there is one. */
  lemma {:induction false} FindFromSpec(text: string, part: string, i: nat)
    requires i <= |text|
    ensures FindFrom(text, part, i).Some? ==> OccursAt(text, part, FindFrom(text, part, i).value)
    ensures FindFrom(text, part, i).Some? ==>
              forall j :: i <= j < FindFrom(text, part, i).value ==> !OccursAt(text, part, j)
    ensures FindFrom(text, part, i).None? ==> forall j :: i <= j ==> !OccursAt(text, part, j)
    decreases |text| - i
  {
    if !OccursAt(text, part, i) && i < |text| {
      FindFromSpec(text, part, i + 1);
    }
  }

  /** Rust's `str::find`: the first (leftmost) occurrence of `part`, as a character index. */
  function Find(text: string, part: string): (r: Option<nat>)
    ensures r.Some? ==> r.value + |part| <= |text|
  {
    FindFrom(text, part, 0)
  }

  /** `Find` yields an occurrence with none before it, and `None` only when there is no occurrence at all. */
  lemma FindSpec(text: string, part: string)
    ensures Find(text, part).Some? ==> OccursAt(text, part, Find(text, part).value)
    ensures Find(text, part).Some? ==> forall j :: 0 <= j < Find(text, part).value ==> !OccursAt(text, part, j)
    ensures Find(text, part).None? ==> forall j :: 0 <= j ==> !OccursAt(text, part, j)
  {
    FindFromSpec(text, part, 0);
  }

  /** What `Find` yields is an occurrence. */
  lemma FoundAt(text: string, part: string, k: nat)
    requires Find(text, part) == Some(k)
    ensures OccursAt(text, part, k)
  {
    FindSpec(text, part);
  }

  // ---------------------------------------------------------------------------
  // Decimal numbers

  predicate IsDigit(c: char) {
    '0' <= c <= '9'
  }

  predicate AllDigits(s: string) {
    forall i :: 0 <= i < |s| ==> IsDigit(s[i])
  }

  function DigitChar(d: nat): (c: char)
    requires d < 10
    ensures IsDigit(c) && c as int - '0' as int == d
  {
    ('0' as int + d) as char
  }

  /** `format!("{}", n)` for an unsigned integer: base 10, no leading zeros. */
  function NatStr(n: nat): (s: string)
    ensures s != [] && AllDigits(s)
    ensures s[0] == '0' <==> n == 0
    decreases n
  {
    if n < 10 then [DigitChar(n)] else NatStr(n / 10) + [DigitChar(n % 10)]
  }

  /** The value of a string of decimal digits. */
  function ParseNat(s: string): nat
    requires AllDigits(s)
  {
    if s == [] then 0 else 10 * ParseNat(s[..|s| - 1]) + (s[|s| - 1] as int - '0' as int)
  }

  /** Printing a number and reading it back gives the number again. */
  lemma {:induction false} ParseNatStr(n: nat)
    ensures ParseNat(NatStr(n)) == n
    decreases n
  {
    if n >= 10 {
      var s := NatStr(n);
      assert s[..|s| - 1] == NatStr(n / 10);
      ParseNatStr(n / 10);
    }
  }

  // ---------------------------------------------------------------------------
  // ASCII case mapping

  function LowerChar(c: char): char {
    if 'A' <= c <= 'Z' then (c as int + 32) as char else c
  }

  function UpperChar(c: char): char {
    if 'a' <= c <= 'z' then (c as int - 32) as char else c
  }

  function Lower(s: string): (r: string)
    ensures |r| == |s| && forall i :: 0 <= i < |s| ==> r[i] == LowerChar(s[i])
  {
    seq(|s|, i requires 0 <= i < |s| => LowerChar(s[i]))
  }
}
