/**
 * The small text helpers of `rux_texts`: range deletion, the loose
 * comparison `is_likely`, the character-class tests, capitalisation and the
 * truthiness of a setting.
 */
module Strings {
  import opened Text

  function Min(a: nat, b: nat): nat { if a <= b then a else b }
  function Max(a: nat, b: nat): nat { if a <= b then b else a }

  // ---------------------------------------------------------------------------
  // del

  /**
   * `del`: remove the characters with index in `[start, end)`. `start` is
   * first clamped to the text's length in bytes and `end` raised to `start`;
   * the characters are then counted one by one.
   */
  method Del(text: string, start: nat, end: nat) returns (r: string)
    ensures var s := Min(start, ByteLen(text));
            var e := Max(end, s);
            r == text[..Min(s, |text|)] + text[Min(e, |text|)..]
    ensures start >= end ==> r == text
  {
    var start := start;
    var end := end;
    if start > ByteLen(text) {
      start := ByteLen(text);
    }
    if end < start {
      end := start;
    }
    var result := [];
    for i := 0 to |text|
      invariant result == text[..Min(start, i)] + text[Min(end, i)..i]
    {
      var c := text[i];
      if i < start || i >= end {
        DelKeep(text, start, end, i);
        result := result + [c];
      }
    }
    assert text[..|text|] == text;
    r := result;
  }

  /** A character outside `[start, end)` is kept after those kept before it. */
  lemma DelKeep(text: string, start: nat, end: nat, i: nat)
    requires start <= end && i < |text| && (i < start || i >= end)
    ensures text[..Min(start, i + 1)] + text[Min(end, i + 1)..i + 1]
         == text[..Min(start, i)] + text[Min(end, i)..i] + [text[i]]
  {
    if i < start {
      assert text[..i + 1] == text[..i] + [text[i]];
      assert text[i + 1..i + 1] == [] && text[i..i] == [];
    } else {
      assert text[end..i + 1] == text[end..i] + [text[i]];
    }
  }

  // ---------------------------------------------------------------------------
  // is_likely

  /** The characters of `s` that are not whitespace, lowercased. */
  function Folded(s: string): (r: string)
    ensures |r| <= |s|
  {
    if s == [] then []
    else Folded(s[..|s| - 1]) + (if IsWhitespace(s[|s| - 1]) then [] else [LowerChar(s[|s| - 1])])
  }

  lemma {:induction false} FoldedAppend(a: string, b: string)
    ensures Folded(a + b) == Folded(a) + Folded(b)
    decreases |b|
  {
    if b == [] {
      assert a + b == a;
    } else {
      var b' := b[..|b| - 1];
      assert (a + b)[..|a + b| - 1] == a + b';
      FoldedAppend(a, b');
    }
  }

  lemma FoldedStep(s: string, i: nat)
    requires i < |s|
    ensures Folded(s[..i + 1]) == Folded(s[..i]) + (if IsWhitespace(s[i]) then [] else [LowerChar(s[i])])
  {
    assert s[..i + 1][..i] == s[..i];
  }

  /** What is folded from a prefix begins what is folded from the whole. */
  lemma FoldedPrefix(s: string, i: nat)
    requires i <= |s|
    ensures |Folded(s[..i])| <= |Folded(s)| && Folded(s)[..|Folded(s[..i])|] == Folded(s[..i])
  {
    assert s == s[..i] + s[i..];
    FoldedAppend(s[..i], s[i..]);
  }

  /** A letter's case and any whitespace do not matter to the folded text. */
  lemma {:induction false} FoldedLower(s: string)
    ensures Folded(Lower(s)) == Folded(s)
    decreases |s|
  {
    if s != [] {
      var n := |s| - 1;
      var l := Lower(s);
      assert l[..n] == Lower(s[..n]);
      FoldedLower(s[..n]);
      FoldedStep(l, n);
      FoldedStep(s, n);
      assert l[..n + 1] == l && s[..n + 1] == s;
      LowerCharFacts(s[n]);
    }
  }

  lemma LowerCharFacts(c: char)
    ensures IsWhitespace(LowerChar(c)) == IsWhitespace(c)
    ensures LowerChar(LowerChar(c)) == LowerChar(c)
  {
  }

  lemma FoldedSpace(a: string, c: char, b: string)
    requires IsWhitespace(c)
    ensures Folded(a + [c] + b) == Folded(a + b)
  {
    FoldedAppend(a + [c], b);
    FoldedAppend(a, b);
    assert (a + [c])[..|a|] == a;
  }

  /**
   * `is_likely`: walk the non-whitespace characters of `text`, matching
   * each, lowercased, with the next non-whitespace character of `with`.
   */
  method IsLikely(text: string, with: string) returns (r: bool)
    ensures r <==> Folded(text) == Folded(with)[..Min(|Folded(text)|, |Folded(with)|)]
  {
    var a := 0;
    var b := 0;
    while a < |text|
      invariant 0 <= a <= |text| && 0 <= b <= |with|
      invariant Folded(text[..a]) == Folded(with[..b])
    {
      var itemA := text[a];
      FoldedStep(text, a);
      a := a + 1;
      if !IsWhitespace(itemA) {
        var checked := false;
        var testA := LowerChar(itemA);
        ghost var b0 := b;
        ghost var hit := false;
        while b < |with|
          invariant b0 <= b <= |with|
          invariant Folded(with[..b]) == Folded(with[..b0])
        {
          var itemB := with[b];
          FoldedStep(with, b);
          b := b + 1;
          if !IsWhitespace(itemB) {
            checked := testA == LowerChar(itemB);
            hit := true;
            assert Folded(with[..b]) == Folded(with[..b0]) + [LowerChar(itemB)];
            break;
          }
        }
        if !checked {
          assert Folded(text[..a]) == Folded(with[..b0]) + [testA];
          if hit {
            assert Folded(text[..a])[|Folded(text[..a])| - 1] != Folded(with[..b])[|Folded(with[..b])| - 1];
            PartWays(text, with, a, b);
          } else {
            assert with[..b] == with;
            RunsOut(text, with, a);
          }
          return false;
        }
      }
    }
    assert text[..a] == text;
    FoldedPrefix(with, b);
    return true;
  }

  /** Folded prefixes of equal length that differ: `text` is not likely `with`. */
  lemma PartWays(text: string, with: string, a: nat, b: nat)
    requires a <= |text| && b <= |with|
    requires |Folded(text[..a])| == |Folded(with[..b])| && Folded(text[..a]) != Folded(with[..b])
    ensures Folded(text) != Folded(with)[..Min(|Folded(text)|, |Folded(with)|)]
  {
    FoldedPrefix(text, a);
    FoldedPrefix(with, b);
  }

  /** `with` folds to less than a prefix of `text` does: `text` is not likely `with`. */
  lemma RunsOut(text: string, with: string, a: nat)
    requires a <= |text| && |Folded(text[..a])| > |Folded(with)|
    ensures Folded(text) != Folded(with)[..Min(|Folded(text)|, |Folded(with)|)]
  {
    FoldedPrefix(text, a);
  }

  // ---------------------------------------------------------------------------
  // Character classes

  /** `is_whitespace`: no character of `text` is other than whitespace. */
  function IsWhitespaceText(text: string): (r: bool)
    ensures r <==> Trim(text) == []
  {
    TrimStartSpec(text);
    TrimEndSpec(TrimStart(text));
    !exists i :: 0 <= i < |text| && !IsWhitespace(text[i])
  }

  const LineSpaceChars: seq<char> := [' ', '\t']
  const LineBreakChars: seq<char> := ['\n', '\r']
  const BracketsChars: seq<char> := ['(', ')', '[', ']', '{', '}', '<', '>']
  const QuotationChars: seq<char> := ['\'', '"']

  /**
   * The test `is_linespace` and its siblings make, as written: no character
   * of `text` differs from any member of `chars`. With two different
   * members every character differs from one of them, so only the empty
   * text passes.
   */
  function NoneDiffers(text: string, chars: seq<char>): (r: bool)
    ensures |chars| >= 2 && chars[0] != chars[1] ==> (r <==> text == [])
  {
    assert text != [] && |chars| >= 2 && chars[0] != chars[1] ==> text[0] != chars[0] || text[0] != chars[1];
    !exists i, j :: 0 <= i < |text| && 0 <= j < |chars| && text[i] != chars[j]
  }

  /** `is_linespace` as written. */
  function IsLinespace(text: string): (r: bool)
    ensures r <==> text == []
  {
    NoneDiffers(text, LineSpaceChars)
  }

  /** `is_linebreak` as written. */
  function IsLinebreak(text: string): (r: bool)
    ensures r <==> text == []
  {
    NoneDiffers(text, LineBreakChars)
  }

  /** `is_brackets` as written. */
  function IsBrackets(text: string): (r: bool)
    ensures r <==> text == []
  {
    NoneDiffers(text, BracketsChars)
  }

  /** `is_quotation` as written. */
  function IsQuotation(text: string): (r: bool)
    ensures r <==> text == []
  {
    NoneDiffers(text, QuotationChars)
  }

  /** What the four tests evidently mean, in the manner of `is_whitespace`: every character is a member. */
  function AllOf(text: string, chars: seq<char>): (r: bool)
    ensures r <==> forall i :: 0 <= i < |text| ==> text[i] in chars
    ensures text == [] ==> r
  {
    !exists i :: 0 <= i < |text| && text[i] !in chars
  }

  /** The intended `is_linespace`: only spaces and tabs. */
  function IsLinespaceIntended(text: string): (r: bool)
    ensures r <==> forall i :: 0 <= i < |text| ==> text[i] == ' ' || text[i] == '\t'
  {
    AllOf(text, LineSpaceChars)
  }

  /** A blank made of a space and a tab is not a line space as written, but is as intended. */
  lemma LinespaceFinding()
    ensures !IsLinespace(" \t") && IsLinespaceIntended(" \t")
    ensures !IsLinebreak("\r\n") && AllOf("\r\n", LineBreakChars)
  {
  }

  // ---------------------------------------------------------------------------
  // tocapital

  /**
   * `tocapital`: the first character upper-cased, the rest lower-cased. The
   * first character is cut off as one byte, which panics unless it is ASCII.
   */
  function ToCapital(text: string): (r: string)
    requires text == [] || text[0] as int < 0x80
    ensures |r| == |text|
    ensures text != [] ==> r[0] == UpperChar(text[0]) && r[1..] == Lower(text[1..])
    ensures r == [] || r[0] as int < 0x80
  {
    if text == [] then [] else [UpperChar(text[0])] + Lower(text[1..])
  }

  lemma LowerTwice(s: string)
    ensures Lower(Lower(s)) == Lower(s)
  {
  }

  /** Capitalising twice changes nothing more. */
  lemma ToCapitalIdempotent(text: string)
    requires text == [] || text[0] as int < 0x80
    ensures ToCapital(ToCapital(text)) == ToCapital(text)
  {
    if text != [] {
      var r := ToCapital(text);
      assert r[1..] == Lower(text[1..]);
      LowerTwice(text[1..]);
    }
  }

  /** The case the text arrives in does not matter. */
  lemma ToCapitalIgnoresCase(text: string)
    requires text == [] || text[0] as int < 0x80
    ensures ToCapital(Lower(text)) == ToCapital(text)
  {
    if text != [] {
      assert Lower(text)[1..] == Lower(text[1..]);
      LowerTwice(text[1..]);
    }
  }

  // ---------------------------------------------------------------------------
  // is_truthy

  const TruthyWords: set<string> := {"true", "t", "yes", "y", "on", "1"}

  /** `is_truthy`: a setting reads as true when it is one of the truthy words, in any case. */
  function IsTruthy(value: string): (r: bool)
    ensures r <==> Lower(value) in TruthyWords
  {
    if value == [] then false
    else
      var value := Lower(value);
      value == "true" || value == "t" || value == "yes" || value == "y" || value == "on" || value == "1"
  }

  /** Truthiness does not depend on case. */
  lemma TruthyIgnoresCase(value: string)
    ensures IsTruthy(Lower(value)) == IsTruthy(value)
  {
    LowerTwice(value);
  }

  /** A truthy word is one to four characters long, and no surrounding space is dropped. */
  lemma TruthyShape(value: string)
    ensures IsTruthy(value) ==> 1 <= |value| <= 4
    ensures !IsTruthy(" true") && IsTruthy("YES") && IsTruthy("On") && !IsTruthy("no")
  {
    assert Lower(" true")[0] == ' ';
    assert Lower("YES") == "yes";
    assert Lower("On") == "on";
    assert Lower("no") == "no";
  }
}
