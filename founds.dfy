/**
 * `text_file_founds`: splits a descriptor `(path)[row,col,pos,len]line` back
 * into its six fields. The first character is skipped unread; the path runs
 * to the first `)`; the four numbers are the digits between the separators
 * `,` and `]`; everything after the fifth field is the line, verbatim.
 */
module Founds {
  import opened Text
  import opened Scanner

  /** The decoder's state: the fields closed so far and the one being read. */
  datatype Decoding = Decoding(fields: seq<string>, actual: string)

  const Start := Decoding([], [])

  /** One character of input. */
  function Step(d: Decoding, ch: char): Decoding {
    if |d.fields| == 0 then
      if ch == ')' then Decoding([d.actual], []) else Decoding([], d.actual + [ch])
    else if |d.fields| < 5 then
      var closed := if ch == ',' || ch == ']' then Decoding(d.fields + [d.actual], []) else d;
      if IsDigit(ch) then Decoding(closed.fields, closed.actual + [ch]) else closed
    else
      Decoding(d.fields, d.actual + [ch])
  }

  /** The state after reading `t` from state `d`. */
  function Feed(d: Decoding, t: string): Decoding {
    if t == [] then d else Step(Feed(d, t[..|t| - 1]), t[|t| - 1])
  }

  /** The input the decoder reads: everything after the first character. */
  function Skip(s: string): string {
    if s == [] then [] else s[1..]
  }

  /** What `text_file_founds` returns: the closed fields and then the open one. */
  function Decode(found: string): seq<string> {
    var d := Feed(Start, Skip(found));
    d.fields + [d.actual]
  }

  /**
   * The shape a decoding state keeps: at most five closed fields; the
   * numeric fields (second to fifth) hold only digits, and so does the open
   * field while a number is being read.
   */
  predicate Shaped(d: Decoding) {
    && |d.fields| <= 5
    && (forall j :: 1 <= j < |d.fields| ==> AllDigits(d.fields[j]))
    && (1 <= |d.fields| < 5 ==> AllDigits(d.actual))
  }

  // ---------------------------------------------------------------------------
  // The decoder as the source writes it

  /** `text_file_founds`: a single pass over the characters with a `first` flag. */
  method TextFileFounds(found: string) returns (r: seq<string>)
    ensures r == Decode(found)
    ensures 1 <= |r| <= 6
    ensures forall j :: 1 <= j < |r| && j <= 4 ==> AllDigits(r[j])
  {
    var result: seq<string> := [];
    var actual: string := [];
    var first := true;
    for i := 0 to |found|
      invariant first <==> i == 0
      invariant i == 0 ==> result == [] && actual == []
      invariant i > 0 ==> Decoding(result, actual) == Feed(Start, found[1..i])
    {
      var ch := found[i];
      if first {
        first := false;
        assert found[1..1] == [];
        continue;
      }
      assert found[1..i + 1][..i - 1] == found[1..i];
      if |result| == 0 {
        if ch == ')' {
          result := result + [actual];
          actual := [];
        } else {
          actual := actual + [ch];
        }
      } else if |result| > 0 && |result| < 5 {
        if ch == ',' || ch == ']' {
          result := result + [actual];
          actual := [];
        }
        if IsDigit(ch) {
          actual := actual + [ch];
        }
      } else {
        actual := actual + [ch];
      }
    }
    if |found| > 0 {
      assert found[1..|found|] == Skip(found);
    }
    FeedShaped(Start, Skip(found));
    r := result + [actual];
  }

  // ---------------------------------------------------------------------------
  // Properties of the decoder

  /** Reading `a` and then `b` is reading `a + b`. */
  lemma {:induction false} FeedAppend(d: Decoding, a: string, b: string)
    ensures Feed(d, a + b) == Feed(Feed(d, a), b)
    decreases |b|
  {
    if b == [] {
      assert a + b == a;
    } else {
      var b' := b[..|b| - 1];
      assert (a + b)[..|a + b| - 1] == a + b';
      FeedAppend(d, a, b');
    }
  }

  /** Every step keeps the shape of the state. */
  lemma {:induction false} FeedShaped(d: Decoding, t: string)
    requires Shaped(d)
    ensures Shaped(Feed(d, t))
    decreases |t|
  {
    if t != [] {
      FeedShaped(d, t[..|t| - 1]);
    }
  }

  /** The decoder never fails: one to six fields, the numeric ones made of digits. */
  lemma DecodeShape(found: string)
    ensures 1 <= |Decode(found)| <= 6
    ensures forall j :: 1 <= j < |Decode(found)| && j <= 4 ==> AllDigits(Decode(found)[j])
  {
    FeedShaped(Start, Skip(found));
  }

  /** Before the first `)` the path collects every character. */
  lemma {:induction false} FeedPath(a: string, t: string)
    requires forall i :: 0 <= i < |t| ==> t[i] != ')'
    ensures Feed(Decoding([], a), t) == Decoding([], a + t)
    decreases |t|
  {
    if t != [] {
      FeedPath(a, t[..|t| - 1]);
      assert a + t[..|t| - 1] + [t[|t| - 1]] == a + t;
    }
  }

  /** While a number is read, its digits collect in the open field. */
  lemma {:induction false} FeedDigits(fs: seq<string>, a: string, t: string)
    requires 1 <= |fs| < 5 && AllDigits(t)
    ensures Feed(Decoding(fs, a), t) == Decoding(fs, a + t)
    decreases |t|
  {
    if t != [] {
      FeedDigits(fs, a, t[..|t| - 1]);
      assert a + t[..|t| - 1] + [t[|t| - 1]] == a + t;
    }
  }

  /** After the fifth field everything is copied verbatim. */
  lemma {:induction false} FeedVerbatim(fs: seq<string>, a: string, t: string)
    requires |fs| >= 5
    ensures Feed(Decoding(fs, a), t) == Decoding(fs, a + t)
    decreases |t|
  {
    if t != [] {
      FeedVerbatim(fs, a, t[..|t| - 1]);
      assert a + t[..|t| - 1] + [t[|t| - 1]] == a + t;
    }
  }

  /** A separator closes a numeric field. */
  lemma Close(fs: seq<string>, a: string, sep: char)
    requires 1 <= |fs| < 5 && (sep == ',' || sep == ']')
    ensures Feed(Decoding(fs, a), [sep]) == Decoding(fs + [a], [])
  {
    assert [sep][..0] == [];
  }

  /**
   * The first field is what lies between the skipped first character and the
   * first `)` after it; with no such `)`, the whole rest is the single field.
   */
  lemma DecodePath(found: string, k: nat)
    requires 1 <= k < |found| && found[k] == ')'
    requires forall i :: 1 <= i < k ==> found[i] != ')'
    ensures |Decode(found)| >= 2 && Decode(found)[0] == found[1..k]
  {
    var path := found[1..k];
    var rest := found[k + 1..];
    assert found[1..] == found[1..k] + found[k..];
    assert found[k..] == [')'] + rest;
    assert Skip(found) == (path + [')']) + rest;
    PathClose(path);
    FeedAppend(Start, path + [')'], rest);
    FeedGrows(Decoding([path], []), rest);
    var d := Feed(Start, Skip(found));
    assert d.fields[..1] == [path];
    assert Decode(found)[0] == d.fields[0];
  }

  /** The path and the `)` that ends it. */
  lemma PathClose(path: string)
    requires forall i :: 0 <= i < |path| ==> path[i] != ')'
    ensures Feed(Start, path + [')']) == Decoding([path], [])
  {
    FeedPath([], path);
    assert [] + path == path;
    FeedAppend(Start, path, [')']);
    assert [')'][..0] == [];
  }

  lemma DecodeNoClose(found: string)
    requires found != [] && forall i :: 1 <= i < |found| ==> found[i] != ')'
    ensures Decode(found) == [found[1..]]
  {
    FeedPath([], found[1..]);
    assert [] + found[1..] == found[1..];
  }

  /** Closed fields are never reopened: a state only appends to its fields. */
  lemma {:induction false} FeedGrows(d: Decoding, t: string)
    ensures |d.fields| <= |Feed(d, t).fields|
    ensures Feed(d, t).fields[..|d.fields|] == d.fields
    decreases |t|
  {
    if t != [] {
      FeedGrows(d, t[..|t| - 1]);
      var e := Feed(d, t[..|t| - 1]);
      assert Step(e, t[|t| - 1]).fields[..|e.fields|] == e.fields;
    }
  }

  /** The path and the `)[` after it leave the path as the first closed field. */
  lemma PathPart(path: string)
    requires forall i :: 0 <= i < |path| ==> path[i] != ')'
    ensures Feed(Start, path + ")[") == Decoding([path], [])
  {
    PathClose(path);
    assert path + ")[" == (path + [')']) + ['['];
    FeedAppend(Start, path + [')'], ['[']);
    assert ['['][..0] == [];
  }

  /** A number and the separator after it become one more closed field. */
  lemma NumberPart(fs: seq<string>, digits: string, sep: char)
    requires 1 <= |fs| < 5 && AllDigits(digits) && (sep == ',' || sep == ']')
    ensures Feed(Decoding(fs, []), digits + [sep]) == Decoding(fs + [digits], [])
  {
    FeedAppend(Decoding(fs, []), digits, [sep]);
    FeedDigits(fs, [], digits);
    assert [] + digits == digits;
    Close(fs, digits, sep);
  }

  /** Two numbers, each with the separator after it, become two more closed fields. */
  lemma TwoNumbers(fs: seq<string>, a: string, sa: char, b: string, sb: char)
    requires 1 <= |fs| <= 3 && AllDigits(a) && AllDigits(b)
    requires (sa == ',' || sa == ']') && (sb == ',' || sb == ']')
    ensures Feed(Decoding(fs, []), (a + [sa]) + (b + [sb])) == Decoding(fs + [a, b], [])
  {
    FeedAppend(Decoding(fs, []), a + [sa], b + [sb]);
    NumberPart(fs, a, sa);
    NumberPart(fs + [a], b, sb);
    assert fs + [a] + [b] == fs + [a, b];
  }

  /** The descriptor, cut where the decoder's fields end. */
  lemma EncodeParts(m: Match)
    ensures Skip(Encode(m))
         == (m.path + ")[") + ((NatStr(m.row) + ",") + (NatStr(m.col) + ","))
            + ((NatStr(m.pos) + ",") + (NatStr(m.len) + "]")) + Trim(m.line)
  {
    var body := (m.path + ")[") + ((NatStr(m.row) + ",") + (NatStr(m.col) + ","))
                + ((NatStr(m.pos) + ",") + (NatStr(m.len) + "]")) + Trim(m.line);
    assert Encode(m) == "(" + body;
    assert ("(" + body)[1..] == body;
  }

  /** Reading the parts of a descriptor, one after the other. */
  lemma DecodeParts(path: string, r: string, c: string, p: string, l: string, line: string)
    requires forall i :: 0 <= i < |path| ==> path[i] != ')'
    requires AllDigits(r) && AllDigits(c) && AllDigits(p) && AllDigits(l)
    ensures Feed(Start, (path + ")[") + ((r + ",") + (c + ",")) + ((p + ",") + (l + "]")) + line)
         == Decoding([path, r, c, p, l], line)
  {
    var s1 := path + ")[";
    var s2 := s1 + ((r + ",") + (c + ","));
    var s3 := s2 + ((p + ",") + (l + "]"));
    PathPart(path);
    FeedAppend(Start, s1, (r + ",") + (c + ","));
    TwoNumbers([path], r, ',', c, ',');
    assert [path] + [r, c] == [path, r, c];
    assert Feed(Start, s2) == Decoding([path, r, c], []);
    FeedAppend(Start, s2, (p + ",") + (l + "]"));
    TwoNumbers([path, r, c], p, ',', l, ']');
    assert [path, r, c] + [p, l] == [path, r, c, p, l];
    assert Feed(Start, s3) == Decoding([path, r, c, p, l], []);
    FeedAppend(Start, s3, line);
    FeedVerbatim([path, r, c, p, l], [], line);
    assert [] + line == line;
  }

  /**
   * Round trip: a descriptor written by the scanner reads back as its path,
   * the four numbers in decimal and the trimmed line, provided the path has
   * no `)`.
   */
  lemma RoundTrip(m: Match)
    requires forall i :: 0 <= i < |m.path| ==> m.path[i] != ')'
    ensures Decode(Encode(m))
         == [m.path, NatStr(m.row), NatStr(m.col), NatStr(m.pos), NatStr(m.len), Trim(m.line)]
  {
    EncodeParts(m);
    DecodeParts(m.path, NatStr(m.row), NatStr(m.col), NatStr(m.pos), NatStr(m.len), Trim(m.line));
  }

  /** The numeric fields of a decoded descriptor read back as the record's numbers. */
  lemma RoundTripNumbers(m: Match)
    requires forall i :: 0 <= i < |m.path| ==> m.path[i] != ')'
    ensures var f := Decode(Encode(m));
      && |f| == 6 && AllDigits(f[1]) && AllDigits(f[2]) && AllDigits(f[3]) && AllDigits(f[4])
      && ParseNat(f[1]) == m.row && ParseNat(f[2]) == m.col
      && ParseNat(f[3]) == m.pos && ParseNat(f[4]) == m.len
  {
    RoundTrip(m);
    ParseNatStr(m.row);
    ParseNatStr(m.col);
    ParseNatStr(m.pos);
    ParseNatStr(m.len);
  }

  /** A `)` inside the path cuts the path short: the round trip needs the path free of `)`. */
  lemma ParenInPath()
    ensures Decode(Encode(Match("a)b", 1, 0, 0, 1, "b")))[0] == "a"
  {
    var e := Encode(Match("a)b", 1, 0, 0, 1, "b"));
    assert e[0] == '(' && e[1] == 'a' && e[2] == ')';
    DecodePath(e, 2);
    assert e[1..2] == "a";
  }
}
