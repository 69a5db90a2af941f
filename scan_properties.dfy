/**
 * What the scanner promises about its records: where they point in the file,
 * the order in which they come, that every first occurrence is reported and
 * that "no match" is `None` rather than an empty list.
 */
module ScanProperties {
  import opened Wrappers
  import opened Text
  import opened Scanner

  // ---------------------------------------------------------------------------
  // Helpers on byte offsets and on the file text

  /** An occurrence of `p` at character `k` ends within the line, in bytes too. */
  lemma HitWithin(line: string, p: string, k: nat)
    requires OccursAt(line, p, k)
    ensures Bytes(line, k) + ByteLen(p) <= ByteLen(line)
  {
    BytesSlice(line, k, k + |p|);
    BytesMono(line, k + |p|, |line|);
  }

  /** `Offset` counts the bytes of the joined lines. */
  lemma {:induction false} OffsetBytes(lines: seq<string>, k: nat)
    requires k <= |lines|
    ensures Offset(lines, k) == ByteLen(Joined(lines, k))
    decreases k
  {
    if k > 0 {
      OffsetBytes(lines, k - 1);
      ByteLenAppend(Joined(lines, k - 1), lines[k - 1]);
    }
  }

  /** The text of the first `a` lines is a prefix of the text of the first `b`. */
  lemma {:induction false} JoinedPrefix(lines: seq<string>, a: nat, b: nat)
    requires a <= b <= |lines|
    ensures |Joined(lines, a)| <= |Joined(lines, b)|
    ensures Joined(lines, b)[..|Joined(lines, a)|] == Joined(lines, a)
    decreases b - a
  {
    if a < b {
      JoinedPrefix(lines, a, b - 1);
      var x, y := Joined(lines, a), Joined(lines, b - 1);
      assert (y + lines[b - 1])[..|x|] == y[..|x|];
    }
  }

  /** Offsets grow with the number of lines counted. */
  lemma {:induction false} OffsetMono(lines: seq<string>, a: nat, b: nat)
    requires a <= b <= |lines|
    ensures Offset(lines, a) <= Offset(lines, b)
    decreases b - a
  {
    if a < b {
      OffsetMono(lines, a, b - 1);
    }
  }

  /** The number of the first `n` patterns that occur in `line`. */
  function FoundCount(line: string, pats: seq<string>, n: nat): (c: nat)
    requires n <= |pats|
    ensures c <= n
  {
    if n == 0 then 0
    else FoundCount(line, pats, n - 1) + (if Find(line, pats[n - 1]).Some? then 1 else 0)
  }

  // ---------------------------------------------------------------------------
  // Soundness: what every record says

  /**
   * `m` is a record of `line`, row `row`, whose first byte is at file offset
   * `done`: `pos` is `done + col` and the hit ends within the line.
   */
  predicate OnLine(m: Match, path: string, row: nat, done: nat, line: string) {
    && m.path == path && m.row == row && m.line == line
    && m.pos == done + m.col
    && m.col + m.len <= ByteLen(line)
  }

  /** `m` marks the first occurrence in `line` of one of `pats`, and `len` is that pattern's byte length. */
  predicate FromPattern(m: Match, line: string, pats: seq<string>) {
    exists j :: 0 <= j < |pats| && ByteLen(pats[j]) == m.len && FirstAt(line, pats[j], m.col)
  }

  /** `m` is a record of row `m.row` of the file `lines`. */
  predicate OnRow(m: Match, path: string, lines: seq<string>, pats: seq<string>) {
    && 1 <= m.row <= |lines|
    && OnLine(m, path, m.row, Offset(lines, m.row - 1), lines[m.row - 1])
    && FromPattern(m, lines[m.row - 1], pats)
  }

  /**
   * One pattern on one line: no record when the pattern occurs nowhere in the
   * line; otherwise exactly one, for its leftmost occurrence, at the byte
   * column of that occurrence, with `pos = done + col` and `len` the pattern's
   * byte length.
   */
  lemma HitForOccurs(path: string, row: nat, done: nat, line: string, p: string)
    ensures |HitFor(path, row, done, line, p)| <= 1
    ensures HitFor(path, row, done, line, p) == [] <==> forall k: nat :: !OccursAt(line, p, k)
    ensures HitFor(path, row, done, line, p) != [] ==>
      exists k: nat :: && OccursAt(line, p, k)
                       && (forall j: nat :: j < k ==> !OccursAt(line, p, j))
                       && HitFor(path, row, done, line, p)[0]
                          == Match(path, row, Bytes(line, k), done + Bytes(line, k), ByteLen(p), line)
  {
    FindSpec(line, p);
    match Find(line, p)
    case None =>
    case Some(k) =>
      HitForFound(path, row, done, line, p, k);
      assert OccursAt(line, p, k);
  }

  lemma HitOnLine(path: string, row: nat, done: nat, line: string, pats: seq<string>, j: nat)
    requires j < |pats| && Find(line, pats[j]).Some?
    ensures |HitFor(path, row, done, line, pats[j])| == 1
    ensures OnLine(HitFor(path, row, done, line, pats[j])[0], path, row, done, line)
    ensures FromPattern(HitFor(path, row, done, line, pats[j])[0], line, pats)
  {
    var k := Find(line, pats[j]).value;
    FindSpec(line, pats[j]);
    HitForFound(path, row, done, line, pats[j], k);
    HitWithin(line, pats[j], k);
    assert FirstAt(line, pats[j], Bytes(line, k));
  }

  lemma {:induction false} LineMatchFacts(path: string, row: nat, done: nat, line: string, pats: seq<string>,
                                          n: nat, i: nat)
    requires n <= |pats| && i < |LineMatches(path, row, done, line, pats, n)|
    ensures OnLine(LineMatches(path, row, done, line, pats, n)[i], path, row, done, line)
    ensures FromPattern(LineMatches(path, row, done, line, pats, n)[i], line, pats)
    decreases n
  {
    var front := LineMatches(path, row, done, line, pats, n - 1);
    var hit := HitFor(path, row, done, line, pats[n - 1]);
    assert LineMatches(path, row, done, line, pats, n) == front + hit;
    if i < |front| {
      LineMatchFacts(path, row, done, line, pats, n - 1, i);
    } else {
      HitForShape(path, row, done, line, pats[n - 1]);
      HitOnLine(path, row, done, line, pats, n - 1);
    }
  }

  /** Record `i` of the first `n` lines is one of the first `n - 1` lines or one of line `n`. */
  lemma MatchesSplit(path: string, lines: seq<string>, pats: seq<string>, n: nat, i: nat)
    requires 0 < n <= |lines| && i < |Matches(path, lines, pats, n)|
    ensures var front := Matches(path, lines, pats, n - 1);
            var here := LineMatches(path, n, Offset(lines, n - 1), lines[n - 1], pats, |pats|);
            && |Matches(path, lines, pats, n)| == |front| + |here|
            && (i < |front| ==> Matches(path, lines, pats, n)[i] == front[i])
            && (i >= |front| ==> Matches(path, lines, pats, n)[i] == here[i - |front|])
  {
  }

  lemma {:induction false} MatchesFacts(path: string, lines: seq<string>, pats: seq<string>, n: nat, i: nat)
    requires n <= |lines| && i < |Matches(path, lines, pats, n)|
    ensures Matches(path, lines, pats, n)[i].row <= n
    ensures OnRow(Matches(path, lines, pats, n)[i], path, lines, pats)
    decreases n
  {
    MatchesSplit(path, lines, pats, n, i);
    if i < |Matches(path, lines, pats, n - 1)| {
      MatchesFacts(path, lines, pats, n - 1, i);
    } else {
      LastRowFacts(path, lines, pats, n, i - |Matches(path, lines, pats, n - 1)|);
    }
  }

  /** The records of line `n` sit on row `n` and point into that line. */
  lemma LastRowFacts(path: string, lines: seq<string>, pats: seq<string>, n: nat, i: nat)
    requires 0 < n <= |lines|
    requires i < |LineMatches(path, n, Offset(lines, n - 1), lines[n - 1], pats, |pats|)|
    ensures var m := LineMatches(path, n, Offset(lines, n - 1), lines[n - 1], pats, |pats|)[i];
            m.row == n && OnRow(m, path, lines, pats)
  {
    LineMatchFacts(path, n, Offset(lines, n - 1), lines[n - 1], pats, |pats|, i);
  }

  /**
   * Offset correctness: a record on row `r` has `pos` equal to the bytes of
   * lines 1..r-1, terminators included, plus `col`; `col` is the byte offset of
   * the first occurrence of one of the patterns in the untrimmed line; `len` is
   * that pattern's byte length; `line` is the line (the descriptor trims it).
   */
  lemma MatchesSound(path: string, lines: seq<string>, pats: seq<string>, i: nat)
    requires i < |Matches(path, lines, pats, |lines|)|
    ensures var m := Matches(path, lines, pats, |lines|)[i];
      && m.path == path && 1 <= m.row <= |lines|
      && m.line == lines[m.row - 1]
      && m.pos == ByteLen(Joined(lines, m.row - 1)) + m.col
      && m.col + m.len <= ByteLen(lines[m.row - 1])
      && exists j :: 0 <= j < |pats| && ByteLen(pats[j]) == m.len && FirstAt(lines[m.row - 1], pats[j], m.col)
  {
    var m := Matches(path, lines, pats, |lines|)[i];
    MatchesFacts(path, lines, pats, |lines|, i);
    OffsetBytes(lines, m.row - 1);
  }

  /** An occurrence in `line` is one in any text that starts with `before + line`, shifted by `before`. */
  lemma InText(text: string, before: string, line: string, p: string, k: nat)
    requires |before| + |line| <= |text| && text[..|before| + |line|] == before + line
    requires OccursAt(line, p, k)
    ensures OccursAt(text, p, |before| + k)
  {
    var upto := before + line;
    var c := |before| + k;
    assert text[c..c + |p|] == upto[c..c + |p|];
    assert upto[c..c + |p|] == line[k..k + |p|];
  }

  /** In a text that starts with `before + line`, character `k` of `line` starts after the bytes of `before`. */
  lemma BytesInText(text: string, before: string, line: string, k: nat)
    requires |before| + |line| <= |text| && text[..|before| + |line|] == before + line
    requires k <= |line|
    ensures Bytes(text, |before| + k) == ByteLen(before) + Bytes(line, k)
  {
    var upto := before + line;
    var c := |before| + k;
    forall i | 0 <= i < c
      ensures text[i] == upto[i]
    {
      assert text[..|upto|][i] == text[i];
    }
    BytesSame(text, upto, c);
    BytesAppend(before, line, k);
  }

  /** The whole file starts with its first `r` lines followed by line `r + 1`. */
  lemma FileStart(lines: seq<string>, r: nat)
    requires r < |lines|
    ensures |Joined(lines, r)| + |lines[r]| <= |Joined(lines, |lines|)|
    ensures Joined(lines, |lines|)[..|Joined(lines, r)| + |lines[r]|] == Joined(lines, r) + lines[r]
  {
    assert Joined(lines, r + 1) == Joined(lines, r) + lines[r];
    JoinedPrefix(lines, r + 1, |lines|);
  }

  /** An occurrence on row `r + 1` is one in the whole file, after the text `before` of the rows above it. */
  lemma InFile(lines: seq<string>, r: nat, p: string, k: nat, before: string)
    requires r < |lines| && OccursAt(lines[r], p, k) && before == Joined(lines, r)
    ensures OccursAt(Joined(lines, |lines|), p, |before| + k)
  {
    FileStart(lines, r);
    InText(Joined(lines, |lines|), before, lines[r], p, k);
  }

  /** Character `k` of row `r + 1`, after the text `before` of the rows above it, sits at byte `Offset(lines, r) + Bytes(lines[r], k)` of the whole file. */
  lemma BytesInFile(lines: seq<string>, r: nat, k: nat, before: string)
    requires r < |lines| && k <= |lines[r]| && before == Joined(lines, r)
    ensures |before| + k <= |Joined(lines, |lines|)|
    ensures Bytes(Joined(lines, |lines|), |before| + k) == Offset(lines, r) + Bytes(lines[r], k)
  {
    FileStart(lines, r);
    BytesInText(Joined(lines, |lines|), before, lines[r], k);
    OffsetBytes(lines, r);
  }

  /**
   * Byte-exact location: `pos` is the byte offset, in the whole file, of an
   * occurrence of a pattern whose byte length is `len`.
   */
  lemma MatchInFile(path: string, lines: seq<string>, pats: seq<string>, i: nat)
    requires i < |Matches(path, lines, pats, |lines|)|
    ensures var m := Matches(path, lines, pats, |lines|)[i];
      exists c: nat, j :: 0 <= j < |pats| && OccursAt(Joined(lines, |lines|), pats[j], c)
        && Bytes(Joined(lines, |lines|), c) == m.pos && ByteLen(pats[j]) == m.len
  {
    var m := Matches(path, lines, pats, |lines|)[i];
    MatchesFacts(path, lines, pats, |lines|, i);
    var r := m.row - 1;
    var line := lines[r];
    assert OnLine(m, path, m.row, Offset(lines, r), line);
    assert FromPattern(m, line, pats);
    var j :| 0 <= j < |pats| && ByteLen(pats[j]) == m.len && FirstAt(line, pats[j], m.col);
    var k := Find(line, pats[j]).value;
    FoundAt(line, pats[j], k);
    PatternInFile(lines, r, pats[j], k, m.pos);
  }

  /** An occurrence of `p` at character `k` of row `r + 1` is an occurrence in the file at byte `pos`. */
  lemma PatternInFile(lines: seq<string>, r: nat, p: string, k: nat, pos: nat)
    requires r < |lines| && OccursAt(lines[r], p, k) && pos == Offset(lines, r) + Bytes(lines[r], k)
    ensures exists c: nat :: OccursAt(Joined(lines, |lines|), p, c) && Bytes(Joined(lines, |lines|), c) == pos
  {
    var before := Joined(lines, r);
    InFile(lines, r, p, k, before);
    BytesInFile(lines, r, k, before);
    var c := |before| + k;
    assert OccursAt(Joined(lines, |lines|), p, c) && Bytes(Joined(lines, |lines|), c) == pos;
  }

  // ---------------------------------------------------------------------------
  // Order

  /** Every record of a line carries that line's row. */
  lemma {:induction false} LineMatchesRow(path: string, row: nat, done: nat, line: string, pats: seq<string>,
                                          n: nat, i: nat)
    requires n <= |pats| && i < |LineMatches(path, row, done, line, pats, n)|
    ensures LineMatches(path, row, done, line, pats, n)[i].row == row
    decreases n
  {
    var front := LineMatches(path, row, done, line, pats, n - 1);
    var hit := HitFor(path, row, done, line, pats[n - 1]);
    assert LineMatches(path, row, done, line, pats, n) == front + hit;
    if i < |front| {
      LineMatchesRow(path, row, done, line, pats, n - 1, i);
    } else {
      HitForShape(path, row, done, line, pats[n - 1]);
    }
  }

  /** Records of the first `n` lines sit on rows 1..n, those of line `n` on row `n`. */
  lemma {:induction false} MatchesRow(path: string, lines: seq<string>, pats: seq<string>, n: nat, i: nat)
    requires 0 < n <= |lines| && i < |Matches(path, lines, pats, n)|
    ensures 1 <= Matches(path, lines, pats, n)[i].row <= n
    ensures i < |Matches(path, lines, pats, n - 1)| ==> Matches(path, lines, pats, n)[i].row < n
    ensures i >= |Matches(path, lines, pats, n - 1)| ==> Matches(path, lines, pats, n)[i].row == n
    decreases n
  {
    MatchesSplit(path, lines, pats, n, i);
    var front := Matches(path, lines, pats, n - 1);
    if i < |front| {
      if n > 1 {
        MatchesRow(path, lines, pats, n - 1, i);
      }
    } else {
      LineMatchesRow(path, n, Offset(lines, n - 1), lines[n - 1], pats, |pats|, i - |front|);
    }
  }

  lemma {:induction false} MatchesRowsOrdered(path: string, lines: seq<string>, pats: seq<string>,
                                              n: nat, i: nat, j: nat)
    requires n <= |lines| && i < j < |Matches(path, lines, pats, n)|
    ensures Matches(path, lines, pats, n)[i].row <= Matches(path, lines, pats, n)[j].row
    decreases n
  {
    var front := Matches(path, lines, pats, n - 1);
    var here := LineMatches(path, n, Offset(lines, n - 1), lines[n - 1], pats, |pats|);
    assert Matches(path, lines, pats, n) == front + here;
    if j < |front| {
      MatchesRowsOrdered(path, lines, pats, n - 1, i, j);
    } else {
      MatchesRow(path, lines, pats, n, i);
      MatchesRow(path, lines, pats, n, j);
    }
  }

  /**
   * Rows never go back, and a record on an earlier row lies wholly before any
   * record on a later row, so `pos` grows from one row to the next.
   */
  lemma MatchesOrdered(path: string, lines: seq<string>, pats: seq<string>, i: nat, j: nat)
    requires i < j < |Matches(path, lines, pats, |lines|)|
    ensures Matches(path, lines, pats, |lines|)[i].row <= Matches(path, lines, pats, |lines|)[j].row
    ensures Matches(path, lines, pats, |lines|)[i].row < Matches(path, lines, pats, |lines|)[j].row ==>
              Matches(path, lines, pats, |lines|)[i].pos + Matches(path, lines, pats, |lines|)[i].len
              <= Matches(path, lines, pats, |lines|)[j].pos
  {
    var ms := Matches(path, lines, pats, |lines|);
    MatchesRowsOrdered(path, lines, pats, |lines|, i, j);
    if ms[i].row < ms[j].row {
      MatchesFacts(path, lines, pats, |lines|, i);
      MatchesFacts(path, lines, pats, |lines|, j);
      OffsetMono(lines, ms[i].row, ms[j].row - 1);
    }
  }

  /**
   * Within one row the order is the pattern order, not the column order: with
   * patterns "b" then "a" on the line "ab" the second record has the smaller
   * `pos`. Offsets grow only from row to row.
   */
  lemma PosMayDecreaseWithinRow()
    ensures var ms := Matches("f", ["ab"], ["b", "a"], 1);
      |ms| == 2 && ms[0].row == ms[1].row == 1 && ms[0].pos == 1 && ms[1].pos == 0
  {
    var line := "ab";
    assert OccursAt(line, "a", 0);
    assert !OccursAt(line, "b", 0) && OccursAt(line, "b", 1);
    assert Find(line, "a") == Some(0);
    assert Find(line, "b") == Some(1);
    assert line[..1] == "a";
    ByteLenAscii("a");
  }

  // ---------------------------------------------------------------------------
  // Completeness and pattern order within a line

  lemma {:induction false} LineMatchesCount(path: string, row: nat, done: nat, line: string, pats: seq<string>, n: nat)
    requires n <= |pats|
    ensures |LineMatches(path, row, done, line, pats, n)| == FoundCount(line, pats, n)
    decreases n
  {
    if n > 0 {
      LineMatchesCount(path, row, done, line, pats, n - 1);
    }
  }

  /**
   * Each pattern yields at most one record per line, and the record of the
   * `a`-th pattern comes after exactly the records of the earlier patterns that
   * were found: records of one line appear in pattern order.
   */
  lemma {:induction false} LineMatchesAt(path: string, row: nat, done: nat, line: string, pats: seq<string>,
                                         n: nat, a: nat)
    requires a < n <= |pats| && Find(line, pats[a]).Some?
    ensures |HitFor(path, row, done, line, pats[a])| == 1
    ensures FoundCount(line, pats, a) < |LineMatches(path, row, done, line, pats, n)|
    ensures LineMatches(path, row, done, line, pats, n)[FoundCount(line, pats, a)]
         == HitFor(path, row, done, line, pats[a])[0]
    decreases n
  {
    var front := LineMatches(path, row, done, line, pats, n - 1);
    var hit := HitFor(path, row, done, line, pats[n - 1]);
    assert LineMatches(path, row, done, line, pats, n) == front + hit;
    LineMatchesCount(path, row, done, line, pats, n - 1);
    var at := FoundCount(line, pats, a);
    if a < n - 1 {
      LineMatchesAt(path, row, done, line, pats, n - 1, a);
      assert (front + hit)[at] == front[at];
    } else {
      assert at == |front| && |hit| == 1;
      assert (front + hit)[at] == hit[0];
    }
  }

  /** A found pattern counts: records of later patterns sit strictly further on. */
  lemma {:induction false} FoundCountGrows(line: string, pats: seq<string>, a: nat, b: nat)
    requires a < b <= |pats| && Find(line, pats[a]).Some?
    ensures FoundCount(line, pats, a) < FoundCount(line, pats, b)
    decreases b - a
  {
    if b - 1 > a {
      FoundCountGrows(line, pats, a, b - 1);
    }
  }

  /** Every first occurrence of every pattern on every line is reported. */
  lemma {:induction false} MatchesComplete(path: string, lines: seq<string>, pats: seq<string>,
                                           n: nat, r: nat, j: nat)
    requires r < n <= |lines| && j < |pats| && Find(lines[r], pats[j]).Some?
    ensures |HitFor(path, r + 1, Offset(lines, r), lines[r], pats[j])| == 1
    ensures HitFor(path, r + 1, Offset(lines, r), lines[r], pats[j])[0] in Matches(path, lines, pats, n)
    decreases n
  {
    if r < n - 1 {
      var front := Matches(path, lines, pats, n - 1);
      var here := LineMatches(path, n, Offset(lines, n - 1), lines[n - 1], pats, |pats|);
      assert Matches(path, lines, pats, n) == front + here;
      MatchesComplete(path, lines, pats, n - 1, r, j);
    } else {
      LastRowComplete(path, lines, pats, n, j);
    }
  }

  /** The first occurrence of a pattern on the last of `n` rows is reported. */
  lemma LastRowComplete(path: string, lines: seq<string>, pats: seq<string>, n: nat, j: nat)
    requires 0 < n <= |lines| && j < |pats| && Find(lines[n - 1], pats[j]).Some?
    ensures |HitFor(path, n, Offset(lines, n - 1), lines[n - 1], pats[j])| == 1
    ensures HitFor(path, n, Offset(lines, n - 1), lines[n - 1], pats[j])[0] in Matches(path, lines, pats, n)
  {
    var front := Matches(path, lines, pats, n - 1);
    var here := LineMatches(path, n, Offset(lines, n - 1), lines[n - 1], pats, |pats|);
    assert Matches(path, lines, pats, n) == front + here;
    LineMatchesAt(path, n, Offset(lines, n - 1), lines[n - 1], pats, |pats|, j);
    assert here[FoundCount(lines[n - 1], pats, j)] in here;
  }

  lemma {:induction false} NothingFoundNothingReported(line: string, pats: seq<string>, n: nat)
    requires n <= |pats|
    requires forall j :: 0 <= j < n ==> Find(line, pats[j]).None?
    ensures FoundCount(line, pats, n) == 0
    decreases n
  {
    if n > 0 {
      NothingFoundNothingReported(line, pats, n - 1);
    }
  }

  lemma {:induction false} NoHitsNoMatches(path: string, lines: seq<string>, pats: seq<string>, n: nat)
    requires n <= |lines|
    requires forall r, j :: 0 <= r < n && 0 <= j < |pats| ==> Find(lines[r], pats[j]).None?
    ensures Matches(path, lines, pats, n) == []
    decreases n
  {
    if n > 0 {
      NoHitsNoMatches(path, lines, pats, n - 1);
      NothingFoundNothingReported(lines[n - 1], pats, |pats|);
      LineMatchesCount(path, n, Offset(lines, n - 1), lines[n - 1], pats, |pats|);
    }
  }

  /** A file has no records exactly when no pattern occurs on any of its lines. */
  lemma MatchesEmpty(path: string, lines: seq<string>, pats: seq<string>)
    ensures Matches(path, lines, pats, |lines|) == [] <==>
            forall r, j :: 0 <= r < |lines| && 0 <= j < |pats| ==> Find(lines[r], pats[j]).None?
  {
    if forall r, j :: 0 <= r < |lines| && 0 <= j < |pats| ==> Find(lines[r], pats[j]).None? {
      NoHitsNoMatches(path, lines, pats, |lines|);
    } else {
      var r, j :| 0 <= r < |lines| && 0 <= j < |pats| && Find(lines[r], pats[j]).Some?;
      MatchesComplete(path, lines, pats, |lines|, r, j);
    }
  }

  /**
   * The scan of a readable file is `None` exactly when no pattern occurs on any
   * line, and is never `Some` of an empty list; an unopenable file or a failing
   * read is an error.
   */
  lemma ScanOutcome(disk: Disk, path: string, pats: seq<string>)
    ensures ScanFile(disk, path, pats).Failure? <==> path !in disk || disk[path].readFails
    ensures ScanFile(disk, path, pats) == Success(None) <==>
            path in disk && !disk[path].readFails &&
            forall r, j :: 0 <= r < |disk[path].lines| && 0 <= j < |pats| ==> Find(disk[path].lines[r], pats[j]).None?
    ensures ScanFile(disk, path, pats).Success? && ScanFile(disk, path, pats).value.Some? ==>
            ScanFile(disk, path, pats).value.value != []
  {
    if path in disk {
      MatchesEmpty(path, disk[path].lines, pats);
    }
  }

  // ---------------------------------------------------------------------------
  // A worked example

  /** An empty pattern occurs at the start of every line: it yields a record at column 0 of each, of length 0. */
  lemma EmptyPattern(path: string, row: nat, done: nat, line: string)
    ensures HitFor(path, row, done, line, "") == [Match(path, row, 0, done, 0, line)]
  {
    assert OccursAt(line, "", 0);
    assert Find(line, "") == Some(0);
  }

  /** One differing character rules an occurrence out. */
  lemma Mismatch(text: string, part: string, k: nat, i: nat)
    requires i < |part| && k + i < |text| && text[k + i] != part[i]
    ensures !OccursAt(text, part, k)
  {
    if k + |part| <= |text| {
      assert text[k..k + |part|][i] == text[k + i];
    }
  }

  /** "alpha" on the first line "alpha\n": found at the start. */
  lemma AlphaFirstLine()
    ensures LineMatches("path", 1, 0, "alpha\n", ["alpha"], 1) == [Match("path", 1, 0, 0, 5, "alpha\n")]
  {
    var l1 := "alpha\n";
    assert OccursAt(l1, "alpha", 0);
    assert Find(l1, "alpha") == Some(0);
    AlphaBytes();
    HitForFound("path", 1, 0, l1, "alpha", 0);
  }

  /** "alpha" on the second line "beta alpha\n", which starts at byte 6: column 5, byte 11. */
  lemma AlphaSecondLine()
    ensures LineMatches("path", 2, 6, "beta alpha\n", ["alpha"], 1) == [Match("path", 2, 5, 11, 5, "beta alpha\n")]
  {
    var l2 := "beta alpha\n";
    AlphaSecondFind();
    BetaBytes();
    AlphaBytes();
    HitForFound("path", 2, 6, l2, "alpha", 5);
  }

  /** "alpha" is five bytes long. */
  lemma AlphaBytes()
    ensures ByteLen("alpha") == 5
  {
    var a := "alpha";
    assert a[0] == 'a' && a[1] == 'l' && a[2] == 'p' && a[3] == 'h' && a[4] == 'a';
    ByteLenAscii(a);
  }

  /** "beta " is five bytes long. */
  lemma BetaBytes()
    ensures Bytes("beta alpha\n", 5) == 5
  {
    var l2 := "beta alpha\n";
    assert l2[0] == 'b' && l2[1] == 'e' && l2[2] == 't' && l2[3] == 'a' && l2[4] == ' ';
    BytesAscii(l2, 5);
  }

  /** In "beta alpha\n", "alpha" is first found at character 5. */
  lemma AlphaSecondFind()
    ensures Find("beta alpha\n", "alpha") == Some(5)
  {
    var l2 := "beta alpha\n";
    Mismatch(l2, "alpha", 0, 0);
    Mismatch(l2, "alpha", 1, 0);
    Mismatch(l2, "alpha", 2, 0);
    Mismatch(l2, "alpha", 3, 1);
    Mismatch(l2, "alpha", 4, 0);
    assert l2[5..10] == "alpha";
    assert OccursAt(l2, "alpha", 5);
  }

  /**
   * The file "alpha\nbeta alpha\n" searched for "alpha": two records, the
   * second at column 5 of line 2, which starts at byte 6, so at byte 11.
   */
  lemma AlphaExample()
    ensures Matches("path", ["alpha\n", "beta alpha\n"], ["alpha"], 2)
         == [Match("path", 1, 0, 0, 5, "alpha\n"), Match("path", 2, 5, 11, 5, "beta alpha\n")]
  {
    var lines := ["alpha\n", "beta alpha\n"];
    var l1 := lines[0];
    assert l1[0] == 'a' && l1[1] == 'l' && l1[2] == 'p' && l1[3] == 'h' && l1[4] == 'a' && l1[5] == '\n';
    ByteLenAscii(l1);
    assert Offset(lines, 1) == 6;
    AlphaFirstLine();
    AlphaSecondLine();
  }

  /** The descriptor of the first record: the line appears without its terminator. */
  lemma AlphaDescriptor()
    ensures Encode(Match("path", 1, 0, 0, 5, "alpha\n")) == "(path)[1,0,0,5]alpha"
  {
    var l1 := "alpha\n";
    assert TrimStart(l1) == l1;
    assert TrimEnd(l1[..5]) == "alpha";
    assert Trim(l1) == "alpha";
    assert NatStr(1) == "1" && NatStr(0) == "0" && NatStr(5) == "5";
    assert Encode(Match("path", 1, 0, 0, 5, l1))
        == "(" + (("path" + ")[") + (("1" + ",") + ("0" + ",")) + (("0" + ",") + ("5" + "]")) + "alpha");
  }
}
