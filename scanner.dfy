/**
 * The line scanner of `text_file_find_any` / `text_file_find`: every line of a
 * file is searched, in the caller's order, for the first occurrence of each
 * pattern; each hit becomes the descriptor `(path)[row,col,pos,len]line`.
 *
 * A file is given by the lines the reader returns (each with its terminator)
 * and by whether the read after them fails; `row` counts lines from 1 and
 * `pos` is the byte offset of the hit from the start of the file.
 */
module Scanner {
  import opened Wrappers
  import opened Text

  /** One located occurrence of one pattern in one line of one file; `line` is the line as read. */
  datatype Match = Match(path: string, row: nat, col: nat, pos: nat, len: nat, line: string)

  /** Failures of the search: a file that cannot be opened, a failing read, a worker that died. */
  datatype Error = OpenFailed(path: string) | ReadFailed(path: string) | WorkerPanicked(worker: nat)

  /**
   * A file as the line reader delivers it: `lines` are what successive reads
   * return, terminators included; `readFails` says that the read after the
   * last of them fails instead of reporting the end of the file.
   * A real reader never returns an empty line and ends every line but
   * possibly the last with `\n`; `lines` is not restricted to such sequences,
   * and every property of the scanner holds for all of them.
   */
  datatype TextFile = TextFile(lines: seq<string>, readFails: bool)

  /** The file system: a path that is not a key cannot be opened. */
  type Disk = map<string, TextFile>

  /** The descriptor of a match, `(path)[row,col,pos,len]line`, with the line trimmed. */
  function Encode(m: Match): string {
    "(" + ((m.path + ")[") + ((NatStr(m.row) + ",") + (NatStr(m.col) + ","))
           + ((NatStr(m.pos) + ",") + (NatStr(m.len) + "]")) + Trim(m.line))
  }

  /** The descriptors of `ms`, in order. */
  function EncodeAll(ms: seq<Match>): (r: seq<string>)
    ensures |r| == |ms|
  {
    seq(|ms|, i requires 0 <= i < |ms| => Encode(ms[i]))
  }

  /** `None` for an empty list, as the source leaves its result unset until the first hit. */
  function Opt<T>(s: seq<T>): Option<seq<T>> {
    if s == [] then None else Some(s)
  }

  /** The text of the first `k` lines, one after the other. */
  function Joined(lines: seq<string>, k: nat): string
    requires k <= |lines|
  {
    if k == 0 then [] else Joined(lines, k - 1) + lines[k - 1]
  }

  /** The number of bytes in the first `k` lines, terminators included. */
  function Offset(lines: seq<string>, k: nat): nat
    requires k <= |lines|
  {
    if k == 0 then 0 else Offset(lines, k - 1) + ByteLen(lines[k - 1])
  }

  /** Byte offset `col` is where the first occurrence of `p` in `line` starts. */
  predicate FirstAt(line: string, p: string, col: nat) {
    Find(line, p).Some? && Bytes(line, Find(line, p).value) == col
  }

  /** The record, if any, for pattern `p` on a line whose first byte is at offset `done`. */
  function HitFor(path: string, row: nat, done: nat, line: string, p: string): seq<Match> {
    match Find(line, p)
    case None => []
    case Some(k) =>
      var col := Bytes(line, k);
      [Match(path, row, col, done + col, ByteLen(p), line)]
  }

  /** The records of one line for its first `n` patterns, in pattern order. */
  function LineMatches(path: string, row: nat, done: nat, line: string, pats: seq<string>, n: nat): seq<Match>
    requires n <= |pats|
  {
    if n == 0 then []
    else LineMatches(path, row, done, line, pats, n - 1) + HitFor(path, row, done, line, pats[n - 1])
  }

  /** The records of the first `n` lines of a file, line after line. */
  function Matches(path: string, lines: seq<string>, pats: seq<string>, n: nat): seq<Match>
    requires n <= |lines|
  {
    if n == 0 then []
    else Matches(path, lines, pats, n - 1) + LineMatches(path, n, Offset(lines, n - 1), lines[n - 1], pats, |pats|)
  }

  /** What scanning `path` for `pats` yields. */
  function ScanFile(disk: Disk, path: string, pats: seq<string>): Result<Option<seq<string>>, Error> {
    if path !in disk then Failure(OpenFailed(path))
    else if disk[path].readFails then Failure(ReadFailed(path))
    else
      var lines := disk[path].lines;
      Success(Opt(EncodeAll(Matches(path, lines, pats, |lines|))))
  }

  lemma EncodeAllAppend(a: seq<Match>, b: seq<Match>)
    ensures EncodeAll(a + b) == EncodeAll(a) + EncodeAll(b)
  {
  }

  /** The record `HitFor` yields when the pattern occurs at character index `k`. */
  lemma HitForFound(path: string, row: nat, done: nat, line: string, p: string, k: nat)
    requires Find(line, p) == Some(k)
    ensures HitFor(path, row, done, line, p)
         == [Match(path, row, Bytes(line, k), done + Bytes(line, k), ByteLen(p), line)]
  {
  }

  /** A pattern yields at most one record, and only where it occurs. */
  lemma HitForShape(path: string, row: nat, done: nat, line: string, p: string)
    ensures |HitFor(path, row, done, line, p)| <= 1
    ensures HitFor(path, row, done, line, p) == [] <==> Find(line, p).None?
    ensures HitFor(path, row, done, line, p) != [] ==>
      var m := HitFor(path, row, done, line, p)[0];
      m == Match(path, row, Bytes(line, Find(line, p).value), done + Bytes(line, Find(line, p).value),
                 ByteLen(p), line)
  {
    match Find(line, p)
    case None =>
    case Some(k) => HitForFound(path, row, done, line, p, k);
  }

  /** A pattern that occurs adds its record to the line's descriptors. */
  lemma LineStepFound(path: string, row: nat, done: nat, line: string, pats: seq<string>, j: nat,
                      before: seq<string>, k: nat, m: Match)
    requires j < |pats| && Find(line, pats[j]) == Some(k)
    requires m == Match(path, row, Bytes(line, k), done + Bytes(line, k), ByteLen(pats[j]), line)
    ensures before + EncodeAll(LineMatches(path, row, done, line, pats, j + 1))
         == before + EncodeAll(LineMatches(path, row, done, line, pats, j)) + [Encode(m)]
  {
    var sofar := LineMatches(path, row, done, line, pats, j);
    HitForFound(path, row, done, line, pats[j], k);
    assert LineMatches(path, row, done, line, pats, j + 1) == sofar + [m];
    assert (sofar + [m])[..|sofar|] == sofar;
  }

  /** A pattern that does not occur adds nothing. */
  lemma LineStepMissing(path: string, row: nat, done: nat, line: string, pats: seq<string>, j: nat)
    requires j < |pats| && Find(line, pats[j]).None?
    ensures LineMatches(path, row, done, line, pats, j + 1) == LineMatches(path, row, done, line, pats, j)
  {
    assert HitFor(path, row, done, line, pats[j]) == [];
  }

  /** The descriptors of one more line follow those of the lines before it. */
  lemma MatchesStep(path: string, lines: seq<string>, pats: seq<string>, i: nat)
    requires i < |lines|
    ensures EncodeAll(Matches(path, lines, pats, i + 1))
         == EncodeAll(Matches(path, lines, pats, i)) + EncodeAll(LineMatches(path, i + 1, Offset(lines, i), lines[i], pats, |pats|))
  {
    EncodeAllAppend(Matches(path, lines, pats, i),
                    LineMatches(path, i + 1, Offset(lines, i), lines[i], pats, |pats|));
  }

  // ---------------------------------------------------------------------------
  // The scanner

  /**
   * The scanner's loop for one line: each pattern in turn, the descriptor of
   * its first occurrence appended to `results`.
   */
  method MatchLine(path: string, row: nat, done: nat, line: string, contents: seq<string>,
                   results: Option<seq<string>>, ghost before: seq<string>)
    returns (results': Option<seq<string>>)
    requires results == Opt(before)
    ensures results' == Opt(before + EncodeAll(LineMatches(path, row, done, line, contents, |contents|)))
  {
    results' := results;
    assert before + EncodeAll([]) == before;
    for j := 0 to |contents|
      invariant results' == Opt(before + EncodeAll(LineMatches(path, row, done, line, contents, j)))
    {
      results' := MatchPattern(path, row, done, line, contents, j, results', before);
    }
  }

  /** One pass of that loop: the descriptor of the first occurrence of pattern `j`, if any, appended. */
  method MatchPattern(path: string, row: nat, done: nat, line: string, contents: seq<string>, j: nat,
                      results: Option<seq<string>>, ghost before: seq<string>)
    returns (results': Option<seq<string>>)
    requires j < |contents|
    requires results == Opt(before + EncodeAll(LineMatches(path, row, done, line, contents, j)))
    ensures results' == Opt(before + EncodeAll(LineMatches(path, row, done, line, contents, j + 1)))
  {
    ghost var acc := before + EncodeAll(LineMatches(path, row, done, line, contents, j));
    var content := contents[j];
    var found := Find(line, content);
    if found.None? {
      LineStepMissing(path, row, done, line, contents, j);
      return results;
    }
    var col := Bytes(line, found.value);
    results' := results;
    if results'.None? {
      results' := Some([]);
    }
    assert results'.value == acc;
    var pos := done + col;
    var len := ByteLen(content);
    var m := Match(path, row, col, pos, len, line);
    LineStepFound(path, row, done, line, contents, j, before, found.value, m);
    results' := Some(results'.value + [Encode(m)]);
    assert results' == Opt(acc + [Encode(m)]);
  }

  /** `text_file_find_any`: scan one file for several patterns. */
  method TextFileFindAny(disk: Disk, path: string, contents: seq<string>)
    returns (r: Result<Option<seq<string>>, Error>)
    ensures r == ScanFile(disk, path, contents)
    ensures r.Success? && r.value.Some? ==> r.value.value != []
  {
    var results: Option<seq<string>> := None;
    if path !in disk {
      return Failure(OpenFailed(path));
    }
    var file := disk[path];
    var i := 0;
    var row := 1;
    var done := 0;
    while true
      invariant 0 <= i <= |file.lines|
      invariant row == i + 1
      invariant done == Offset(file.lines, i)
      invariant results == Opt(EncodeAll(Matches(path, file.lines, contents, i)))
      decreases |file.lines| - i
    {
      if i == |file.lines| {
        if file.readFails {
          return Failure(ReadFailed(path));
        }
        break;
      }
      var line := file.lines[i];
      ghost var before := EncodeAll(Matches(path, file.lines, contents, i));
      results := MatchLine(path, i + 1, done, line, contents, results, before);
      MatchesStep(path, file.lines, contents, i);
      assert results == Opt(EncodeAll(Matches(path, file.lines, contents, i + 1)));
      done := done + ByteLen(line);
      row := row + 1;
      i := i + 1;
    }
    return Success(results);
  }

  /** `text_file_find`: the scanner with a single pattern. */
  method TextFileFind(disk: Disk, path: string, content: string)
    returns (r: Result<Option<seq<string>>, Error>)
    ensures r == ScanFile(disk, path, [content])
  {
    r := TextFileFindAny(disk, path, [content]);
  }
}
