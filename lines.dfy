/**
 * Helpers over lists of lines: the first longest and first shortest line,
 * and the `key = value` settings file read by `read_setup`.
 */
module Lines {
  import opened Wrappers
  import opened Text
  import opened Scanner

  // ---------------------------------------------------------------------------
  // find_bigger_line / find_smaller_line

  /** `on[i]` is longest in bytes, and no line before it is as long. */
  predicate FirstLongest(on: seq<string>, i: nat)
    requires i < |on|
  {
    (forall j :: 0 <= j < |on| ==> ByteLen(on[j]) <= ByteLen(on[i])) &&
    (forall j :: 0 <= j < i ==> ByteLen(on[j]) < ByteLen(on[i]))
  }

  /** `on[i]` is shortest in bytes, and no line before it is as short. */
  predicate FirstShortest(on: seq<string>, i: nat)
    requires i < |on|
  {
    (forall j :: 0 <= j < |on| ==> ByteLen(on[i]) <= ByteLen(on[j])) &&
    (forall j :: 0 <= j < i ==> ByteLen(on[i]) < ByteLen(on[j]))
  }

  /** `find_bigger_line`: the first of the longest lines, `None` when there are none. */
  method FindBiggerLine(on: seq<string>) returns (r: Option<string>)
    ensures r.None? <==> on == []
    ensures r.Some? ==> exists i :: 0 <= i < |on| && on[i] == r.value && FirstLongest(on, i)
  {
    if on == [] {
      return None;
    }
    var bigger := on[0];
    ghost var at := 0;
    for i := 0 to |on|
      invariant at < |on| && bigger == on[at] && at <= i + 1
      invariant forall j :: 0 <= j < i ==> ByteLen(on[j]) <= ByteLen(bigger)
      invariant forall j :: 0 <= j < at ==> ByteLen(on[j]) < ByteLen(bigger)
    {
      var line := on[i];
      if ByteLen(line) > ByteLen(bigger) {
        bigger := line;
        at := i;
      }
    }
    assert FirstLongest(on, at);
    return Some(bigger);
  }

  /** `find_smaller_line`: the first of the shortest lines, `None` when there are none. */
  method FindSmallerLine(on: seq<string>) returns (r: Option<string>)
    ensures r.None? <==> on == []
    ensures r.Some? ==> exists i :: 0 <= i < |on| && on[i] == r.value && FirstShortest(on, i)
  {
    if on == [] {
      return None;
    }
    var smallest := on[0];
    ghost var at := 0;
    for i := 0 to |on|
      invariant at < |on| && smallest == on[at] && at <= i + 1
      invariant forall j :: 0 <= j < i ==> ByteLen(smallest) <= ByteLen(on[j])
      invariant forall j :: 0 <= j < at ==> ByteLen(smallest) < ByteLen(on[j])
    {
      var line := on[i];
      if ByteLen(line) < ByteLen(smallest) {
        smallest := line;
        at := i;
      }
    }
    assert FirstShortest(on, at);
    return Some(smallest);
  }

  /** The first longest line and the first shortest line are one line exactly when all lines are equally long. */
  lemma LongestIsShortest(on: seq<string>, i: nat, k: nat)
    requires i < |on| && k < |on| && FirstLongest(on, i) && FirstShortest(on, k)
    ensures i == k <==> forall j :: 0 <= j < |on| ==> ByteLen(on[j]) == ByteLen(on[0])
  {
    if forall j :: 0 <= j < |on| ==> ByteLen(on[j]) == ByteLen(on[0]) {
      assert ByteLen(on[i]) == ByteLen(on[0]) && ByteLen(on[k]) == ByteLen(on[0]);
      assert i == 0 && k == 0;
    } else {
      var j :| 0 <= j < |on| && ByteLen(on[j]) != ByteLen(on[0]);
      assert ByteLen(on[k]) <= ByteLen(on[j]) <= ByteLen(on[i]);
      assert ByteLen(on[k]) <= ByteLen(on[0]) <= ByteLen(on[i]);
    }
  }

  // ---------------------------------------------------------------------------
  // read_setup

  /**
   * A line as `BufRead::lines` yields it: without its `\n`, and without the
   * `\r` before that `\n`.
   */
  function Unterminated(line: string): (r: string)
    ensures line == [] || line[|line| - 1] != '\n' ==> r == line
    ensures |line| >= 2 && line[|line| - 2..] == "\r\n" ==> r + "\r\n" == line
    ensures line == "\n" || (|line| >= 2 && line[|line| - 1] == '\n' && line[|line| - 2] != '\r') ==> r + "\n" == line
  {
    if line != [] && line[|line| - 1] == '\n' then
      var l := line[..|line| - 1];
      if l != [] && l[|l| - 1] == '\r' then l[..|l| - 1] else l
    else line
  }

  function UnterminatedAll(lines: seq<string>): (r: seq<string>)
    ensures |r| == |lines| && forall i :: 0 <= i < |lines| ==> r[i] == Unterminated(lines[i])
  {
    seq(|lines|, i requires 0 <= i < |lines| => Unterminated(lines[i]))
  }

  /**
   * The setting a line of a settings file gives, if any: none for an empty
   * line or a comment; otherwise the text before the first `=` and the text
   * after it, both trimmed; a line without `=` is a key, untrimmed, with an
   * empty value.
   */
  function Entry(line: string): (r: Option<(string, string)>)
    ensures r.None? <==> line == [] || line[0] == '#'
  {
    if line == [] || line[0] == '#' then None
    else
      match Find(line, "=")
      case Some(k) => Some((Trim(line[..k]), Trim(line[k + 1..])))
      case None => Some((line, ""))
  }

  /**
   * A setting line splits at its first `=` into a trimmed key and a trimmed
   * value; without `=` the whole line is the key.
   */
  lemma EntrySplit(line: string)
    requires line != [] && line[0] != '#'
    ensures '=' !in line ==> Entry(line) == Some((line, ""))
    ensures '=' in line ==>
              exists k :: 0 <= k < |line| && line[k] == '=' && '=' !in line[..k] &&
                          Entry(line) == Some((Trim(line[..k]), Trim(line[k + 1..])))
  {
    match Find(line, "=")
    case Some(k) =>
      FirstEquals(line, k);
    case None =>
      NoEquals(line);
  }

  lemma FirstEquals(line: string, k: nat)
    requires Find(line, "=") == Some(k)
    ensures k < |line| && line[k] == '=' && '=' !in line[..k]
  {
    FindSpec(line, "=");
    assert line[k..k + 1] == "=";
    forall j | 0 <= j < k
      ensures line[..k][j] != '='
    {
      assert !OccursAt(line, "=", j);
      assert line[j..j + 1] != "=";
    }
  }

  lemma NoEquals(line: string)
    requires Find(line, "=").None?
    ensures '=' !in line
  {
    FindSpec(line, "=");
    forall j | 0 <= j < |line|
      ensures line[j] != '='
    {
      assert !OccursAt(line, "=", j);
      assert line[j..j + 1] != "=";
    }
  }

  /** The settings of `lines`, read in order; a later line with the same key wins. */
  function Setup(lines: seq<string>): map<string, string> {
    if lines == [] then map[] else Apply(Setup(lines[..|lines| - 1]), Entry(lines[|lines| - 1]))
  }

  /** The settings after one more line's entry, if it gives one. */
  function Apply(settings: map<string, string>, entry: Option<(string, string)>): map<string, string> {
    match entry
    case None => settings
    case Some((key, value)) => settings[key := value]
  }

  lemma SetupStep(lines: seq<string>, i: nat)
    requires i < |lines|
    ensures Setup(lines[..i + 1]) == Apply(Setup(lines[..i]), Entry(lines[i]))
  {
    assert lines[..i + 1][..i] == lines[..i];
  }

  /** The keys of the settings are exactly the keys some line gives. */
  lemma SetupKeys(lines: seq<string>, key: string)
    ensures key in Setup(lines) <==>
            exists i :: 0 <= i < |lines| && Entry(lines[i]).Some? && Entry(lines[i]).value.0 == key
  {
    if key in Setup(lines) {
      KeyFromLine(lines, key);
    }
    if exists i :: 0 <= i < |lines| && Entry(lines[i]).Some? && Entry(lines[i]).value.0 == key {
      var i :| 0 <= i < |lines| && Entry(lines[i]).Some? && Entry(lines[i]).value.0 == key;
      LineGivesKey(lines, i);
    }
  }

  /** Every key of the settings comes from some line. */
  lemma {:induction false} KeyFromLine(lines: seq<string>, key: string)
    requires key in Setup(lines)
    ensures exists i :: 0 <= i < |lines| && Entry(lines[i]).Some? && Entry(lines[i]).value.0 == key
    decreases |lines|
  {
    var n := |lines| - 1;
    if Entry(lines[n]).Some? && Entry(lines[n]).value.0 == key {
      assert 0 <= n < |lines|;
    } else {
      assert key in Setup(lines[..n]);
      KeyFromLine(lines[..n], key);
      var i :| 0 <= i < n && Entry(lines[..n][i]).Some? && Entry(lines[..n][i]).value.0 == key;
      assert lines[..n][i] == lines[i];
    }
  }

  /** The key of every line that gives one is a key of the settings. */
  lemma {:induction false} LineGivesKey(lines: seq<string>, i: nat)
    requires i < |lines| && Entry(lines[i]).Some?
    ensures Entry(lines[i]).value.0 in Setup(lines)
    decreases |lines|
  {
    var n := |lines| - 1;
    if i < n {
      assert lines[..n][i] == lines[i];
      LineGivesKey(lines[..n], i);
    }
  }

  /** A key's value is the one the last line with that key gives. */
  lemma {:induction false} SetupLastWins(lines: seq<string>, i: nat)
    requires i < |lines| && Entry(lines[i]).Some?
    requires forall j :: i < j < |lines| ==> Entry(lines[j]).None? || Entry(lines[j]).value.0 != Entry(lines[i]).value.0
    ensures Entry(lines[i]).value.0 in Setup(lines)
    ensures Setup(lines)[Entry(lines[i]).value.0] == Entry(lines[i]).value.1
    decreases |lines|
  {
    var n := |lines| - 1;
    if i < n {
      assert forall j :: i < j < n ==> lines[..n][j] == lines[j];
      SetupLastWins(lines[..n], i);
    }
  }

  /**
   * `read_setup`: read the settings file at `path`. A file that cannot be
   * opened, or a read that fails, fails the call.
   */
  method ReadSetup(disk: Disk, path: string) returns (r: Result<map<string, string>, Error>)
    ensures path !in disk ==> r == Failure(OpenFailed(path))
    ensures path in disk && disk[path].readFails ==> r == Failure(ReadFailed(path))
    ensures path in disk && !disk[path].readFails ==> r == Success(Setup(UnterminatedAll(disk[path].lines)))
  {
    if path !in disk {
      return Failure(OpenFailed(path));
    }
    var file := disk[path];
    ghost var lines := UnterminatedAll(file.lines);
    var result := map[];
    for i := 0 to |file.lines|
      invariant result == Setup(lines[..i])
    {
      SetupStep(lines, i);
      var line := Unterminated(file.lines[i]);
      assert line == lines[i];
      if line == [] || line[0] == '#' {
        continue;
      }
      var equalsPos := Find(line, "=");
      if equalsPos.Some? {
        var key := Trim(line[..equalsPos.value]);
        var value := Trim(line[equalsPos.value + 1..]);
        assert Entry(line) == Some((key, value));
        result := result[key := value];
      } else {
        assert Entry(line) == Some((line, ""));
        result := result[line := ""];
      }
    }
    if file.readFails {
      return Failure(ReadFailed(path));
    }
    assert lines[..|file.lines|] == lines;
    return Success(result);
  }
}
