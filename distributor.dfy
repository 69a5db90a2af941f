/**
 * `text_files_find_any` / `text_files_find`: several files scanned by a
 * number of workers that pop paths from a shared pool until it is empty.
 *
 * The threads are modelled sequentially. A `schedule` says which worker
 * performs each of the first steps (one pop and the scan of that path);
 * after it, the workers still running run to completion in spawn order.
 * A worker whose scan fails stops there, as the thread does when it
 * unwraps the error. The workers are then joined in spawn order: the
 * first one that stopped on a failure makes the call fail, the others'
 * partial lists are appended to the result.
 */
module Distributor {
  import opened Wrappers
  import opened Text
  import opened Scanner
  import ScanProperties

  /** The shared pool of paths still to be scanned; the last one is taken first. */
  class Pool {
    var paths: seq<string>

    constructor (paths: seq<string>)
      ensures this.paths == paths
    {
      this.paths := paths;
    }

    /** Take the last path, or `None` when the pool is empty. */
    method Pop() returns (p: Option<string>)
      modifies this
      ensures old(paths) == [] ==> p == None && paths == []
      ensures old(paths) != [] ==>
                p == Some(old(paths)[|old(paths)| - 1]) && paths == old(paths)[..|old(paths)| - 1]
    {
      if paths == [] {
        p := None;
      } else {
        p := Some(paths[|paths| - 1]);
        paths := paths[..|paths| - 1];
      }
    }
  }

  datatype State = Running | Finished | Panicked

  /** A worker: the descriptors it has gathered so far, and whether it is still at work. */
  datatype Worker = Worker(partial: Option<seq<string>>, state: State)

  /** How each path scans: the scanner applied to one file with fixed patterns. */
  type Scan = string -> Result<Option<seq<string>>, Error>

  /** Scanning the files of `disk` for `pats`. */
  function Scans(disk: Disk, pats: seq<string>): Scan {
    path => ScanFile(disk, path, pats)
  }

  /** The descriptors scanning `path` contributes: none when nothing matched or the scan failed. */
  function Found(scan: Scan, path: string): seq<string> {
    var r := scan(path);
    if r.Success? && r.value.Some? then r.value.value else []
  }

  /** The descriptors of the paths `ps`, scanned in that order, one after the other. */
  function Collect(scan: Scan, ps: seq<string>): seq<string> {
    if ps == [] then [] else Collect(scan, ps[..|ps| - 1]) + Found(scan, ps[|ps| - 1])
  }

  /** The descriptors of the files `ps` of `disk`, searched for `pats` in that order. */
  function Gathered(disk: Disk, ps: seq<string>, pats: seq<string>): seq<string> {
    Collect(Scans(disk, pats), ps)
  }

  /** The lists `ss` one after the other. */
  function Flatten(ss: seq<seq<string>>): seq<string> {
    if ss == [] then [] else Flatten(ss[..|ss| - 1]) + ss[|ss| - 1]
  }

  /** `s` back to front: the order in which the pool hands out its paths. */
  function Reversed(s: seq<string>): (r: seq<string>)
    ensures |r| == |s|
  {
    seq(|s|, i requires 0 <= i < |s| => s[|s| - 1 - i])
  }

  /** Appending an optional list to an optional accumulator, which stays `None` until something arrives. */
  function Absorb(acc: Option<seq<string>>, more: Option<seq<string>>): Option<seq<string>> {
    match more
    case None => acc
    case Some(m) => Some((if acc.Some? then acc.value else []) + m)
  }

  /** The list an optional result holds, empty for `None`. */
  function Unwrapped(o: Option<seq<string>>): seq<string> {
    if o.Some? then o.value else []
  }

  /** Every path of `ps` can be scanned. */
  predicate AllScan(disk: Disk, ps: seq<string>, pats: seq<string>) {
    forall i :: 0 <= i < |ps| ==> ScanFile(disk, ps[i], pats).Success?
  }

  /** Every path of `ps` scans without failing. */
  predicate AllOk(scan: Scan, ps: seq<string>) {
    forall i :: 0 <= i < |ps| ==> scan(ps[i]).Success?
  }

  /** A scan that succeeds with a list never has an empty one. */
  ghost predicate NeverEmpty(scan: Scan) {
    forall path :: scan(path).Success? && scan(path).value.Some? ==> scan(path).value.value != []
  }

  lemma ScansNeverEmpty(disk: Disk, pats: seq<string>)
    ensures NeverEmpty(Scans(disk, pats))
  {
    forall path | ScanFile(disk, path, pats).Success? && ScanFile(disk, path, pats).value.Some?
      ensures ScanFile(disk, path, pats).value.value != []
    {
      ScanProperties.ScanOutcome(disk, path, pats);
    }
  }

  lemma AllScanOk(disk: Disk, ps: seq<string>, pats: seq<string>)
    ensures AllScan(disk, ps, pats) <==> AllOk(Scans(disk, pats), ps)
  {
  }

  /**
   * One pass of a worker's loop, from pool `pool` and worker `w` with the
   * paths `t` taken so far, to `pool'`, `w'` and `t'`.
   */
  predicate WorkStep(scan: Scan, pool: seq<string>, w: Worker, t: seq<string>,
                     pool': seq<string>, w': Worker, t': seq<string>)
  {
    if pool == [] then
      pool' == [] && w' == Worker(w.partial, Finished) && t' == t
    else
      var path := pool[|pool| - 1];
      var r := scan(path);
      pool' == pool[..|pool| - 1] && t' == t + [path] &&
      w' == (if r.Failure? then Worker(w.partial, Panicked) else Worker(Absorb(w.partial, r.value), Running))
  }

  /** `text_file_find_any`'s worker, one pass: pop a path and scan it. */
  method Work(pool: Pool, disk: Disk, pats: seq<string>, w: Worker, ghost t: seq<string>)
    returns (w': Worker, ghost t': seq<string>)
    requires w.state == Running
    modifies pool
    ensures WorkStep(Scans(disk, pats), old(pool.paths), w, t, pool.paths, w', t')
  {
    var path := pool.Pop();
    if path.None? {
      w', t' := Worker(w.partial, Finished), t;
      return;
    }
    t' := t + [path.value];
    var fileFounds := TextFileFindAny(disk, path.value, pats);
    if fileFounds.Failure? {
      w' := Worker(w.partial, Panicked);
      return;
    }
    var partial := w.partial;
    if fileFounds.value.Some? {
      if partial.None? {
        partial := Some([]);
      }
      partial := Some(partial.value + fileFounds.value.value);
    }
    w' := Worker(partial, Running);
  }

  /** What a worker's state says about the paths `t` it took, given the pool left. */
  predicate WorkerOk(scan: Scan, w: Worker, t: seq<string>, pool: seq<string>) {
    match w.state
    case Running => AllOk(scan, t) && w.partial == Opt(Collect(scan, t))
    case Finished => AllOk(scan, t) && w.partial == Opt(Collect(scan, t)) && pool == []
    case Panicked =>
      t != [] && AllOk(scan, t[..|t| - 1]) && scan(t[|t| - 1]).Failure?
  }

  /**
   * The bookkeeping of a run: `popped` is what the pool has handed out, in
   * order; the workers between them took exactly those paths.
   */
  predicate Consistent(scan: Scan, paths: seq<string>, pool: seq<string>,
                       popped: seq<string>, workers: seq<Worker>, taken: seq<seq<string>>)
  {
    |workers| == |taken| &&
    |popped| <= |paths| && popped == Reversed(paths)[..|popped|] && pool == paths[..|paths| - |popped|] &&
    multiset(Flatten(taken)) == multiset(popped) &&
    forall k :: 0 <= k < |workers| ==> WorkerOk(scan, workers[k], taken[k], pool)
  }

  // ---------------------------------------------------------------------------
  // Lemmas about the bookkeeping

  lemma {:induction false} FlattenExtend(ss: seq<seq<string>>, k: nat, p: string)
    requires k < |ss|
    ensures multiset(Flatten(ss[k := ss[k] + [p]])) == multiset(Flatten(ss)) + multiset{p}
    decreases |ss|
  {
    var ss' := ss[k := ss[k] + [p]];
    var n := |ss| - 1;
    var front := Flatten(ss[..n]);
    assert Flatten(ss) == front + ss[n];
    if k == n {
      assert ss'[..n] == ss[..n];
      assert Flatten(ss') == front + (ss[n] + [p]);
      assert front + (ss[n] + [p]) == (front + ss[n]) + [p];
    } else {
      assert ss'[..n] == ss[..n][k := ss[k] + [p]];
      FlattenExtend(ss[..n], k, p);
      var front' := Flatten(ss'[..n]);
      assert Flatten(ss') == front' + ss[n];
      assert multiset(front' + ss[n]) == multiset(front') + multiset(ss[n]);
      assert multiset(front + ss[n]) == multiset(front) + multiset(ss[n]);
    }
  }

  lemma {:induction false} FlattenHas(ss: seq<seq<string>>, k: nat, x: string)
    requires k < |ss| && x in ss[k]
    ensures x in multiset(Flatten(ss))
    decreases |ss|
  {
    var n := |ss| - 1;
    if k < n {
      FlattenHas(ss[..n], k, x);
    }
  }

  lemma {:induction false} FlattenFrom(ss: seq<seq<string>>, x: string) returns (k: nat)
    requires x in multiset(Flatten(ss))
    ensures k < |ss| && x in ss[k]
    decreases |ss|
  {
    var n := |ss| - 1;
    if x in ss[n] {
      k := n;
    } else {
      k := FlattenFrom(ss[..n], x);
    }
  }

  /** With every list but the first empty, the lists one after the other are the first. */
  lemma {:induction false} FlattenSolo(ss: seq<seq<string>>)
    requires |ss| >= 1 && forall k :: 1 <= k < |ss| ==> ss[k] == []
    ensures Flatten(ss) == ss[0]
    decreases |ss|
  {
    if |ss| > 1 {
      FlattenSolo(ss[..|ss| - 1]);
    } else {
      assert ss[..0] == [];
    }
  }

  lemma {:induction false} FlattenPrefix(ss: seq<seq<string>>, k: nat)
    requires k < |ss|
    ensures Flatten(ss[..k + 1]) == Flatten(ss[..k]) + ss[k]
  {
    assert ss[..k + 1][..k] == ss[..k];
  }

  lemma {:induction false} CollectAppend(scan: Scan, a: seq<string>, b: seq<string>)
    ensures Collect(scan, a + b) == Collect(scan, a) + Collect(scan, b)
    decreases |b|
  {
    if b == [] {
      assert a + b == a;
    } else {
      var b', x := b[..|b| - 1], b[|b| - 1];
      assert b == b' + [x];
      assert a + b == (a + b') + [x];
      CollectSnoc(scan, a + b', x);
      CollectSnoc(scan, b', x);
      CollectAppend(scan, a, b');
      Regroup(Collect(scan, a + b), Collect(scan, a), Collect(scan, b'), Found(scan, x), Collect(scan, b));
    }
  }

  lemma Regroup(whole: seq<string>, front: seq<string>, more: seq<string>, last: seq<string>, tail: seq<string>)
    requires whole == (front + more) + last && tail == more + last
    ensures whole == front + tail
  {
    assert (front + more) + last == front + (more + last);
  }

  /** One more path adds its descriptors at the end. */
  lemma CollectSnoc(scan: Scan, ps: seq<string>, x: string)
    ensures Collect(scan, ps + [x]) == Collect(scan, ps) + Found(scan, x)
  {
    assert (ps + [x])[..|ps|] == ps;
  }

  /** The descriptors of a reordering of the paths are a reordering of the descriptors. */
  lemma {:induction false} CollectPermutation(scan: Scan, a: seq<string>, b: seq<string>)
    requires multiset(a) == multiset(b)
    ensures multiset(Collect(scan, a)) == multiset(Collect(scan, b))
    decreases |a|
  {
    if a == [] {
      assert |b| == |multiset(b)| == 0;
    } else {
      var n := |a| - 1;
      var x := a[n];
      assert a == a[..n] + [x];
      assert x in multiset(b);
      var i :| 0 <= i < |b| && b[i] == x;
      var front, back := b[..i], b[i + 1..];
      assert b == front + ([x] + back);
      Removed(a, b, i);
      CollectPermutation(scan, a[..n], front + back);
      CollectAppend(scan, front, [x] + back);
      CollectAppend(scan, [x], back);
      CollectAppend(scan, front, back);
      assert [x][..0] == [];
    }
  }

  /** Taking the last of `a` and the same path at `i` out of `b` leaves two reorderings of each other. */
  lemma Removed(a: seq<string>, b: seq<string>, i: nat)
    requires multiset(a) == multiset(b) && a != [] && i < |b| && b[i] == a[|a| - 1]
    ensures multiset(a[..|a| - 1]) == multiset(b[..i] + b[i + 1..])
  {
    var x := b[i];
    assert a == a[..|a| - 1] + [x];
    assert b == b[..i] + [x] + b[i + 1..];
    calc {
      multiset(a[..|a| - 1]);
      multiset(a) - multiset{x};
      multiset(b) - multiset{x};
      multiset(b[..i]) + multiset(b[i + 1..]);
      multiset(b[..i] + b[i + 1..]);
    }
  }

  /** A successful scan's result is `Opt` of what the file contributes. */
  lemma ScanFound(scan: Scan, path: string)
    requires NeverEmpty(scan) && scan(path).Success?
    ensures scan(path).value == Opt(Found(scan, path))
  {
  }

  /** Accumulating optional lists is `Opt` of their concatenation. */
  lemma AbsorbOpt(a: seq<string>, b: seq<string>)
    ensures Absorb(Opt(a), Opt(b)) == Opt(a + b)
  {
    if b == [] {
      assert a + b == a;
    }
  }

  lemma {:induction false} ReversedMultiset(s: seq<string>)
    ensures multiset(Reversed(s)) == multiset(s)
    decreases |s|
  {
    if s != [] {
      var n := |s| - 1;
      ReversedMultiset(s[..n]);
      assert Reversed(s) == [s[n]] + Reversed(s[..n]);
      assert s == s[..n] + [s[n]];
    }
  }

  /** A path the pool handed out comes from the original list. */
  lemma PoppedFromPaths(paths: seq<string>, popped: seq<string>, x: string)
    requires |popped| <= |paths| && popped == Reversed(paths)[..|popped|] && x in popped
    ensures x in paths
  {
    var i :| 0 <= i < |popped| && popped[i] == x;
    assert paths[|paths| - 1 - i] == x;
  }

  /** What the pool has handed out after one more pass that started from `pool`. */
  function Handed(pool: seq<string>, popped: seq<string>): seq<string> {
    if pool == [] then popped else popped + [pool[|pool| - 1]]
  }

  /** One pass of worker `k` keeps the bookkeeping consistent. */
  lemma StepConsistent(scan: Scan, paths: seq<string>, pool: seq<string>,
                       popped: seq<string>, workers: seq<Worker>, taken: seq<seq<string>>,
                       k: nat, pool': seq<string>, w': Worker, t': seq<string>)
    requires NeverEmpty(scan) && Consistent(scan, paths, pool, popped, workers, taken)
    requires k < |workers| && workers[k].state == Running
    requires WorkStep(scan, pool, workers[k], taken[k], pool', w', t')
    ensures Consistent(scan, paths, pool', Handed(pool, popped), workers[k := w'], taken[k := t'])
  {
    if pool == [] {
      IdleConsistent(scan, paths, pool, popped, workers, taken, k, pool', w', t');
    } else {
      TakeConsistent(scan, paths, pool, popped, workers, taken, k, pool', w', t');
    }
  }

  /** A pass that finds the pool empty only stops the worker. */
  lemma IdleConsistent(scan: Scan, paths: seq<string>, pool: seq<string>,
                       popped: seq<string>, workers: seq<Worker>, taken: seq<seq<string>>,
                       k: nat, pool': seq<string>, w': Worker, t': seq<string>)
    requires Consistent(scan, paths, pool, popped, workers, taken)
    requires k < |workers| && workers[k].state == Running && pool == []
    requires WorkStep(scan, pool, workers[k], taken[k], pool', w', t')
    ensures Consistent(scan, paths, pool', popped, workers[k := w'], taken[k := t'])
  {
    var workers' := workers[k := w'];
    var taken' := taken[k := t'];
    assert taken' == taken;
    forall j | 0 <= j < |workers'|
      ensures WorkerOk(scan, workers'[j], taken'[j], pool')
    {
      assert WorkerOk(scan, workers[j], taken[j], pool);
    }
  }

  /** A pass that takes a path hands it to the worker's account. */
  lemma TakeConsistent(scan: Scan, paths: seq<string>, pool: seq<string>,
                       popped: seq<string>, workers: seq<Worker>, taken: seq<seq<string>>,
                       k: nat, pool': seq<string>, w': Worker, t': seq<string>)
    requires NeverEmpty(scan) && Consistent(scan, paths, pool, popped, workers, taken)
    requires k < |workers| && workers[k].state == Running && pool != []
    requires WorkStep(scan, pool, workers[k], taken[k], pool', w', t')
    ensures Consistent(scan, paths, pool', popped + [pool[|pool| - 1]], workers[k := w'], taken[k := t'])
  {
    var workers' := workers[k := w'];
    var taken' := taken[k := t'];
    var path := pool[|pool| - 1];
    var popped' := popped + [path];
    PopBookkeeping(paths, pool, popped);
    assert t' == taken[k] + [path];
    assert taken' == taken[k := taken[k] + [path]];
    FlattenExtend(taken, k, path);
    assert multiset(popped') == multiset(popped) + multiset{path};
    assert WorkerOk(scan, workers[k], taken[k], pool);
    WorkerStepOk(scan, workers[k], taken[k], pool, pool', w', t');
    OthersOk(scan, workers, taken, pool, k, workers', taken', pool');
  }

  /** Popping from a pool that is a prefix of `paths` hands out the next path from the back. */
  lemma PopBookkeeping(paths: seq<string>, pool: seq<string>, popped: seq<string>)
    requires |popped| <= |paths| && popped == Reversed(paths)[..|popped|]
    requires pool == paths[..|paths| - |popped|] && pool != []
    ensures |popped| + 1 <= |paths|
    ensures popped + [pool[|pool| - 1]] == Reversed(paths)[..|popped| + 1]
    ensures pool[..|pool| - 1] == paths[..|paths| - (|popped| + 1)]
  {
    assert pool[|pool| - 1] == paths[|paths| - |popped| - 1];
    ReversedPrefix(paths, |popped|);
  }

  /** A pass by worker `k` leaves the others' accounts as they were, the pool not yet empty. */
  lemma OthersOk(scan: Scan, workers: seq<Worker>, taken: seq<seq<string>>, pool: seq<string>,
                 k: nat, workers': seq<Worker>, taken': seq<seq<string>>, pool': seq<string>)
    requires |workers| == |taken| && k < |workers| && pool != []
    requires forall j :: 0 <= j < |workers| ==> WorkerOk(scan, workers[j], taken[j], pool)
    requires |workers'| == |workers| && |taken'| == |taken|
    requires workers' == workers[k := workers'[k]] && taken' == taken[k := taken'[k]]
    requires WorkerOk(scan, workers'[k], taken'[k], pool')
    ensures forall j :: 0 <= j < |workers'| ==> WorkerOk(scan, workers'[j], taken'[j], pool')
  {
    forall j | 0 <= j < |workers'|
      ensures WorkerOk(scan, workers'[j], taken'[j], pool')
    {
      if j != k {
        assert WorkerOk(scan, workers[j], taken[j], pool);
        assert workers[j].state != Finished;
      }
    }
  }

  lemma ReversedPrefix(s: seq<string>, m: nat)
    requires m < |s|
    ensures Reversed(s)[..m] + [s[|s| - 1 - m]] == Reversed(s)[..m + 1]
  {
  }

  /** The worker that made a pass still accounts for the paths it took. */
  lemma WorkerStepOk(scan: Scan, w: Worker, t: seq<string>, pool: seq<string>,
                     pool': seq<string>, w': Worker, t': seq<string>)
    requires NeverEmpty(scan) && w.state == Running && WorkerOk(scan, w, t, pool)
    requires pool != [] && WorkStep(scan, pool, w, t, pool', w', t')
    ensures WorkerOk(scan, w', t', pool')
  {
    var path := pool[|pool| - 1];
    assert t'[..|t'| - 1] == t;
    if scan(path).Success? {
      ScanFound(scan, path);
      AbsorbOpt(Collect(scan, t), Found(scan, path));
      assert Collect(scan, t') == Collect(scan, t) + Found(scan, path);
    }
  }

  /** When every worker has stopped and none failed, the pool handed out every path, each to a worker that scanned it. */
  lemma AllDone(scan: Scan, paths: seq<string>, pool: seq<string>,
                popped: seq<string>, workers: seq<Worker>, taken: seq<seq<string>>)
    requires Consistent(scan, paths, pool, popped, workers, taken)
    requires |workers| >= 1 && forall k :: 0 <= k < |workers| ==> workers[k].state == Finished
    ensures popped == Reversed(paths)
    ensures multiset(Flatten(taken)) == multiset(paths)
    ensures AllOk(scan, paths)
  {
    assert WorkerOk(scan, workers[0], taken[0], pool);
    assert popped == Reversed(paths);
    ReversedMultiset(paths);
    forall i | 0 <= i < |paths|
      ensures scan(paths[i]).Success?
    {
      var x := paths[i];
      assert x in multiset(paths);
      var k := FlattenFrom(taken, x);
      assert WorkerOk(scan, workers[k], taken[k], pool);
      var j :| 0 <= j < |taken[k]| && taken[k][j] == x;
    }
  }

  /** A worker that failed took a path of the list that cannot be scanned. */
  lemma PanicCause(scan: Scan, paths: seq<string>, pool: seq<string>,
                   popped: seq<string>, workers: seq<Worker>, taken: seq<seq<string>>, k: nat)
    requires Consistent(scan, paths, pool, popped, workers, taken)
    requires k < |workers| && workers[k].state == Panicked
    ensures !AllOk(scan, paths)
  {
    assert WorkerOk(scan, workers[k], taken[k], pool);
    var t := taken[k];
    var x := t[|t| - 1];
    FlattenHas(taken, k, x);
    PoppedFromPaths(paths, popped, x);
    var i :| 0 <= i < |paths| && paths[i] == x;
    assert scan(paths[i]).Failure?;
  }

  /** The bookkeeping of a run that has not started. */
  lemma StartConsistent(scan: Scan, paths: seq<string>, cpus: nat)
    ensures Consistent(scan, paths, paths, [], seq(cpus, _ => Worker(None, Running)), seq(cpus, _ => []))
  {
    var taken: seq<seq<string>> := seq(cpus, _ => []);
    var workers := seq(cpus, _ => Worker(None, Running));
    FlattenEmpty(taken);
    forall k | 0 <= k < cpus
      ensures WorkerOk(scan, workers[k], taken[k], paths)
    {
      assert Collect(scan, taken[k]) == [];
    }
  }

  lemma {:induction false} FlattenEmpty(ss: seq<seq<string>>)
    requires forall k :: 0 <= k < |ss| ==> ss[k] == []
    ensures Flatten(ss) == []
    decreases |ss|
  {
    if ss != [] {
      FlattenEmpty(ss[..|ss| - 1]);
    }
  }

  /**
   * With one worker, or when the first worker runs before any other, the
   * first worker takes every path the pool hands out.
   */
  predicate Solo(popped: seq<string>, workers: seq<Worker>, taken: seq<seq<string>>) {
    (forall k :: 0 <= k < |workers| ==> workers[k].state != Panicked) ==>
      |taken| >= 1 && taken[0] == popped && forall k :: 1 <= k < |taken| ==> taken[k] == []
  }

  /**
   * A pass keeps the first worker the only one with paths, as long as no
   * worker failed: it is the first worker's pass, or the pool was empty.
   */
  lemma SoloStep(scan: Scan, pool: seq<string>, popped: seq<string>,
                 workers: seq<Worker>, taken: seq<seq<string>>, k: nat,
                 pool': seq<string>, w': Worker, t': seq<string>)
    requires |workers| == |taken| && k < |workers| && Solo(popped, workers, taken)
    requires workers[k].state == Running
    requires WorkStep(scan, pool, workers[k], taken[k], pool', w', t')
    requires k == 0 || pool == [] || exists j :: 0 <= j < |workers| && workers[j].state == Panicked
    ensures Solo(Handed(pool, popped), workers[k := w'], taken[k := t'])
  {
    var workers' := workers[k := w'];
    if forall j :: 0 <= j < |workers'| ==> workers'[j].state != Panicked {
      forall j | 0 <= j < |workers|
        ensures workers[j].state != Panicked
      {
        if j != k {
          assert workers'[j] == workers[j];
        }
      }
    }
  }

  /** The bookkeeping of a run, with `Solo` while `solo` says the first worker has had the pool to itself. */
  predicate Run(scan: Scan, paths: seq<string>, pool: seq<string>,
                popped: seq<string>, workers: seq<Worker>, taken: seq<seq<string>>, solo: bool)
  {
    Consistent(scan, paths, pool, popped, workers, taken) && (solo ==> Solo(popped, workers, taken))
  }

  // ---------------------------------------------------------------------------
  // The merge

  /** Worker `k` makes one pass; the bookkeeping follows it. */
  method Step(pool: Pool, disk: Disk, pats: seq<string>, workers: seq<Worker>, k: nat,
              ghost paths: seq<string>, ghost popped: seq<string>, ghost taken: seq<seq<string>>, ghost solo: bool)
    returns (workers': seq<Worker>, ghost popped': seq<string>, ghost taken': seq<seq<string>>)
    requires k < |workers| && workers[k].state == Running
    requires Run(Scans(disk, pats), paths, pool.paths, popped, workers, taken, solo)
    requires solo ==> k == 0 || forall j :: 0 <= j < k ==> workers[j].state != Running
    modifies pool
    ensures |workers'| == |workers| && forall j :: 0 <= j < |workers| && j != k ==> workers'[j] == workers[j]
    ensures |pool.paths| < |old(pool.paths)| || (pool.paths == old(pool.paths) && workers'[k].state != Running)
    ensures Run(Scans(disk, pats), paths, pool.paths, popped', workers', taken', solo)
  {
    ghost var scan := Scans(disk, pats);
    ScansNeverEmpty(disk, pats);
    ghost var before := pool.paths;
    var w'; ghost var t';
    w', t' := Work(pool, disk, pats, workers[k], taken[k]);
    StepConsistent(scan, paths, before, popped, workers, taken, k, pool.paths, w', t');
    if solo {
      if k > 0 && forall j :: 0 <= j < |workers| ==> workers[j].state != Panicked {
        assert WorkerOk(scan, workers[0], taken[0], before);
      }
      SoloStep(scan, before, popped, workers, taken, k, pool.paths, w', t');
    }
    popped' := Handed(before, popped);
    workers' := workers[k := w'];
    taken' := taken[k := t'];
  }

  /** None of the first `k` workers is still at work. */
  predicate Stopped(workers: seq<Worker>, k: nat) {
    forall j :: 0 <= j < k && j < |workers| ==> workers[j].state != Running
  }

  /** Worker `k` runs until the pool is empty or one of its scans fails. */
  method Finish(pool: Pool, disk: Disk, pats: seq<string>, workers: seq<Worker>, k: nat,
                ghost paths: seq<string>, ghost popped: seq<string>, ghost taken: seq<seq<string>>, ghost solo: bool)
    returns (workers': seq<Worker>, ghost popped': seq<string>, ghost taken': seq<seq<string>>)
    requires k < |workers| && Stopped(workers, k)
    requires Run(Scans(disk, pats), paths, pool.paths, popped, workers, taken, solo)
    modifies pool
    ensures |workers'| == |workers| && Stopped(workers', k + 1)
    ensures Run(Scans(disk, pats), paths, pool.paths, popped', workers', taken', solo)
  {
    workers', popped', taken' := workers, popped, taken;
    while workers'[k].state == Running
      invariant |workers'| == |workers| && Stopped(workers', k)
      invariant Run(Scans(disk, pats), paths, pool.paths, popped', workers', taken', solo)
      decreases |pool.paths|, if workers'[k].state == Running then 1 else 0
    {
      workers', popped', taken' := Step(pool, disk, pats, workers', k, paths, popped', taken', solo);
    }
  }

  /**
   * `text_files_find_any`: scan every path of `paths` for `contents`, with
   * `cpus` workers whose first steps follow `schedule`. `order` is the
   * order in which the workers' descriptors end up in the result: all of
   * the first worker's files, in the order it took them, then the
   * second's, and so on.
   */
  method TextFilesFindAny(disk: Disk, paths: seq<string>, contents: seq<string>, cpus: nat, schedule: seq<nat>)
    returns (r: Result<Option<seq<string>>, Error>, ghost order: seq<string>)
    requires cpus >= 1
    ensures r.Failure? <==> !AllScan(disk, paths, contents)
    ensures r.Failure? ==> r.error.WorkerPanicked? && r.error.worker < cpus
    ensures r.Success? ==> multiset(order) == multiset(paths) && r.value == Opt(Gathered(disk, order, contents))
    ensures r.Success? ==> multiset(Unwrapped(r.value)) == multiset(Gathered(disk, paths, contents))
    ensures r.Success? && (schedule == [] || cpus == 1) ==> order == Reversed(paths)
  {
    var pool := new Pool(paths);
    var workers := seq(cpus, _ => Worker(None, Running));
    ghost var taken: seq<seq<string>> := seq(cpus, _ => []);
    ghost var popped: seq<string> := [];
    ghost var scan := Scans(disk, contents);
    StartConsistent(scan, paths, cpus);
    ghost var solo := schedule == [] || cpus == 1;

    // The interleaved steps.
    for s := 0 to |schedule|
      invariant |workers| == cpus
      invariant Run(scan, paths, pool.paths, popped, workers, taken, s == 0 || cpus == 1)
    {
      var k := schedule[s] % cpus;
      if workers[k].state == Running {
        workers, popped, taken := Step(pool, disk, contents, workers, k, paths, popped, taken, cpus == 1);
      }
    }

    // Each worker still running runs until the pool is empty or its scan fails.
    for k := 0 to cpus
      invariant |workers| == cpus
      invariant Run(scan, paths, pool.paths, popped, workers, taken, solo)
      invariant Stopped(workers, k)
    {
      workers, popped, taken := Finish(pool, disk, contents, workers, k, paths, popped, taken, solo);
    }
    ghost var left := pool.paths;
    r := Join(workers);
    order := Flatten(taken);
    Concluded(disk, contents, paths, left, popped, workers, taken, solo, r);
  }

  /**
   * What the join's outcome means for the whole call: it fails exactly when
   * some path cannot be scanned, and otherwise holds the lists of all paths,
   * in the order they were handed out, one worker's after the other's.
   */
  lemma Concluded(disk: Disk, contents: seq<string>, paths: seq<string>, pool: seq<string>,
                  popped: seq<string>, workers: seq<Worker>, taken: seq<seq<string>>, solo: bool,
                  r: Result<Option<seq<string>>, Error>)
    requires |workers| >= 1 && Run(Scans(disk, contents), paths, pool, popped, workers, taken, solo)
    requires r.Failure? ==> r.error.WorkerPanicked? && r.error.worker < |workers| &&
                            workers[r.error.worker].state == Panicked
    requires r.Success? ==> (forall k :: 0 <= k < |workers| ==> workers[k].state == Finished) &&
                            r.value == Merged(workers)
    ensures r.Failure? <==> !AllScan(disk, paths, contents)
    ensures r.Success? ==> multiset(Flatten(taken)) == multiset(paths) &&
                           r.value == Opt(Gathered(disk, Flatten(taken), contents))
    ensures r.Success? ==> multiset(Unwrapped(r.value)) == multiset(Gathered(disk, paths, contents))
    ensures r.Success? && solo ==> Flatten(taken) == Reversed(paths)
  {
    var scan := Scans(disk, contents);
    AllScanOk(disk, paths, contents);
    if r.Failure? {
      PanicCause(scan, paths, pool, popped, workers, taken, r.error.worker);
    } else {
      forall k | 0 <= k < |workers|
        ensures workers[k].partial == Opt(Collect(scan, taken[k]))
      {
        assert WorkerOk(scan, workers[k], taken[k], pool);
      }
      MergedCollect(scan, workers, taken);
      AllDone(scan, paths, pool, popped, workers, taken);
      CollectPermutation(scan, Flatten(taken), paths);
      if solo {
        FlattenSolo(taken);
      }
    }
  }

  /** The partial lists of `workers` appended in spawn order; `None` when all are `None`. */
  function Merged(workers: seq<Worker>): Option<seq<string>> {
    if workers == [] then None
    else Absorb(Merged(workers[..|workers| - 1]), workers[|workers| - 1].partial)
  }

  /** The merge is `None` exactly when every worker's partial result is `None`. */
  lemma {:induction false} MergedNone(workers: seq<Worker>)
    ensures Merged(workers).None? <==> forall k :: 0 <= k < |workers| ==> workers[k].partial.None?
    decreases |workers|
  {
    if workers != [] {
      var n := |workers| - 1;
      MergedNone(workers[..n]);
      assert forall k :: 0 <= k < n ==> workers[..n][k] == workers[k];
    }
  }

  /** Merging the finished workers' lists gives the scan of all their paths, in spawn order. */
  lemma {:induction false} MergedCollect(scan: Scan, workers: seq<Worker>, taken: seq<seq<string>>)
    requires |workers| == |taken|
    requires forall k :: 0 <= k < |workers| ==> workers[k].partial == Opt(Collect(scan, taken[k]))
    ensures Merged(workers) == Opt(Collect(scan, Flatten(taken)))
    decreases |workers|
  {
    if workers != [] {
      var n := |workers| - 1;
      MergedCollect(scan, workers[..n], taken[..n]);
      assert taken[..n + 1] == taken;
      FlattenPrefix(taken, n);
      CollectAppend(scan, Flatten(taken[..n]), taken[n]);
      AbsorbOpt(Collect(scan, Flatten(taken[..n])), Collect(scan, taken[n]));
    }
  }

  /**
   * The join, in spawn order: the first worker that failed fails the call;
   * otherwise the partial lists are appended one after the other.
   */
  method Join(workers: seq<Worker>) returns (r: Result<Option<seq<string>>, Error>)
    requires forall k :: 0 <= k < |workers| ==> workers[k].state != Running
    ensures r.Failure? ==> r.error.WorkerPanicked? && r.error.worker < |workers| &&
                           workers[r.error.worker].state == Panicked &&
                           forall j :: 0 <= j < r.error.worker ==> workers[j].state == Finished
    ensures r.Success? ==> (forall k :: 0 <= k < |workers| ==> workers[k].state == Finished) &&
                           r.value == Merged(workers)
  {
    var results: Option<seq<string>> := None;
    for k := 0 to |workers|
      invariant forall j :: 0 <= j < k ==> workers[j].state == Finished
      invariant results == Merged(workers[..k])
    {
      if workers[k].state == Panicked {
        return Failure(WorkerPanicked(k));
      }
      assert workers[..k + 1][..k] == workers[..k];
      results := Absorb(results, workers[k].partial);
    }
    assert workers[..|workers|] == workers;
    r := Success(results);
  }

  /** `text_files_find`: the merge with a single pattern. */
  method TextFilesFind(disk: Disk, paths: seq<string>, content: string, cpus: nat, schedule: seq<nat>)
    returns (r: Result<Option<seq<string>>, Error>, ghost order: seq<string>)
    requires cpus >= 1
    ensures r.Failure? <==> !AllScan(disk, paths, [content])
    ensures r.Success? ==> multiset(order) == multiset(paths) && r.value == Opt(Gathered(disk, order, [content]))
  {
    r, order := TextFilesFindAny(disk, paths, [content], cpus, schedule);
  }
}
