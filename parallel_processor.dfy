/** `ParallelProcessor`: hashing a list of discovered files on executor pools. Files of
    50 MiB or more go to a process pool and the rest to a thread pool; a result is kept
    only when its hash is truthy. The executors are `Completion`'s nondeterministic
    completion order; the per-core activity table is a field of the processor. */
module Parallel {
  import opened Common
  import opened Completion

  /** `large_file_threshold`: 50 MiB. */
  const LargeFileThreshold: int := 50 * 1024 * 1024

  /** `[(f, s, m) for f, s, m in files if s >= threshold]`. */
  function LargeFiles(files: seq<FileTuple>, threshold: int): (r: seq<FileTuple>)
    ensures forall f :: f in r ==> f.size >= threshold
  {
    if files == [] then []
    else
      var f := files[|files| - 1];
      LargeFiles(files[..|files| - 1], threshold) + (if f.size >= threshold then [f] else [])
  }

  /** `[(f, s, m) for f, s, m in files if s < threshold]`. */
  function SmallFiles(files: seq<FileTuple>, threshold: int): (r: seq<FileTuple>)
    ensures forall f :: f in r ==> f.size < threshold
  {
    if files == [] then []
    else
      var f := files[|files| - 1];
      SmallFiles(files[..|files| - 1], threshold) + (if f.size < threshold then [f] else [])
  }

  /** The size split is a partition that keeps the input order on both sides. */
  lemma SplitPartition(files: seq<FileTuple>, threshold: int)
    ensures forall f :: f in LargeFiles(files, threshold) ==> f.size >= threshold && f in files
    ensures forall f :: f in SmallFiles(files, threshold) ==> f.size < threshold && f in files
    ensures multiset(LargeFiles(files, threshold)) + multiset(SmallFiles(files, threshold)) == multiset(files)
    ensures |LargeFiles(files, threshold)| + |SmallFiles(files, threshold)| == |files|
    ensures Subsequence(LargeFiles(files, threshold), files)
    ensures Subsequence(SmallFiles(files, threshold), files)
  {
    SplitMultiset(files, threshold);
    LargeFilesOrder(files, threshold);
    SmallFilesOrder(files, threshold);
    MultisetSplitMembers(LargeFiles(files, threshold), SmallFiles(files, threshold), files);
  }

  /** The two sides of a multiset split hold members of the whole, and their lengths add
      up to its length. */
  lemma MultisetSplitMembers<T>(a: seq<T>, b: seq<T>, c: seq<T>)
    requires multiset(a) + multiset(b) == multiset(c)
    ensures forall x :: x in a ==> x in c
    ensures forall x :: x in b ==> x in c
    ensures |a| + |b| == |c|
  {
    forall x | x in a ensures x in c {
      assert x in multiset(a);
      assert x in multiset(c);
    }
    forall x | x in b ensures x in c {
      assert x in multiset(b);
      assert x in multiset(c);
    }
    assert |multiset(a) + multiset(b)| == |multiset(c)|;
  }

  lemma {:induction false} SplitMultiset(files: seq<FileTuple>, threshold: int)
    ensures multiset(LargeFiles(files, threshold)) + multiset(SmallFiles(files, threshold)) == multiset(files)
  {
    if files != [] {
      var files', f := files[..|files| - 1], files[|files| - 1];
      SplitMultiset(files', threshold);
      assert files == files' + [f];
    }
  }

  lemma {:induction false} LargeFilesOrder(files: seq<FileTuple>, threshold: int)
    ensures Subsequence(LargeFiles(files, threshold), files)
  {
    if files != [] {
      var files', f := files[..|files| - 1], files[|files| - 1];
      LargeFilesOrder(files', threshold);
      var l' := LargeFiles(files', threshold);
      if f.size >= threshold {
        assert (l' + [f])[..|l' + [f]| - 1] == l';
      } else {
        SubsequenceWeaken(l', files', f);
        assert files' + [f] == files;
        assert LargeFiles(files, threshold) == l';
      }
    }
  }

  lemma {:induction false} SmallFilesOrder(files: seq<FileTuple>, threshold: int)
    ensures Subsequence(SmallFiles(files, threshold), files)
  {
    if files != [] {
      var files', f := files[..|files| - 1], files[|files| - 1];
      SmallFilesOrder(files', threshold);
      var s' := SmallFiles(files', threshold);
      if f.size < threshold {
        assert (s' + [f])[..|s' + [f]| - 1] == s';
      } else {
        SubsequenceWeaken(s', files', f);
        assert files' + [f] == files;
        assert SmallFiles(files, threshold) == s';
      }
    }
  }

  /** What one finished hashing task contributes: `(path, hash)` when the hash is truthy,
      nothing when it is None or empty (or the task raised, which the hash functions never
      do: they return None instead). */
  function ResultOf(f: FileTuple, h: HashFunction): seq<(string, string)>
  {
    if Truthy(h(f.path)) then [(f.path, h(f.path).value)] else []
  }

  function Hashed(h: HashFunction): FileTuple -> seq<(string, string)>
  {
    f => ResultOf(f, h)
  }

  /** The results of hashing `files`, in submission order. */
  function HashResults(files: seq<FileTuple>, h: HashFunction): seq<(string, string)>
  {
    if files == [] then [] else HashResults(files[..|files| - 1], h) + ResultOf(files[|files| - 1], h)
  }

  /** The results of hashing `files` when their tasks finish in the order `order`. */
  function Completed(files: seq<FileTuple>, order: seq<nat>, h: HashFunction): seq<(string, string)>
    requires InBounds(order, |files|)
  {
    if order == [] then [] else Completed(files, order[..|order| - 1], h) + ResultOf(files[order[|order| - 1]], h)
  }

  lemma {:induction false} CompletedGather(files: seq<FileTuple>, order: seq<nat>, h: HashFunction)
    requires InBounds(order, |files|)
    ensures Completed(files, order, h) == Gather(files, order, Hashed(h))
  {
    if order != [] {
      CompletedGather(files, order[..|order| - 1], h);
    }
  }

  /** Whatever order the tasks finish in, the loop collects the results of hashing the
      submitted files. */
  lemma CompletedPermutation(files: seq<FileTuple>, order: seq<nat>, h: HashFunction)
    requires IsPermutation(order, |files|)
    ensures InBounds(order, |files|)
    ensures multiset(Completed(files, order, h)) == multiset(HashResults(files, h))
  {
    GatherIsConcat(files, order, Hashed(h));
    CompletedGather(files, order, h);
    HashResultsConcat(files, h);
  }

  /** One task of `pending` finishing: it leaves the pending set, joins the completion
      order and adds its result. */
  lemma CompleteOne<T, R>(files: seq<T>, f: T -> seq<R>, order: seq<nat>, pending: set<nat>, k: nat, n: nat)
    requires k in pending && n <= |files|
    requires multiset(order) + multiset(pending) == multiset(RangeSet(n))
    requires forall j :: j in pending ==> j < n
    requires InBounds(order, |files|)
    ensures multiset(order + [k]) + multiset(pending - {k}) == multiset(RangeSet(n))
    ensures InBounds(order + [k], |files|)
    ensures Gather(files, order + [k], f) == Gather(files, order, f) + f(files[k])
  {
    RemoveFromPending(order, pending, k, RangeSet(n));
    assert (order + [k])[..|order|] == order;
  }

  /** Once nothing is pending every task has finished exactly once. */
  lemma CompleteAll<T, R>(files: seq<T>, f: T -> seq<R>, order: seq<nat>)
    requires multiset(order) == multiset(RangeSet(|files|))
    ensures IsPermutation(order, |files|) && InBounds(order, |files|)
    ensures multiset(Gather(files, order, f)) == multiset(Concat(files, f))
  {
    RangeMultiset(|files|);
    GatherIsConcat(files, order, f);
  }

  /** The results of the loop over `as_completed`, taken in submission order. */
  lemma {:induction false} HashResultsConcat(files: seq<FileTuple>, h: HashFunction)
    ensures Concat(files, Hashed(h)) == HashResults(files, h)
  {
    if files != [] {
      HashResultsConcat(files[..|files| - 1], h);
    }
  }

  /** Exactly the files with a truthy hash give a result, and it carries that hash. */
  lemma {:induction false} HashResultsMembers(files: seq<FileTuple>, h: HashFunction, p: string, v: string)
    ensures (p, v) in HashResults(files, h) <==>
      ((exists i :: 0 <= i < |files| && files[i].path == p) && h(p) == Some(v) && v != "")
  {
    if files != [] {
      var files', f := files[..|files| - 1], files[|files| - 1];
      HashResultsMembers(files', h, p, v);
      if exists i :: 0 <= i < |files'| && files'[i].path == p {
        var i :| 0 <= i < |files'| && files'[i].path == p;
        assert files[i] == files'[i];
      }
      if exists i :: 0 <= i < |files| && files[i].path == p {
        var i :| 0 <= i < |files| && files[i].path == p;
        if i < |files'| {
          assert files'[i] == files[i];
        }
      }
    }
  }

  /** At most one result per file; one per file when every hash is truthy. */
  lemma {:induction false} HashResultsCount(files: seq<FileTuple>, h: HashFunction)
    ensures |HashResults(files, h)| <= |files|
    ensures (forall i :: 0 <= i < |files| ==> Truthy(h(files[i].path))) ==> |HashResults(files, h)| == |files|
  {
    if files != [] {
      HashResultsCount(files[..|files| - 1], h);
    }
  }

  /** Hashing the two halves of the split finds the results of hashing the whole list. */
  lemma {:induction false} SplitHashResults(files: seq<FileTuple>, threshold: int, h: HashFunction)
    ensures multiset(HashResults(LargeFiles(files, threshold), h)) + multiset(HashResults(SmallFiles(files, threshold), h))
         == multiset(HashResults(files, h))
  {
    if files != [] {
      SplitHashResults(files[..|files| - 1], threshold, h);
      SplitHashResultsStep(files, threshold, h);
    }
  }

  lemma SplitHashResultsStep(files: seq<FileTuple>, threshold: int, h: HashFunction)
    requires files != []
    requires var files' := files[..|files| - 1];
      multiset(HashResults(LargeFiles(files', threshold), h)) + multiset(HashResults(SmallFiles(files', threshold), h))
      == multiset(HashResults(files', h))
    ensures multiset(HashResults(LargeFiles(files, threshold), h)) + multiset(HashResults(SmallFiles(files, threshold), h))
         == multiset(HashResults(files, h))
  {
    var files', f := files[..|files| - 1], files[|files| - 1];
    var l', s' := LargeFiles(files', threshold), SmallFiles(files', threshold);
    var a, b, r := HashResults(l', h), HashResults(s', h), ResultOf(f, h);
    assert HashResults(files, h) == HashResults(files', h) + r;
    if f.size >= threshold {
      assert HashResults(LargeFiles(files, threshold), h) == a + r by {
        assert LargeFiles(files, threshold) == l' + [f];
        HashResultsSnoc(l', f, h);
      }
      assert HashResults(SmallFiles(files, threshold), h) == b by {
        assert SmallFiles(files, threshold) == s';
      }
    } else {
      assert HashResults(LargeFiles(files, threshold), h) == a by {
        assert LargeFiles(files, threshold) == l';
      }
      assert HashResults(SmallFiles(files, threshold), h) == b + r by {
        assert SmallFiles(files, threshold) == s' + [f];
        HashResultsSnoc(s', f, h);
      }
    }
    MultisetSnoc(a, b, HashResults(files', h), r);
  }

  lemma MultisetSnoc<T>(a: seq<T>, b: seq<T>, c: seq<T>, r: seq<T>)
    requires multiset(a) + multiset(b) == multiset(c)
    ensures multiset(a + r) + multiset(b) == multiset(c + r)
    ensures multiset(a) + multiset(b + r) == multiset(c + r)
  {
  }

  lemma HashResultsSnoc(files: seq<FileTuple>, f: FileTuple, h: HashFunction)
    ensures HashResults(files + [f], h) == HashResults(files, h) + ResultOf(f, h)
  {
    assert (files + [f])[..|files|] == files;
  }

  lemma {:induction false} TicksAppend(base: nat, a: nat, b: nat)
    ensures Ticks(base, a) + Ticks(base + a, b) == Ticks(base, a + b)
  {
    if b > 0 {
      TicksAppend(base, a, b - 1);
    }
  }

  /** Two phases that report `1 .. a` and then `a + 1 .. a + b` report `1 .. n`. */
  lemma TicksJoin(p: seq<nat>, q: seq<nat>, a: nat, b: nat, n: nat)
    requires p == Ticks(0, a) && q == Ticks(a, b) && a + b == n
    ensures p + q == Ticks(0, n)
  {
    TicksAppend(0, a, b);
  }

  // ---------------------------------------------------------------------------------
  // Core activity

  datatype CoreStatus = Idle | HashingLarge | HashingSmall

  /** One value of `core_activity`: `{"status": ..., "file": ...}`. */
  datatype Activity = Activity(status: CoreStatus, file: Option<string>)

  const IdleActivity: Activity := Activity(Idle, None)

  /** The table after cores `0 .. n - 1` are marked idle, the other entries kept. */
  function IdleOn(m: map<nat, Activity>, n: nat): (r: map<nat, Activity>)
    ensures forall c: nat :: c in r <==> c in m || c < n
    ensures forall c :: c in r ==> r[c] == if c < n then IdleActivity else m[c]
  {
    map c | c in m.Keys + RangeSet(n) :: if c < n then IdleActivity else m[c]
  }

  /** The table while the tasks of cores `0 .. n - 1` that are in `pending` still run:
      the cores that finished are idle, the other entries kept. */
  function IdleExcept(m: map<nat, Activity>, n: nat, pending: set<nat>): (r: map<nat, Activity>)
    ensures r.Keys == m.Keys
  {
    map c | c in m.Keys :: if c < n && c !in pending then IdleActivity else m[c]
  }

  lemma IdleExceptStart(m: map<nat, Activity>, n: nat)
    ensures IdleExcept(m, n, RangeSet(n)) == m
  {
  }

  lemma IdleExceptStep(m: map<nat, Activity>, n: nat, pending: set<nat>, k: nat)
    requires k in m && k < n
    ensures IdleExcept(m, n, pending)[k := IdleActivity] == IdleExcept(m, n, pending - {k})
  {
  }

  lemma IdleExceptDone(m: map<nat, Activity>, n: nat)
    requires forall c: nat :: c < n ==> c in m
    ensures IdleExcept(m, n, {}) == IdleOn(m, n)
  {
  }

  lemma IdleOnTwice(m: map<nat, Activity>, a: nat, b: nat)
    ensures IdleOn(IdleOn(m, a), b) == IdleOn(m, Max(a, b))
  {
  }

  /** Marking cores `0 .. n - 1` idle erases whatever they showed before. */
  lemma IdleOnOverwrites(a: map<nat, Activity>, b: map<nat, Activity>, n: nat)
    requires forall c: nat :: c in a <==> c in b || c < n
    requires forall c :: c in a && c >= n ==> a[c] == b[c]
    ensures IdleOn(a, n) == IdleOn(b, n)
  {
  }

  lemma IdleOnZero(m: map<nat, Activity>)
    ensures IdleOn(m, 0) == m
  {
  }

  /** After the reset of `maxCores` cores, a large phase that used `k` cores and a small
      phase that used `s <= maxCores` cores, cores `0 .. max(maxCores, k) - 1` are idle. */
  lemma TableAfterPhases(start: map<nat, Activity>, maxCores: nat, k: nat, s: nat)
    requires s <= maxCores
    ensures IdleOn(IdleOn(IdleOn(start, maxCores), k), s) == IdleOn(start, Max(maxCores, k))
  {
    IdleOnTwice(start, maxCores, k);
    IdleOnTwice(start, Max(maxCores, k), s);
    assert Max(Max(maxCores, k), s) == Max(maxCores, k);
  }

  lemma IdleOnStep(m: map<nat, Activity>, n: nat)
    ensures IdleOn(m, n)[n := IdleActivity] == IdleOn(m, n + 1)
  {
  }

  /** The table holds the cores of `start` and cores `0 .. used - 1`. */
  ghost predicate SlotKeys(m: map<nat, Activity>, start: map<nat, Activity>, used: nat)
  {
    forall c: nat :: c in m <==> c in start || c < used
  }

  /** Cores from `used` on show what they showed in `start`. */
  ghost predicate OthersKept(m: map<nat, Activity>, start: map<nat, Activity>, used: nat)
  {
    forall c | c in m && c >= used :: c in start && m[c] == start[c]
  }

  /** Each of the cores `0 .. used - 1` is idle or shows the file `owner` gives it, which is
      still in flight and was given to that core. */
  ghost predicate ShowsInFlight(m: map<nat, Activity>, fs: seq<FileTuple>, cores: nat, status: CoreStatus,
                                used: nat, inFlight: set<nat>, owner: map<nat, nat>)
    requires cores >= 1
  {
    forall c | c in m && c < used ::
      m[c] == IdleActivity
      || (c in owner && owner[c] in inFlight && owner[c] < |fs| && owner[c] % cores == c
          && m[c] == Activity(status, Some(fs[owner[c]].path)))
  }

  /** How the window loop leaves the table after `n` submissions while `inFlight` is
      running: the cores used so far (`min(cores, n)` of them) are idle or show a file in
      flight on them, and the entries of other cores are those of `start`. */
  ghost predicate SlotsConsistent(m: map<nat, Activity>, start: map<nat, Activity>, fs: seq<FileTuple>,
                                  cores: nat, status: CoreStatus, n: nat, inFlight: set<nat>, owner: map<nat, nat>)
  {
    && cores >= 1
    && SlotKeys(m, start, Min(cores, n))
    && OthersKept(m, start, Min(cores, n))
    && ShowsInFlight(m, fs, cores, status, Min(cores, n), inFlight, owner)
  }

  lemma SlotsStart(start: map<nat, Activity>, fs: seq<FileTuple>, cores: nat, status: CoreStatus)
    requires cores >= 1
    ensures SlotsConsistent(start, start, fs, cores, status, 0, {}, map[])
  {
    assert Min(cores, 0) == 0;
  }

  lemma SlotsSubmit(m: map<nat, Activity>, start: map<nat, Activity>, fs: seq<FileTuple>,
                    cores: nat, status: CoreStatus, n: nat, inFlight: set<nat>, owner: map<nat, nat>)
    requires SlotsConsistent(m, start, fs, cores, status, n, inFlight, owner) && n < |fs|
    ensures SlotsConsistent(m[n % cores := Activity(status, Some(fs[n].path))], start, fs, cores, status,
                            n + 1, inFlight + {n}, owner[n % cores := n])
  {
    var c0, v := n % cores, Activity(status, Some(fs[n].path));
    var u, u' := Min(cores, n), Min(cores, n + 1);
    RangeSetMin(cores, n);
    KeysSubmit(m, start, u, u', c0, v);
    OthersSubmit(m, start, u, u', c0, v);
    ShowsSubmit(m, fs, cores, status, u, u', inFlight, owner, n);
  }

  lemma KeysSubmit(m: map<nat, Activity>, start: map<nat, Activity>, u: nat, u': nat, c0: nat, v: Activity)
    requires SlotKeys(m, start, u)
    requires c0 < u' && (u' == u || (u' == u + 1 && c0 == u))
    ensures SlotKeys(m[c0 := v], start, u')
  {
  }

  lemma OthersSubmit(m: map<nat, Activity>, start: map<nat, Activity>, u: nat, u': nat, c0: nat, v: Activity)
    requires OthersKept(m, start, u)
    requires c0 < u' && u <= u'
    ensures OthersKept(m[c0 := v], start, u')
  {
  }

  lemma ShowsSubmit(m: map<nat, Activity>, fs: seq<FileTuple>, cores: nat, status: CoreStatus, u: nat, u': nat,
                    inFlight: set<nat>, owner: map<nat, nat>, n: nat)
    requires cores >= 1 && n < |fs|
    requires ShowsInFlight(m, fs, cores, status, u, inFlight, owner)
    requires n % cores < u' && (u' == u || (u' == u + 1 && n % cores == u))
    ensures ShowsInFlight(m[n % cores := Activity(status, Some(fs[n].path))], fs, cores, status, u',
                          inFlight + {n}, owner[n % cores := n])
  {
    var c0 := n % cores;
    var m', owner' := m[c0 := Activity(status, Some(fs[n].path))], owner[c0 := n];
    forall c | c in m' && c < u'
      ensures m'[c] == IdleActivity
        || (c in owner' && owner'[c] in inFlight + {n} && owner'[c] < |fs| && owner'[c] % cores == c
            && m'[c] == Activity(status, Some(fs[owner'[c]].path)))
    {
      if c != c0 {
        assert c < u;
      }
    }
  }

  /** The cores in use grow by the one the new file goes to (already in use after the first
      `cores` files). */
  lemma RangeSetMin(cores: nat, n: nat)
    requires cores >= 1
    ensures n % cores < Min(cores, n + 1) && Min(cores, n) <= Min(cores, n + 1)
    ensures Min(cores, n + 1) == Min(cores, n)
         || (Min(cores, n + 1) == Min(cores, n) + 1 && n % cores == Min(cores, n))
  {
    if n < cores {
      assert n % cores == n;
    } else {
      assert n % cores < cores;
    }
  }

  lemma SlotsComplete(m: map<nat, Activity>, start: map<nat, Activity>, fs: seq<FileTuple>,
                      cores: nat, status: CoreStatus, n: nat, inFlight: set<nat>, owner: map<nat, nat>, k: nat)
    requires SlotsConsistent(m, start, fs, cores, status, n, inFlight, owner)
    requires k in inFlight && k < n
    ensures SlotsConsistent(m[k % cores := IdleActivity], start, fs, cores, status, n, inFlight - {k}, owner)
  {
    var u := Min(cores, n);
    assert k % cores < u;
    KeysSubmit(m, start, u, u, k % cores, IdleActivity);
    OthersSubmit(m, start, u, u, k % cores, IdleActivity);
    ShowsComplete(m, fs, cores, status, u, inFlight, owner, k);
  }

  lemma ShowsComplete(m: map<nat, Activity>, fs: seq<FileTuple>, cores: nat, status: CoreStatus, u: nat,
                      inFlight: set<nat>, owner: map<nat, nat>, k: nat)
    requires cores >= 1
    requires ShowsInFlight(m, fs, cores, status, u, inFlight, owner)
    ensures ShowsInFlight(m[k % cores := IdleActivity], fs, cores, status, u, inFlight - {k}, owner)
  {
  }

  lemma SlotsDone(m: map<nat, Activity>, start: map<nat, Activity>, fs: seq<FileTuple>,
                  cores: nat, status: CoreStatus, owner: map<nat, nat>)
    requires SlotsConsistent(m, start, fs, cores, status, |fs|, {}, owner)
    ensures m == IdleOn(start, Min(cores, |fs|))
  {
  }

  lemma AddToPending(order: seq<nat>, inFlight: set<nat>, n: nat)
    requires multiset(order) + multiset(inFlight) == multiset(RangeSet(n))
    requires n !in inFlight
    ensures multiset(order) + multiset(inFlight + {n}) == multiset(RangeSet(n + 1))
  {
    assert multiset(inFlight + {n}) == multiset(inFlight) + multiset{n};
    assert RangeSet(n + 1) == RangeSet(n) + {n};
    assert n !in RangeSet(n);
    assert multiset(RangeSet(n + 1)) == multiset(RangeSet(n)) + multiset{n};
  }

  /** Everything the window loop keeps while `fileIndex` files have been submitted, those
      in `inFlight` still run and those in `order` have finished, in that order. */
  ghost predicate WindowState(m: map<nat, Activity>, start: map<nat, Activity>, fs: seq<FileTuple>, cores: nat,
                        status: CoreStatus, fileIndex: nat, inFlight: set<nat>, order: seq<nat>,
                        owner: map<nat, nat>)
  {
    && fileIndex <= |fs| && |inFlight| <= cores
    && (forall k :: k in inFlight ==> k < fileIndex)
    && multiset(order) + multiset(inFlight) == multiset(RangeSet(fileIndex))
    && |order| + |inFlight| == fileIndex
    && InBounds(order, |fs|)
    && SlotsConsistent(m, start, fs, cores, status, fileIndex, inFlight, owner)
  }

  /** Submitting the next file while there is capacity. */
  lemma SubmitOne(m: map<nat, Activity>, start: map<nat, Activity>, fs: seq<FileTuple>, cores: nat,
                  status: CoreStatus, fileIndex: nat, inFlight: set<nat>, order: seq<nat>, owner: map<nat, nat>)
    requires WindowState(m, start, fs, cores, status, fileIndex, inFlight, order, owner)
    requires |inFlight| < cores && fileIndex < |fs|
    ensures fileIndex !in inFlight && |inFlight + {fileIndex}| == |inFlight| + 1
    ensures WindowState(m[fileIndex % cores := Activity(status, Some(fs[fileIndex].path))], start, fs, cores,
                        status, fileIndex + 1, inFlight + {fileIndex}, order, owner[fileIndex % cores := fileIndex])
  {
    SlotsSubmit(m, start, fs, cores, status, fileIndex, inFlight, owner);
    AddToPending(order, inFlight, fileIndex);
  }

  /** Handling one finished task of the window. */
  lemma FinishOne(m: map<nat, Activity>, start: map<nat, Activity>, fs: seq<FileTuple>, cores: nat,
                  status: CoreStatus, fileIndex: nat, inFlight: set<nat>, order: seq<nat>, owner: map<nat, nat>,
                  k: nat, f: FileTuple -> seq<(string, string)>)
    requires WindowState(m, start, fs, cores, status, fileIndex, inFlight, order, owner)
    requires k in inFlight
    ensures k < |fs| && |inFlight - {k}| == |inFlight| - 1
    ensures WindowState(m[k % cores := IdleActivity], start, fs, cores, status, fileIndex, inFlight - {k},
                        order + [k], owner)
    ensures Gather(fs, order + [k], f) == Gather(fs, order, f) + f(fs[k])
  {
    SlotsComplete(m, start, fs, cores, status, fileIndex, inFlight, owner, k);
    CompleteOne(fs, f, order, inFlight, k, fileIndex);
  }

  /** `min(4, max(2, max_cores // 2))`: the process pool of the tracked large phase. */
  function LargeCores(maxCores: nat): (n: nat)
    ensures 2 <= n <= 4
    ensures maxCores <= 5 ==> n == 2
    ensures maxCores >= 8 ==> n == 4
  {
    Min(4, Max(2, maxCores / 2))
  }

  /** The large files the tracked phase submits as written: the first `large_cores`. */
  function SubmittedAsWritten(large: seq<FileTuple>, maxCores: nat): (s: seq<FileTuple>)
    ensures |s| == Min(LargeCores(maxCores), |large|)
  {
    large[..Min(LargeCores(maxCores), |large|)]
  }

  class ParallelProcessor {
    const maxWorkers: nat
    const largeFileThreshold: int
    var coreActivity: map<nat, Activity>

    constructor(maxWorkers: nat)
      ensures this.maxWorkers == maxWorkers && largeFileThreshold == LargeFileThreshold
      ensures coreActivity == map[]
    {
      this.maxWorkers := maxWorkers;
      largeFileThreshold := LargeFileThreshold;
      coreActivity := map[];
    }

    /** `process_files_parallel`: large files first, each pool's results in the order its
        tasks finish. Returns the results, the `processed` values reported and the two
        completion orders. */
    method ProcessFilesParallel(files: seq<FileTuple>, h: HashFunction)
      returns (results: seq<(string, string)>, progress: seq<nat>,
               ghost largeOrder: seq<nat>, ghost smallOrder: seq<nat>)
      requires maxWorkers >= 1
      ensures IsPermutation(largeOrder, |LargeFiles(files, largeFileThreshold)|)
      ensures IsPermutation(smallOrder, |SmallFiles(files, largeFileThreshold)|)
      ensures InBounds(largeOrder, |LargeFiles(files, largeFileThreshold)|)
      ensures InBounds(smallOrder, |SmallFiles(files, largeFileThreshold)|)
      ensures results == Completed(LargeFiles(files, largeFileThreshold), largeOrder, h)
                       + Completed(SmallFiles(files, largeFileThreshold), smallOrder, h)
      ensures multiset(results) == multiset(HashResults(files, h))
      ensures progress == Ticks(0, |files|)
    {
      var largeFiles := LargeFiles(files, largeFileThreshold);
      var smallFiles := SmallFiles(files, largeFileThreshold);
      SplitPartition(files, largeFileThreshold);
      var largeResults, largeProgress, smallResults, smallProgress;
      largeResults, largeProgress, largeOrder := AsCompleted(largeFiles, Hashed(h), 0);
      smallResults, smallProgress, smallOrder := AsCompleted(smallFiles, Hashed(h), |largeFiles|);
      CompletedGather(largeFiles, largeOrder, h);
      CompletedGather(smallFiles, smallOrder, h);
      results := largeResults + smallResults;
      progress := largeProgress + smallProgress;
      TicksJoin(largeProgress, smallProgress, |largeFiles|, |smallFiles|, |files|);
      SplitHashResults(files, largeFileThreshold, h);
      HashResultsConcat(largeFiles, h);
      HashResultsConcat(smallFiles, h);
    }

    /** The initialisation loop of `process_files_with_core_tracking`. */
    method ResetCores(maxCores: nat)
      modifies this
      ensures coreActivity == IdleOn(old(coreActivity), maxCores)
    {
      ghost var start := coreActivity;
      var i := 0;
      assert IdleOn(start, 0) == start;
      while i < maxCores
        invariant 0 <= i <= maxCores
        invariant coreActivity == IdleOn(start, i)
      {
        IdleOnStep(start, i);
        coreActivity := coreActivity[i := IdleActivity];
        i := i + 1;
      }
    }

    /** The bounded in-flight window of the small phase: at most `cores` files are
        submitted and not yet handled; after every round of submissions at least one
        running task finishes. File `k` runs on core `k % cores`; `handle` is what handling
        a finished task adds to the results. */
    method RunWindow(fs: seq<FileTuple>, cores: nat, status: CoreStatus,
                     handle: FileTuple -> seq<(string, string)>, base: nat)
      returns (results: seq<(string, string)>, progress: seq<nat>, ghost order: seq<nat>)
      requires cores >= 1
      modifies this
      ensures IsPermutation(order, |fs|) && InBounds(order, |fs|)
      ensures results == Gather(fs, order, handle)
      ensures multiset(results) == multiset(Concat(fs, handle))
      ensures progress == Ticks(base, |fs|)
      ensures coreActivity == IdleOn(old(coreActivity), Min(cores, |fs|))
    {
      ghost var start := coreActivity;
      var inFlight: set<nat> := {};
      var fileIndex := 0;
      var processed := base;
      results, progress, order := [], [], [];
      ghost var owner: map<nat, nat> := map[];
      SlotsStart(start, fs, cores, status);
      assert WindowState(coreActivity, start, fs, cores, status, 0, {}, [], owner);
      while fileIndex < |fs| || inFlight != {}
        invariant WindowState(coreActivity, start, fs, cores, status, fileIndex, inFlight, order, owner)
        invariant results == Gather(fs, order, handle)
        invariant processed == base + |order| && progress == Ticks(base, |order|)
        decreases 2 * (|fs| - fileIndex) + |inFlight|
      {
        ghost var inFlight0 := inFlight;
        var fileIndex0 := fileIndex;
        fileIndex, inFlight, owner := SubmitRound(fs, cores, status, start, fileIndex, inFlight, order, owner);
        assert |inFlight| > 0 by {
          if inFlight0 != {} {
            var k :| k in inFlight0;
            assert k in inFlight;
          }
        }
        assert inFlight <= inFlight;
        var done: set<nat> :| done <= inFlight && done != {};
        inFlight, results, progress, processed, order :=
          FinishBatch(fs, cores, status, handle, base, start, fileIndex, inFlight, done,
                      results, progress, processed, order, owner);
      }
      SlotsDone(coreActivity, start, fs, cores, status, owner);
      assert multiset(inFlight) == multiset{};
      CompleteAll(fs, handle, order);
    }

    /** The inner submission loop of the window: submits files while fewer than `cores`
        are in flight and files remain. */
    method SubmitRound(fs: seq<FileTuple>, cores: nat, status: CoreStatus, ghost start: map<nat, Activity>,
                       fileIndex0: nat, inFlight0: set<nat>, ghost order: seq<nat>, ghost owner0: map<nat, nat>)
      returns (fileIndex: nat, inFlight: set<nat>, ghost owner: map<nat, nat>)
      requires WindowState(coreActivity, start, fs, cores, status, fileIndex0, inFlight0, order, owner0)
      modifies this
      ensures WindowState(coreActivity, start, fs, cores, status, fileIndex, inFlight, order, owner)
      ensures fileIndex0 <= fileIndex && inFlight0 <= inFlight
      ensures |inFlight| - |inFlight0| == fileIndex - fileIndex0
      ensures |inFlight| == cores || fileIndex == |fs|
    {
      fileIndex, inFlight, owner := fileIndex0, inFlight0, owner0;
      while |inFlight| < cores && fileIndex < |fs|
        invariant WindowState(coreActivity, start, fs, cores, status, fileIndex, inFlight, order, owner)
        invariant fileIndex0 <= fileIndex && inFlight0 <= inFlight
        invariant |inFlight| - |inFlight0| == fileIndex - fileIndex0
      {
        SubmitOne(coreActivity, start, fs, cores, status, fileIndex, inFlight, order, owner);
        owner := owner[fileIndex % cores := fileIndex];
        coreActivity := coreActivity[fileIndex % cores := Activity(status, Some(fs[fileIndex].path))];
        inFlight := inFlight + {fileIndex};
        fileIndex := fileIndex + 1;
      }
    }

    /** Handles the finished tasks `done` of the window, one by one. */
    method FinishBatch(fs: seq<FileTuple>, cores: nat, status: CoreStatus,
                       handle: FileTuple -> seq<(string, string)>, base: nat, ghost start: map<nat, Activity>,
                       fileIndex: nat, inFlight0: set<nat>, done0: set<nat>,
                       results0: seq<(string, string)>, progress0: seq<nat>, processed0: nat,
                       ghost order0: seq<nat>, ghost owner: map<nat, nat>)
      returns (inFlight: set<nat>, results: seq<(string, string)>, progress: seq<nat>, processed: nat,
               ghost order: seq<nat>)
      requires done0 <= inFlight0
      requires WindowState(coreActivity, start, fs, cores, status, fileIndex, inFlight0, order0, owner)
      requires results0 == Gather(fs, order0, handle)
      requires processed0 == base + |order0| && progress0 == Ticks(base, |order0|)
      modifies this
      ensures WindowState(coreActivity, start, fs, cores, status, fileIndex, inFlight, order, owner)
      ensures inFlight <= inFlight0 && |inFlight| == |inFlight0| - |done0|
      ensures results == Gather(fs, order, handle)
      ensures processed == base + |order| && progress == Ticks(base, |order|)
    {
      var done := done0;
      inFlight, results, progress, processed, order := inFlight0, results0, progress0, processed0, order0;
      while done != {}
        invariant done <= inFlight && inFlight <= inFlight0
        invariant |inFlight| - |done| == |inFlight0| - |done0|
        invariant WindowState(coreActivity, start, fs, cores, status, fileIndex, inFlight, order, owner)
        invariant results == Gather(fs, order, handle)
        invariant processed == base + |order| && progress == Ticks(base, |order|)
        decreases |done|
      {
        var k :| k in done;
        assert |done - {k}| == |done| - 1;
        inFlight, results, progress, processed, order :=
          FinishTask(fs, cores, status, handle, base, start, fileIndex, inFlight, results, progress, processed,
                     order, owner, k);
        done := done - {k};
      }
    }

    /** One pass of the loop over the finished futures: the result of task `k` is added,
        the progress callback receives the new count and core `k % cores` goes idle. */
    method FinishTask(fs: seq<FileTuple>, cores: nat, status: CoreStatus,
                      handle: FileTuple -> seq<(string, string)>, base: nat, ghost start: map<nat, Activity>,
                      fileIndex: nat, inFlight0: set<nat>,
                      results0: seq<(string, string)>, progress0: seq<nat>, processed0: nat,
                      ghost order0: seq<nat>, ghost owner: map<nat, nat>, k: nat)
      returns (inFlight: set<nat>, results: seq<(string, string)>, progress: seq<nat>, processed: nat,
               ghost order: seq<nat>)
      requires k in inFlight0
      requires WindowState(coreActivity, start, fs, cores, status, fileIndex, inFlight0, order0, owner)
      requires results0 == Gather(fs, order0, handle)
      requires processed0 == base + |order0| && progress0 == Ticks(base, |order0|)
      modifies this
      ensures WindowState(coreActivity, start, fs, cores, status, fileIndex, inFlight, order, owner)
      ensures inFlight == inFlight0 - {k} && |inFlight| == |inFlight0| - 1
      ensures results == Gather(fs, order, handle)
      ensures processed == base + |order| && progress == Ticks(base, |order|)
    {
      FinishOne(coreActivity, start, fs, cores, status, fileIndex, inFlight0, order0, owner, k, handle);
      TicksNext(base, |order0|);
      results := results0 + handle(fs[k]);
      order := order0 + [k];
      inFlight := inFlight0 - {k};
      coreActivity := coreActivity[k % cores := IdleActivity];
      processed := processed0 + 1;
      progress := progress0 + [processed];
    }

    /** The large phase of `process_files_with_core_tracking` as written: of the files
        enumerated, one is submitted only while fewer than `cores` have been, so exactly
        the first `cores` files are. Returns the files submitted. */
    method SubmitLargeAsWritten(large: seq<FileTuple>, cores: nat) returns (submitted: seq<FileTuple>)
      requires cores >= 1
      modifies this
      ensures submitted == large[..Min(cores, |large|)]
      ensures forall c: nat :: c in coreActivity <==> c in old(coreActivity) || c < |submitted|
      ensures forall c :: c in coreActivity ==>
        coreActivity[c] == if c < |submitted| then Activity(HashingLarge, Some(submitted[c].path)) else old(coreActivity)[c]
    {
      ghost var start := coreActivity;
      submitted := [];
      var i := 0;
      while i < |large|
        invariant 0 <= i <= |large|
        invariant submitted == large[..Min(cores, i)]
        invariant forall c: nat :: c in coreActivity <==> c in start || c < |submitted|
        invariant forall c :: c in coreActivity ==>
          coreActivity[c] == if c < |submitted| then Activity(HashingLarge, Some(submitted[c].path)) else start[c]
      {
        if |submitted| < cores {
          assert i < cores && i % cores == i;
          coreActivity := coreActivity[i % cores := Activity(HashingLarge, Some(large[i].path))];
          submitted := submitted + [large[i]];
          assert large[..Min(cores, i + 1)] == large[..Min(cores, i)] + [large[i]];
        }
        i := i + 1;
      }
    }

    /** The completion loop of the large phase as written: task `k` ran on core `k`. */
    method CompleteLarge(submitted: seq<FileTuple>, handle: FileTuple -> seq<(string, string)>, base: nat)
      returns (results: seq<(string, string)>, progress: seq<nat>, ghost order: seq<nat>)
      requires forall c: nat :: c < |submitted| ==> c in coreActivity
      modifies this
      ensures IsPermutation(order, |submitted|) && InBounds(order, |submitted|)
      ensures results == Gather(submitted, order, handle)
      ensures multiset(results) == multiset(Concat(submitted, handle))
      ensures progress == Ticks(base, |submitted|)
      ensures coreActivity == IdleOn(old(coreActivity), |submitted|)
    {
      ghost var start := coreActivity;
      var pending: set<nat> := RangeSet(|submitted|);
      results, progress, order := [], [], [];
      var processed := base;
      assert multiset(order) + multiset(pending) == multiset(RangeSet(|submitted|));
      IdleExceptStart(start, |submitted|);
      while pending != {}
        invariant multiset(order) + multiset(pending) == multiset(RangeSet(|submitted|))
        invariant forall k :: k in pending ==> k < |submitted|
        invariant InBounds(order, |submitted|)
        invariant results == Gather(submitted, order, handle)
        invariant processed == base + |order| && progress == Ticks(base, |order|)
        invariant coreActivity == IdleExcept(start, |submitted|, pending)
        decreases |pending|
      {
        var k :| k in pending;
        CompleteOne(submitted, handle, order, pending, k, |submitted|);
        IdleExceptStep(start, |submitted|, pending, k);
        results := results + handle(submitted[k]);
        order := order + [k];
        pending := pending - {k};
        coreActivity := coreActivity[k := IdleActivity];
        processed := processed + 1;
        progress := progress + [processed];
      }
      assert multiset(pending) == multiset{};
      IdleExceptDone(start, |submitted|);
      CompleteAll(submitted, handle, order);
    }

    /** The large phase of `process_files_with_core_tracking` as written (the block under
        `if large_files:`): submission, then the completion loop. */
    method LargePhaseAsWritten(large: seq<FileTuple>, h: HashFunction, maxCores: nat)
      returns (results: seq<(string, string)>, progress: seq<nat>, submitted: seq<FileTuple>,
               ghost order: seq<nat>)
      modifies this
      ensures submitted == SubmittedAsWritten(large, maxCores)
      ensures IsPermutation(order, |submitted|) && InBounds(order, |submitted|)
      ensures results == Completed(submitted, order, h)
      ensures multiset(results) == multiset(HashResults(submitted, h))
      ensures progress == Ticks(0, |submitted|)
      ensures coreActivity == IdleOn(old(coreActivity), |submitted|)
    {
      ghost var start := coreActivity;
      if large == [] {
        results, progress, submitted, order := [], [], [], [];
        RangeMultiset(0);
        IdleOnZero(start);
      } else {
        var largeCores := LargeCores(maxCores);
        submitted := SubmitLargeAsWritten(large, largeCores);
        ghost var afterSubmit := coreActivity;
        results, progress, order := CompleteLarge(submitted, Hashed(h), 0);
        IdleOnOverwrites(afterSubmit, start, |submitted|);
        CompletedGather(submitted, order, h);
        HashResultsConcat(submitted, h);
      }
    }

    /** The large phase with every large file hashed: the same bounded window as the
        small phase, on `large_cores` cores. */
    method LargePhase(large: seq<FileTuple>, h: HashFunction, maxCores: nat)
      returns (results: seq<(string, string)>, progress: seq<nat>, ghost order: seq<nat>)
      modifies this
      ensures IsPermutation(order, |large|) && InBounds(order, |large|)
      ensures results == Completed(large, order, h)
      ensures multiset(results) == multiset(HashResults(large, h))
      ensures progress == Ticks(0, |large|)
      ensures coreActivity == IdleOn(old(coreActivity), Min(LargeCores(maxCores), |large|))
    {
      if large == [] {
        results, progress, order := [], [], [];
        RangeMultiset(0);
        IdleOnZero(coreActivity);
      } else {
        results, progress, order := RunWindow(large, LargeCores(maxCores), HashingLarge, Hashed(h), 0);
        CompletedGather(large, order, h);
        HashResultsConcat(large, h);
      }
    }

    /** The small phase of `process_files_with_core_tracking` (the block under
        `if small_files:`), after `base` large files were handled. */
    method SmallPhase(small: seq<FileTuple>, h: HashFunction, maxCores: nat, base: nat)
      returns (results: seq<(string, string)>, progress: seq<nat>, ghost order: seq<nat>)
      requires maxWorkers >= 1 && maxCores >= 1
      modifies this
      ensures IsPermutation(order, |small|) && InBounds(order, |small|)
      ensures results == Completed(small, order, h)
      ensures multiset(results) == multiset(HashResults(small, h))
      ensures progress == Ticks(base, |small|)
      ensures coreActivity == IdleOn(old(coreActivity), Min(Min(maxWorkers, maxCores), |small|))
    {
      if small == [] {
        results, progress, order := [], [], [];
        RangeMultiset(0);
        IdleOnZero(coreActivity);
      } else {
        var smallCores := Min(maxWorkers, maxCores);
        results, progress, order := RunWindow(small, smallCores, HashingSmall, Hashed(h), base);
        CompletedGather(small, order, h);
        HashResultsConcat(small, h);
      }
    }

    /** `process_files_with_core_tracking` as written. Only the first `large_cores` large
        files are hashed (see `LargePhaseDropsFiles`). */
    method ProcessFilesWithCoreTrackingAsWritten(files: seq<FileTuple>, h: HashFunction, cpuCount: nat)
      returns (results: seq<(string, string)>, progress: seq<nat>,
               ghost largeOrder: seq<nat>, ghost smallOrder: seq<nat>)
      requires maxWorkers >= 1 && cpuCount >= 1
      modifies this
      ensures var maxCores := Min(maxWorkers, cpuCount);
        var large := LargeFiles(files, largeFileThreshold);
        var small := SmallFiles(files, largeFileThreshold);
        var submitted := SubmittedAsWritten(large, maxCores);
        && IsPermutation(largeOrder, |submitted|) && InBounds(largeOrder, |submitted|)
        && IsPermutation(smallOrder, |small|) && InBounds(smallOrder, |small|)
        && results == Completed(submitted, largeOrder, h) + Completed(small, smallOrder, h)
        && multiset(results) == multiset(HashResults(submitted, h)) + multiset(HashResults(small, h))
        && progress == Ticks(0, |submitted|) + Ticks(|submitted|, |small|)
        && coreActivity == IdleOn(old(coreActivity), Max(maxCores, |submitted|))
    {
      var maxCores := Min(maxWorkers, cpuCount);
      var large := LargeFiles(files, largeFileThreshold);
      var small := SmallFiles(files, largeFileThreshold);
      ghost var start := coreActivity;
      ResetCores(maxCores);
      var largeResults, largeProgress, submitted;
      largeResults, largeProgress, submitted, largeOrder := LargePhaseAsWritten(large, h, maxCores);
      var smallResults, smallProgress;
      smallResults, smallProgress, smallOrder := SmallPhase(small, h, maxCores, |submitted|);
      results := largeResults + smallResults;
      assert multiset(results) == multiset(largeResults) + multiset(smallResults);
      progress := largeProgress + smallProgress;
      TableAfterPhases(start, maxCores, |submitted|, Min(Min(maxWorkers, maxCores), |small|));
    }

    /** `process_files_with_core_tracking` with the large phase run through the same
        bounded window as the small phase, so that every large file is hashed. */
    method ProcessFilesWithCoreTracking(files: seq<FileTuple>, h: HashFunction, cpuCount: nat)
      returns (results: seq<(string, string)>, progress: seq<nat>,
               ghost largeOrder: seq<nat>, ghost smallOrder: seq<nat>)
      requires maxWorkers >= 1 && cpuCount >= 1
      modifies this
      ensures var maxCores := Min(maxWorkers, cpuCount);
        var large := LargeFiles(files, largeFileThreshold);
        var small := SmallFiles(files, largeFileThreshold);
        && IsPermutation(largeOrder, |large|) && InBounds(largeOrder, |large|)
        && IsPermutation(smallOrder, |small|) && InBounds(smallOrder, |small|)
        && results == Completed(large, largeOrder, h) + Completed(small, smallOrder, h)
        && multiset(results) == multiset(HashResults(files, h))
        && progress == Ticks(0, |files|)
        && coreActivity == IdleOn(old(coreActivity), Max(maxCores, Min(LargeCores(maxCores), |large|)))
    {
      var maxCores := Min(maxWorkers, cpuCount);
      var large := LargeFiles(files, largeFileThreshold);
      var small := SmallFiles(files, largeFileThreshold);
      SplitPartition(files, largeFileThreshold);
      ghost var start := coreActivity;
      ResetCores(maxCores);
      var largeResults, largeProgress;
      largeResults, largeProgress, largeOrder := LargePhase(large, h, maxCores);
      var smallResults, smallProgress;
      smallResults, smallProgress, smallOrder := SmallPhase(small, h, maxCores, |large|);
      results := largeResults + smallResults;
      progress := largeProgress + smallProgress;
      TicksJoin(largeProgress, smallProgress, |large|, |small|, |files|);
      SplitHashResults(files, largeFileThreshold, h);
      TableAfterPhases(start, maxCores, Min(LargeCores(maxCores), |large|), Min(Min(maxWorkers, maxCores), |small|));
    }
  }

  /** As written, the tracked large phase hashes at most `large_cores` files: with more
      large files than that and every hash truthy, fewer results come back than files
      went in. */
  lemma LargePhaseDropsFiles(files: seq<FileTuple>, h: HashFunction, maxCores: nat)
    requires |LargeFiles(files, LargeFileThreshold)| > LargeCores(maxCores)
    requires forall i :: 0 <= i < |files| ==> Truthy(h(files[i].path))
    ensures var large := LargeFiles(files, LargeFileThreshold);
      var small := SmallFiles(files, LargeFileThreshold);
      |HashResults(large[..LargeCores(maxCores)], h)| + |HashResults(small, h)| < |HashResults(files, h)|
  {
    var large := LargeFiles(files, LargeFileThreshold);
    var small := SmallFiles(files, LargeFileThreshold);
    var sub := large[..LargeCores(maxCores)];
    SplitPartition(files, LargeFileThreshold);
    HashResultsCount(files, h);
    HashResultsCount(sub, h);
    HashResultsCount(small, h);
  }
}
