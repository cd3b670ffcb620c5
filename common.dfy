/** Values shared by every component of the duplicate finder: optional values, error
    results, the `(path, size, mtime)` tuple the scanner produces, the two path helpers
    of `os.path` that the core relies on, and a few facts about sequences. */
module Common {

  datatype Option<+T> = None | Some(value: T)

  /** The exceptions the core raises or catches, one constructor per kind. */
  datatype Error =
    | FileNotFound(path: string)     // Workspace.load_workspace on a missing file
    | NotADatabase(path: string)     // sqlite3 refuses a file that is not a database
    | NoDirectories                  // DedupEngine.scan_and_hash with an empty list (ValueError)
    | JsonDecodeError                // json.loads of the legacy directory blob fails
    | WalkFailed(directory: string)  // an exception escaped os.walk
    | UnboundLocal(name: string)     // UnboundLocalError

  datatype Result<+T> = Ok(value: T) | Err(error: Error)

  /** Python truthiness of an optional text column: both None and "" are false. */
  predicate Truthy(h: Option<string>)
  {
    h.Some? && h.value != ""
  }

  /** `compute_xxhash`, `compute_md5`: the hex digest of the file at a path, or None when
      the file cannot be read (the functions catch every exception). */
  type HashFunction = string -> Option<string>

  function Min(a: int, b: int): (m: int)
    ensures m <= a && m <= b && (m == a || m == b)
  {
    if a <= b then a else b
  }

  function Max(a: int, b: int): (m: int)
    ensures m >= a && m >= b && (m == a || m == b)
  {
    if a >= b then a else b
  }

  /** One discovered file: `(path, st_size, int(st_mtime))`. */
  datatype FileTuple = FileTuple(path: string, size: int, modified: int)

  /** `os.path.join(a, b)` for a component `b` that is a plain entry name (it holds no
      separator and is not absolute, as every name os.walk and os.listdir return is). */
  function Join(a: string, b: string): (p: string)
    ensures |p| >= |a| + |b| && p[|p| - |b|..] == b
    ensures p[..|a|] == a
    ensures a == "" || a[|a| - 1] == '/' ==> p == a + b
    ensures a != "" && a[|a| - 1] != '/' ==> p == a + "/" + b
  {
    if a == "" || a[|a| - 1] == '/' then a + b else a + "/" + b
  }

  /** `os.path.basename(p)`: what follows the last '/', empty when p ends in '/'. */
  function Basename(p: string): (b: string)
    ensures '/' !in b
    ensures |b| <= |p| && p[|p| - |b|..] == b
    ensures |b| < |p| ==> p[|p| - |b| - 1] == '/'
  {
    if p == "" || p[|p| - 1] == '/' then ""
    else Basename(p[..|p| - 1]) + [p[|p| - 1]]
  }

  /** Python's `int(x)` on a float: truncation toward zero. */
  function TruncToInt(x: real): (n: int)
    ensures x >= 0.0 ==> n as real <= x < n as real + 1.0
    ensures x < 0.0 ==> n as real - 1.0 < x <= n as real
  {
    if x >= 0.0 then x.Floor else -((-x).Floor)
  }

  // ---------------------------------------------------------------------------------
  // Sequences

  predicate NoDup<T(==)>(s: seq<T>)
  {
    forall i, j :: 0 <= i < j < |s| ==> s[i] != s[j]
  }

  function Flatten<T>(gs: seq<seq<T>>): seq<T>
  {
    if gs == [] then [] else Flatten(gs[..|gs| - 1]) + gs[|gs| - 1]
  }

  lemma {:induction false} FlattenAppend<T>(a: seq<seq<T>>, b: seq<seq<T>>)
    ensures Flatten(a + b) == Flatten(a) + Flatten(b)
  {
    if b != [] {
      assert (a + b)[..|a + b| - 1] == a + b[..|b| - 1];
      FlattenAppend(a, b[..|b| - 1]);
    } else {
      assert a + b == a;
    }
  }

  lemma FlattenSnoc<T>(gs: seq<seq<T>>, g: seq<T>)
    ensures Flatten(gs + [g]) == Flatten(gs) + g
  {
    assert (gs + [g])[..|gs|] == gs;
  }

  /** `a` is an order-preserving subsequence of `b`. */
  predicate Subsequence<T(==)>(a: seq<T>, b: seq<T>)
    decreases |b|
  {
    if a == [] then true
    else if b == [] then false
    else if a[|a| - 1] == b[|b| - 1] then Subsequence(a[..|a| - 1], b[..|b| - 1])
    else Subsequence(a, b[..|b| - 1])
  }

  lemma {:induction false} SubsequenceSelf<T>(s: seq<T>)
    ensures Subsequence(s, s)
  {
    if s != [] {
      SubsequenceSelf(s[..|s| - 1]);
    }
  }

  lemma {:induction false} SubsequenceWeaken<T>(a: seq<T>, b: seq<T>, x: T)
    requires Subsequence(a, b)
    ensures Subsequence(a, b + [x])
    decreases |b|, 1
  {
    assert (b + [x])[..|b + [x]| - 1] == b;
    if a != [] && a[|a| - 1] == x {
      SubsequenceDropLast(a, b);
    }
  }

  lemma {:induction false} SubsequenceDropLast<T>(a: seq<T>, b: seq<T>)
    requires a != [] && Subsequence(a, b)
    ensures Subsequence(a[..|a| - 1], b)
    decreases |b|, 0
  {
    assert b != [];
    var b', y := b[..|b| - 1], b[|b| - 1];
    assert b' + [y] == b;
    if a[|a| - 1] == y {
      SubsequenceWeaken(a[..|a| - 1], b', y);
    } else {
      SubsequenceDropLast(a, b');
      SubsequenceWeaken(a[..|a| - 1], b', y);
    }
  }

  /** A prefix is a subsequence. */
  lemma {:induction false} PrefixSubsequence<T>(s: seq<T>, n: nat)
    requires n <= |s|
    ensures Subsequence(s[..n], s)
    decreases |s|
  {
    if n == |s| {
      assert s[..n] == s;
      SubsequenceSelf(s);
    } else {
      var s' := s[..|s| - 1];
      assert s[..n] == s'[..n];
      PrefixSubsequence(s', n);
      SubsequenceWeaken(s'[..n], s', s[|s| - 1]);
      assert s' + [s[|s| - 1]] == s;
    }
  }

  /** Being a subsequence is transitive. */
  lemma {:induction false} SubsequenceTrans<T>(a: seq<T>, b: seq<T>, c: seq<T>)
    requires Subsequence(a, b) && Subsequence(b, c)
    ensures Subsequence(a, c)
    decreases |c|
  {
    if a != [] {
      assert b != [] && c != [];
      var b', c' := b[..|b| - 1], c[..|c| - 1];
      if b[|b| - 1] == c[|c| - 1] {
        if a[|a| - 1] == b[|b| - 1] {
          SubsequenceTrans(a[..|a| - 1], b', c');
        } else {
          SubsequenceTrans(a, b', c');
        }
      } else {
        SubsequenceTrans(a, b, c');
        SubsequenceWeaken(a, c', c[|c| - 1]);
        assert c' + [c[|c| - 1]] == c;
      }
    }
  }

  lemma SubMultisetSize<T>(a: multiset<T>, b: multiset<T>)
    requires a <= b
    ensures |a| <= |b|
  {
    assert b == a + (b - a);
  }

  /** A group holds no more of any element than all the groups together. */
  lemma {:induction false} MemberFlatten<T>(gs: seq<seq<T>>, g: seq<T>)
    requires g in gs
    ensures multiset(g) <= multiset(Flatten(gs))
  {
    var gs', last := gs[..|gs| - 1], gs[|gs| - 1];
    if g != last {
      assert g in gs';
      MemberFlatten(gs', g);
    }
  }

  /** Taking an order-preserving subsequence of groups takes a sub-multiset of their
      members. */
  lemma {:induction false} SubsequenceFlatten<T>(a: seq<seq<T>>, b: seq<seq<T>>)
    requires Subsequence(a, b)
    ensures multiset(Flatten(a)) <= multiset(Flatten(b))
    decreases |b|
  {
    if a != [] {
      var b', y := b[..|b| - 1], b[|b| - 1];
      if a[|a| - 1] == y {
        SubsequenceFlatten(a[..|a| - 1], b');
      } else {
        SubsequenceFlatten(a, b');
      }
    }
  }

  /** The indices `0, 1, ..., n - 1` in order. */
  function Range(n: nat): (r: seq<nat>)
    ensures |r| == n && forall i :: 0 <= i < n ==> r[i] == i
  {
    seq(n, i => i)
  }

  /** The same indices as a set. */
  function RangeSet(n: nat): (r: set<nat>)
    ensures forall i: nat :: i in r <==> i < n
  {
    if n == 0 then {} else RangeSet(n - 1) + {n - 1}
  }

  lemma {:induction false} RangeMultiset(n: nat)
    ensures multiset(Range(n)) == multiset(RangeSet(n))
  {
    if n > 0 {
      RangeMultiset(n - 1);
      assert Range(n) == Range(n - 1) + [n - 1];
      assert RangeSet(n) == RangeSet(n - 1) + {n - 1};
    } else {
      assert RangeSet(0) == {};
    }
  }

  /** Separates the occurrence of `x` found at position `i` of `b`. */
  lemma SplitAt<T>(b: seq<T>, i: nat)
    requires i < |b|
    ensures b == b[..i] + [b[i]] + b[i + 1..]
    ensures multiset(b) == multiset(b[..i] + b[i + 1..]) + multiset{b[i]}
  {
    assert b == b[..i] + [b[i]] + b[i + 1..];
  }
}
