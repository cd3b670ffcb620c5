/** Grouping by a key, the way `defaultdict(list)` does it: a bucket per distinct key,
    the buckets in the order their keys first appear, each bucket holding its members in
    input order. Both phases of the duplicate resolver and the metadata query's
    `GROUP BY ... HAVING COUNT(*) > 1` are instances of it. */
module Grouping {
  import opened Common

  /** The distinct keys of `s` in order of first appearance (a dict's key order). */
  function Keys<T, K(==)>(s: seq<T>, key: T -> K): seq<K>
  {
    if s == [] then []
    else
      var ks := Keys(s[..|s| - 1], key);
      if key(s[|s| - 1]) in ks then ks else ks + [key(s[|s| - 1])]
  }

  /** The members of `s` whose key is `k`, in input order: what `d[k]` holds once every
      element has been appended to `d[key(x)]`. */
  function Bucket<T, K(==)>(s: seq<T>, key: T -> K, k: K): (b: seq<T>)
    ensures |b| <= |s|
    ensures forall i :: 0 <= i < |b| ==> key(b[i]) == k
  {
    if s == [] then []
    else Bucket(s[..|s| - 1], key, k) + (if key(s[|s| - 1]) == k then [s[|s| - 1]] else [])
  }

  /** The buckets for the keys `ks`, in that order. */
  function BucketsFor<T, K(==)>(s: seq<T>, key: T -> K, ks: seq<K>): (bs: seq<seq<T>>)
    ensures |bs| == |ks|
    ensures forall j :: 0 <= j < |ks| ==> bs[j] == Bucket(s, key, ks[j])
  {
    if ks == [] then []
    else BucketsFor(s, key, ks[..|ks| - 1]) + [Bucket(s, key, ks[|ks| - 1])]
  }

  /** `d.values()` after the grouping loop. */
  function Buckets<T, K(==)>(s: seq<T>, key: T -> K): seq<seq<T>>
  {
    BucketsFor(s, key, Keys(s, key))
  }

  /** `[g for g in gs if len(g) > 1]`. */
  function Larger<T(==)>(gs: seq<seq<T>>): (r: seq<seq<T>>)
    ensures forall g | g in r :: g in gs && |g| > 1
    ensures forall g | g in gs && |g| > 1 :: g in r
    ensures Subsequence(r, gs)
  {
    if gs == [] then []
    else
      var r' := Larger(gs[..|gs| - 1]);
      var g := gs[|gs| - 1];
      assert gs == gs[..|gs| - 1] + [g];
      if |g| > 1 then
        assert (r' + [g])[..|r' + [g]| - 1] == r';
        r' + [g]
      else
        SubsequenceWeaken(r', gs[..|gs| - 1], g);
        r'
  }

  /** The groups of more than one member. */
  function DuplicateGroups<T(==), K(==)>(s: seq<T>, key: T -> K): (gs: seq<seq<T>>)
    ensures forall g :: g in gs ==> |g| > 1 && g in Buckets(s, key)
  {
    Larger(Buckets(s, key))
  }

  /** The keys that occur at two different positions of `s`. */
  function RepeatedKeys<T, K(==)>(s: seq<T>, key: T -> K): set<K>
  {
    set i, j | 0 <= i < j < |s| && key(s[i]) == key(s[j]) :: key(s[i])
  }

  // ---------------------------------------------------------------------------------
  // Keys and buckets

  /** A bucket holds each element of key `k` as often as `s` does, and nothing else. */
  lemma {:induction false} BucketMultiset<T, K>(s: seq<T>, key: T -> K, k: K)
    ensures forall x :: multiset(Bucket(s, key, k))[x] == if key(x) == k then multiset(s)[x] else 0
  {
    if s != [] {
      var s', y := s[..|s| - 1], s[|s| - 1];
      assert s == s' + [y];
      BucketMultiset(s', key, k);
    }
  }

  lemma {:induction false} KeysSpec<T, K>(s: seq<T>, key: T -> K)
    ensures NoDup(Keys(s, key))
    ensures forall k :: k in Keys(s, key) ==> exists i :: 0 <= i < |s| && key(s[i]) == k
    ensures forall i :: 0 <= i < |s| ==> key(s[i]) in Keys(s, key)
  {
    if s != [] {
      var s', x := s[..|s| - 1], s[|s| - 1];
      assert s == s' + [x];
      KeysSpec(s', key);
      forall k | k in Keys(s, key) ensures exists i :: 0 <= i < |s| && key(s[i]) == k {
        if k == key(x) {
          assert key(s[|s| - 1]) == k;
        } else {
          assert Keys(s, key) == Keys(s', key) || Keys(s, key) == Keys(s', key) + [key(x)];
          assert k in Keys(s', key);
          var i :| 0 <= i < |s'| && key(s'[i]) == k;
          assert s[i] == s'[i];
        }
      }
      forall i | 0 <= i < |s| ensures key(s[i]) in Keys(s, key) {
        if i < |s'| {
          assert s'[i] == s[i];
        }
      }
    }
  }

  /** Membership in a bucket: exactly the elements of `s` that have key `k`. */
  lemma BucketMembers<T, K>(s: seq<T>, key: T -> K, k: K)
    ensures forall x :: x in Bucket(s, key, k) ==> x in s && key(x) == k
    ensures forall x :: x in s && key(x) == k ==> x in Bucket(s, key, k)
  {
    BucketMultiset(s, key, k);
  }

  /** A key that never occurs has an empty bucket. */
  lemma BucketOfAbsentKey<T, K>(s: seq<T>, key: T -> K, k: K)
    requires k !in Keys(s, key)
    ensures Bucket(s, key, k) == []
  {
    KeysSpec(s, key);
    BucketMultiset(s, key, k);
    assert forall i :: 0 <= i < |s| ==> key(s[i]) != k;
    assert multiset(Bucket(s, key, k)) == multiset{};
  }

  lemma KeysSnoc<T, K>(s: seq<T>, x: T, key: T -> K)
    ensures Keys(s + [x], key)
         == if key(x) in Keys(s, key) then Keys(s, key) else Keys(s, key) + [key(x)]
  {
    assert (s + [x])[..|s|] == s;
  }

  lemma BucketSnoc<T, K>(s: seq<T>, x: T, key: T -> K, k: K)
    ensures Bucket(s + [x], key, k) == Bucket(s, key, k) + (if key(x) == k then [x] else [])
  {
    assert (s + [x])[..|s|] == s;
  }

  lemma BucketsForSnoc<T, K>(s: seq<T>, key: T -> K, ks: seq<K>, k: K)
    ensures BucketsFor(s, key, ks + [k]) == BucketsFor(s, key, ks) + [Bucket(s, key, k)]
  {
    assert (ks + [k])[..|ks|] == ks;
  }

  // ---------------------------------------------------------------------------------
  // The dictionary a grouping loop fills

  /** `d` with key order `ks` is the `defaultdict(list)` obtained by appending every element
      of `s`, in order, to `d[key(x)]`. */
  ghost predicate GroupedBy<T, K>(d: map<K, seq<T>>, ks: seq<K>, s: seq<T>, key: T -> K)
  {
    && ks == Keys(s, key)
    && (forall k | k in d :: k in ks)
    && (forall i | 0 <= i < |ks| :: ks[i] in d)
    && (forall k | k in d :: d[k] == Bucket(s, key, k))
  }

  lemma GroupedByEmpty<T, K>(key: T -> K)
    ensures GroupedBy(map[], [], [], key)
  {
  }

  /** `d[k].append(x)` on a `defaultdict(list)` whose keys, in insertion order, are `ks`:
      the bucket, and the key, are created the first time `k` is seen. */
  function DictAppend<T, K>(d: map<K, seq<T>>, ks: seq<K>, k: K, x: T): (map<K, seq<T>>, seq<K>)
  {
    if k in d then (d[k := d[k] + [x]], ks) else (d[k := [x]], ks + [k])
  }

  /** One step of the grouping loop preserves `GroupedBy`. */
  lemma GroupedByAppend<T, K>(d: map<K, seq<T>>, ks: seq<K>, s: seq<T>, key: T -> K, x: T)
    requires GroupedBy(d, ks, s, key)
    ensures GroupedBy(DictAppend(d, ks, key(x), x).0, DictAppend(d, ks, key(x), x).1, s + [x], key)
  {
    KeysSnoc(s, x, key);
    forall k ensures Bucket(s + [x], key, k) == Bucket(s, key, k) + (if key(x) == k then [x] else []) {
      BucketSnoc(s, x, key, k);
    }
    if key(x) !in d {
      BucketOfAbsentKey(s, key, key(x));
    }
  }

  /** Reading the buckets back in key order, keeping those of more than one member, one key
      at a time. */
  lemma LargerPrefixStep<T, K>(s: seq<T>, key: T -> K, ks: seq<K>, j: nat)
    requires j < |ks|
    ensures Larger(BucketsFor(s, key, ks[..j + 1]))
         == Larger(BucketsFor(s, key, ks[..j]))
            + (if |Bucket(s, key, ks[j])| > 1 then [Bucket(s, key, ks[j])] else [])
  {
    assert ks[..j + 1] == ks[..j] + [ks[j]];
    BucketsForSnoc(s, key, ks[..j], ks[j]);
    LargerSnoc(BucketsFor(s, key, ks[..j]), Bucket(s, key, ks[j]));
  }

  /** `[g for g in d.values() if len(g) > 1]` on the dictionary a grouping loop filled:
      exactly the duplicate groups of the elements it was filled with. */
  method LargeValues<T, K>(d: map<K, seq<T>>, ks: seq<K>, ghost s: seq<T>, key: T -> K)
    returns (gs: seq<seq<T>>)
    requires GroupedBy(d, ks, s, key)
    ensures gs == DuplicateGroups(s, key)
  {
    gs := [];
    var j := 0;
    while j < |ks|
      invariant 0 <= j <= |ks|
      invariant gs == Larger(BucketsFor(s, key, ks[..j]))
    {
      LargerPrefixStep(s, key, ks, j);
      var g := d[ks[j]];
      if |g| > 1 {
        gs := gs + [g];
      }
      j := j + 1;
    }
    assert ks[..j] == ks;
  }

  // ---------------------------------------------------------------------------------
  // Partition: every element lands in exactly one bucket

  lemma {:induction false} BucketsForAppend<T, K>(s: seq<T>, x: T, key: T -> K, ks: seq<K>)
    requires NoDup(ks)
    ensures multiset(Flatten(BucketsFor(s + [x], key, ks)))
         == multiset(Flatten(BucketsFor(s, key, ks))) + (if key(x) in ks then multiset{x} else multiset{})
  {
    if ks != [] {
      var ks', k := ks[..|ks| - 1], ks[|ks| - 1];
      assert ks == ks' + [k];
      assert k !in ks' && NoDup(ks');
      BucketsForAppend(s, x, key, ks');
      BucketsForAppendStep(s, x, key, ks', k);
    }
  }

  /** `BucketsForAppend`, one key further. */
  lemma BucketsForAppendStep<T, K>(s: seq<T>, x: T, key: T -> K, ks: seq<K>, k: K)
    requires k !in ks
    requires multiset(Flatten(BucketsFor(s + [x], key, ks)))
          == multiset(Flatten(BucketsFor(s, key, ks))) + (if key(x) in ks then multiset{x} else multiset{})
    ensures multiset(Flatten(BucketsFor(s + [x], key, ks + [k])))
         == multiset(Flatten(BucketsFor(s, key, ks + [k])))
            + (if key(x) in ks + [k] then multiset{x} else multiset{})
  {
    var before, after := BucketsFor(s, key, ks), BucketsFor(s + [x], key, ks);
    var b := Bucket(s, key, k);
    BucketsForSnoc(s, key, ks, k);
    BucketsForSnoc(s + [x], key, ks, k);
    FlattenSnoc(before, b);
    BucketSnoc(s, x, key, k);
    FlattenSnoc(after, Bucket(s + [x], key, k));
  }

  /** The buckets together hold exactly the elements of `s`, each as often as in `s`. */
  lemma {:induction false} BucketsPartition<T, K>(s: seq<T>, key: T -> K)
    ensures multiset(Flatten(Buckets(s, key))) == multiset(s)
  {
    if s != [] {
      var s', x := s[..|s| - 1], s[|s| - 1];
      assert s == s' + [x];
      BucketsPartition(s', key);
      KeysSpec(s', key);
      var ks' := Keys(s', key);
      BucketsForAppend(s', x, key, ks');
      if key(x) !in ks' {
        var bs := Buckets(s, key);
        assert Keys(s, key) == ks' + [key(x)];
        assert bs == BucketsFor(s, key, ks') + [Bucket(s, key, key(x))];
        assert bs[..|bs| - 1] == BucketsFor(s, key, ks');
        BucketOfAbsentKey(s', key, key(x));
        assert Bucket(s, key, key(x)) == Bucket(s', key, key(x)) + [x];
      }
    }
  }

  /** Each element of `s` is in the bucket of its own key and in no other bucket; since
      the keys are distinct (`KeysSpec`), that is exactly one bucket. */
  lemma ExactlyOneBucket<T, K>(s: seq<T>, key: T -> K, x: T)
    requires x in s
    ensures key(x) in Keys(s, key)
    ensures forall j :: 0 <= j < |Keys(s, key)| ==>
      (x in Buckets(s, key)[j] <==> Keys(s, key)[j] == key(x))
  {
    KeysSpec(s, key);
    var i :| 0 <= i < |s| && s[i] == x;
    assert key(s[i]) == key(x);
    forall j | 0 <= j < |Keys(s, key)|
      ensures x in Buckets(s, key)[j] <==> Keys(s, key)[j] == key(x)
    {
      BucketMembers(s, key, Keys(s, key)[j]);
    }
  }

  // ---------------------------------------------------------------------------------
  // Which buckets survive the size filter

  /** Two different members of `s` with one key end up together in a duplicate group. */
  lemma SameKeyGroupedTogether<T, K>(s: seq<T>, key: T -> K, x: T, y: T)
    requires x in s && y in s && x != y && key(x) == key(y)
    ensures exists g :: g in DuplicateGroups(s, key) && x in g && y in g
  {
    KeysSpec(s, key);
    var ks := Keys(s, key);
    var i :| 0 <= i < |s| && s[i] == x;
    assert key(s[i]) in ks;
    var j :| 0 <= j < |ks| && ks[j] == key(x);
    var b := Bucket(s, key, key(x));
    BucketMembers(s, key, key(x));
    assert x in b && y in b;
    TwoMembers(b, x, y);
    assert Buckets(s, key)[j] == b;
    assert b in Buckets(s, key);
    assert b in DuplicateGroups(s, key);
  }

  /** A sequence with two different members has more than one element. */
  lemma TwoMembers<T>(b: seq<T>, x: T, y: T)
    requires x in b && y in b && x != y
    ensures |b| > 1
  {
    var p :| 0 <= p < |b| && b[p] == x;
    var q :| 0 <= q < |b| && b[q] == y;
    assert p != q;
  }

  /** A member that is the only one with its key is in no duplicate group. */
  lemma LoneKeyExcluded<T, K>(s: seq<T>, key: T -> K, x: T)
    requires |Bucket(s, key, key(x))| == 1
    ensures forall g :: g in DuplicateGroups(s, key) ==> x !in g
  {
    forall g | g in DuplicateGroups(s, key) ensures x !in g {
      var bs := Buckets(s, key);
      var j :| 0 <= j < |bs| && bs[j] == g;
      var k := Keys(s, key)[j];
      assert g == Bucket(s, key, k) && |g| > 1;
      assert k != key(x);
    }
  }

  /** Some position of `s` has key `k`. */
  ghost predicate Occurs<T, K>(s: seq<T>, key: T -> K, k: K)
  {
    exists i :: 0 <= i < |s| && key(s[i]) == k
  }

  /** Two positions of `s` have key `k`. */
  ghost predicate OccursTwice<T, K>(s: seq<T>, key: T -> K, k: K)
  {
    exists i, j :: 0 <= i < j < |s| && key(s[i]) == k && key(s[j]) == k
  }

  lemma BucketNonEmpty<T, K>(s: seq<T>, key: T -> K, k: K)
    ensures |Bucket(s, key, k)| > 0 <==> Occurs(s, key, k)
  {
    BucketMembers(s, key, k);
    var b := Bucket(s, key, k);
    if |b| > 0 {
      assert b[0] in b;
      assert b[0] in s;
      var i :| 0 <= i < |s| && s[i] == b[0];
      assert key(s[i]) == k;
    }
    if Occurs(s, key, k) {
      var i :| 0 <= i < |s| && key(s[i]) == k;
      assert s[i] in b;
    }
  }

  /** A bucket has more than one member exactly when two positions share its key. */
  lemma {:induction false} BucketLarge<T, K>(s: seq<T>, key: T -> K, k: K)
    ensures |Bucket(s, key, k)| > 1 <==> OccursTwice(s, key, k)
  {
    if s != [] {
      var s', x := s[..|s| - 1], s[|s| - 1];
      assert s == s' + [x];
      BucketLarge(s', key, k);
      if key(x) == k {
        BucketLargeMatch(s', x, key, k);
      } else {
        BucketLargeOther(s', x, key, k);
      }
    } else {
      assert !OccursTwice(s, key, k);
    }
  }

  /** `BucketLarge`, one element further, when that element has key `k`. */
  lemma BucketLargeMatch<T, K>(s: seq<T>, x: T, key: T -> K, k: K)
    requires key(x) == k
    requires |Bucket(s, key, k)| > 1 <==> OccursTwice(s, key, k)
    ensures |Bucket(s + [x], key, k)| > 1 <==> OccursTwice(s + [x], key, k)
  {
    var sx := s + [x];
    BucketSnoc(s, x, key, k);
    BucketNonEmpty(s, key, k);
    if Occurs(s, key, k) {
      var i :| 0 <= i < |s| && key(s[i]) == k;
      assert key(sx[i]) == k && key(sx[|s|]) == k;
    }
    if OccursTwice(sx, key, k) {
      var i, j :| 0 <= i < j < |sx| && key(sx[i]) == k && key(sx[j]) == k;
      assert key(s[i]) == k;
    }
  }

  /** `BucketLarge`, one element further, when that element has another key. */
  lemma BucketLargeOther<T, K>(s: seq<T>, x: T, key: T -> K, k: K)
    requires key(x) != k
    requires |Bucket(s, key, k)| > 1 <==> OccursTwice(s, key, k)
    ensures |Bucket(s + [x], key, k)| > 1 <==> OccursTwice(s + [x], key, k)
  {
    var sx := s + [x];
    BucketSnoc(s, x, key, k);
    if OccursTwice(sx, key, k) {
      var i, j :| 0 <= i < j < |sx| && key(sx[i]) == k && key(sx[j]) == k;
      assert j < |s|;
      assert key(s[i]) == k && key(s[j]) == k;
    }
    if OccursTwice(s, key, k) {
      var i, j :| 0 <= i < j < |s| && key(s[i]) == k && key(s[j]) == k;
      assert key(sx[i]) == k && key(sx[j]) == k;
    }
  }

  /** The keys among `ks` whose bucket has more than one member. */
  ghost function LargeKeys<T, K>(s: seq<T>, key: T -> K, ks: seq<K>): set<K>
  {
    set k | k in ks && |Bucket(s, key, k)| > 1
  }

  lemma LargerSnoc<T>(gs: seq<seq<T>>, g: seq<T>)
    ensures Larger(gs + [g]) == Larger(gs) + (if |g| > 1 then [g] else [])
  {
    assert (gs + [g])[..|gs + [g]| - 1] == gs;
  }

  lemma LargeKeysSnoc<T, K>(s: seq<T>, key: T -> K, ks: seq<K>, k: K)
    ensures LargeKeys(s, key, ks + [k])
         == LargeKeys(s, key, ks) + (if |Bucket(s, key, k)| > 1 then {k} else {})
  {
  }

  lemma {:induction false} LargerBucketsCount<T, K>(s: seq<T>, key: T -> K, ks: seq<K>)
    requires NoDup(ks)
    ensures |Larger(BucketsFor(s, key, ks))| == |LargeKeys(s, key, ks)|
  {
    if ks == [] {
      assert LargeKeys(s, key, ks) == {};
    } else {
      var ks', k := ks[..|ks| - 1], ks[|ks| - 1];
      assert ks == ks' + [k];
      assert NoDup(ks');
      LargerBucketsCount(s, key, ks');
      var b := Bucket(s, key, k);
      assert BucketsFor(s, key, ks) == BucketsFor(s, key, ks') + [b];
      LargerSnoc(BucketsFor(s, key, ks'), b);
      LargeKeysSnoc(s, key, ks', k);
      assert k !in LargeKeys(s, key, ks');
    }
  }

  /** The number of duplicate groups is the number of keys that occur more than once:
      what `COUNT(*)` of `GROUP BY key HAVING COUNT(*) > 1` returns. */
  lemma DuplicateGroupCount<T, K>(s: seq<T>, key: T -> K)
    ensures |DuplicateGroups(s, key)| == |RepeatedKeys(s, key)|
  {
    KeysSpec(s, key);
    var ks := Keys(s, key);
    LargerBucketsCount(s, key, ks);
    forall k | k in LargeKeys(s, key, ks) ensures k in RepeatedKeys(s, key) {
      LargeKeyRepeated(s, key, k);
    }
    forall k | k in RepeatedKeys(s, key) ensures k in LargeKeys(s, key, ks) {
      RepeatedKeyLarge(s, key, k);
    }
    assert LargeKeys(s, key, ks) == RepeatedKeys(s, key);
  }

  lemma LargeKeyRepeated<T, K>(s: seq<T>, key: T -> K, k: K)
    requires |Bucket(s, key, k)| > 1
    ensures k in RepeatedKeys(s, key)
  {
    BucketLarge(s, key, k);
    var i, j :| 0 <= i < j < |s| && key(s[i]) == k && key(s[j]) == k;
  }

  lemma RepeatedKeyLarge<T, K>(s: seq<T>, key: T -> K, k: K)
    requires k in RepeatedKeys(s, key)
    ensures k in Keys(s, key) && |Bucket(s, key, k)| > 1
  {
    KeysSpec(s, key);
    var i, j :| 0 <= i < j < |s| && key(s[i]) == key(s[j]) && key(s[i]) == k;
    BucketLarge(s, key, k);
  }

  // ---------------------------------------------------------------------------------
  // What the duplicate groups are made of

  /** All members of a duplicate group carry one key. */
  lemma GroupMembersShareKey<T, K>(s: seq<T>, key: T -> K, g: seq<T>)
    requires g in DuplicateGroups(s, key)
    ensures |g| > 1
    ensures forall i, j :: 0 <= i < |g| && 0 <= j < |g| ==> key(g[i]) == key(g[j])
    ensures forall x :: x in g ==> x in s
  {
    var bs := Buckets(s, key);
    var j :| 0 <= j < |bs| && bs[j] == g;
    var k := Keys(s, key)[j];
    assert g == Bucket(s, key, k);
    assert forall i :: 0 <= i < |g| ==> key(g[i]) == k;
    BucketMembers(s, key, k);
  }

  /** The duplicate groups together take no element more often than `s` holds it: on an
      input without repetitions the groups are pairwise disjoint and none repeats a member. */
  lemma DuplicateGroupsWithin<T, K>(s: seq<T>, key: T -> K)
    ensures multiset(Flatten(DuplicateGroups(s, key))) <= multiset(s)
  {
    SubsequenceFlatten(DuplicateGroups(s, key), Buckets(s, key));
    BucketsPartition(s, key);
  }

  /** Two duplicate groups with a common member are the same group. */
  lemma GroupsSharingMemberEqual<T, K>(s: seq<T>, key: T -> K, g1: seq<T>, g2: seq<T>, x: T)
    requires g1 in DuplicateGroups(s, key) && g2 in DuplicateGroups(s, key)
    requires x in g1 && x in g2
    ensures g1 == g2
  {
    var bs := Buckets(s, key);
    var j1 :| 0 <= j1 < |bs| && bs[j1] == g1;
    var j2 :| 0 <= j2 < |bs| && bs[j2] == g2;
    assert g1 == Bucket(s, key, Keys(s, key)[j1]);
    assert g2 == Bucket(s, key, Keys(s, key)[j2]);
  }

  /** The keys among `ks` whose bucket has more than one member, in the order of `ks`. */
  function LargeKeySeq<T, K(==)>(s: seq<T>, key: T -> K, ks: seq<K>): seq<K>
  {
    if ks == [] then []
    else
      var k := ks[|ks| - 1];
      LargeKeySeq(s, key, ks[..|ks| - 1]) + (if |Bucket(s, key, k)| > 1 then [k] else [])
  }

  lemma LargeKeySeqSnoc<T, K>(s: seq<T>, key: T -> K, ks: seq<K>, k: K)
    ensures LargeKeySeq(s, key, ks + [k])
         == LargeKeySeq(s, key, ks) + (if |Bucket(s, key, k)| > 1 then [k] else [])
  {
    assert (ks + [k])[..|ks|] == ks;
  }

  /** Keeping the large buckets for `ks` is taking the buckets of the large keys. */
  lemma {:induction false} LargerOfKeys<T, K>(s: seq<T>, key: T -> K, ks: seq<K>)
    ensures Larger(BucketsFor(s, key, ks)) == BucketsFor(s, key, LargeKeySeq(s, key, ks))
  {
    if ks != [] {
      var ks', k := ks[..|ks| - 1], ks[|ks| - 1];
      assert ks == ks' + [k];
      LargerOfKeys(s, key, ks');
      BucketsForSnoc(s, key, ks', k);
      LargerSnoc(BucketsFor(s, key, ks'), Bucket(s, key, k));
      LargeKeySeqSnoc(s, key, ks', k);
      BucketsForSnoc(s, key, LargeKeySeq(s, key, ks'), k);
    }
  }

  /** The large keys come from `ks`, and are distinct when `ks` is. */
  lemma {:induction false} LargeKeySeqDistinct<T, K>(s: seq<T>, key: T -> K, ks: seq<K>)
    ensures forall k :: k in LargeKeySeq(s, key, ks) ==> k in ks
    ensures NoDup(ks) ==> NoDup(LargeKeySeq(s, key, ks))
  {
    if ks != [] {
      var ks', k := ks[..|ks| - 1], ks[|ks| - 1];
      assert ks == ks' + [k];
      LargeKeySeqDistinct(s, key, ks');
      LargeKeySeqSnoc(s, key, ks', k);
      var r' := LargeKeySeq(s, key, ks');
      if NoDup(ks) {
        assert NoDup(ks');
        assert k !in ks';
        assert k !in r';
      }
    }
  }

  /** The duplicate groups are the buckets of a list of distinct keys, one group per key. */
  lemma DuplicateGroupKeys<T, K>(s: seq<T>, key: T -> K) returns (rk: seq<K>)
    ensures NoDup(rk) && |rk| == |DuplicateGroups(s, key)|
    ensures forall i :: 0 <= i < |rk| ==> DuplicateGroups(s, key)[i] == Bucket(s, key, rk[i])
  {
    KeysSpec(s, key);
    LargerOfKeys(s, key, Keys(s, key));
    LargeKeySeqDistinct(s, key, Keys(s, key));
    rk := LargeKeySeq(s, key, Keys(s, key));
  }

  /** Two different positions of the duplicate groups hold no common element. */
  lemma DuplicateGroupsDisjoint<T, K>(s: seq<T>, key: T -> K, i: nat, j: nat, x: T)
    requires i < j < |DuplicateGroups(s, key)|
    requires x in DuplicateGroups(s, key)[i]
    ensures x !in DuplicateGroups(s, key)[j]
  {
    var rk := DuplicateGroupKeys(s, key);
    BucketMembers(s, key, rk[i]);
    BucketMembers(s, key, rk[j]);
  }
}
