/** The recursive listing of CVFS.rList and what it covers.

    rList walks the tree under the working directory breadth first. Its queue
    holds buckets: a level and a directory's child list. Every bucket taken off
    the queue is emitted, and each Directory in it queues a bucket one level
    deeper. `Walk` is that loop written as a recursive function; the lemmas show
    that it emits one bucket per directory (empty ones included), that levels
    never decrease and grow in steps of one, and that the emitted files are
    exactly the files below the working directory. */
module Listing {
  import opened FileTree

  /** CVFS.Bucket: files found at `level` steps below the working directory. */
  datatype Bucket = Bucket(level: int, files: seq<File>)

  /** Every file of every bucket of `q` belongs to the heap `U`. */
  ghost predicate QueueIn(q: seq<Bucket>, U: set<File>) {
    forall i :: 0 <= i < |q| ==> AllIn(q[i].files, U)
  }

  /** The number of directories in the subtree of `d`, `d` included; a
      directory held twice by some list is counted twice. */
  ghost function DirCount(d: File, U: set<File>, bound: nat): (n: nat)
    reads U
    requires d in U && Closed(U, bound)
    decreases bound - d.rank, |d.files| + 1
  {
    1 + SubdirCount(d, |d.files|, U, bound)
  }

  /** The directories in the subtrees of the first `k` children of `d`. */
  ghost function SubdirCount(d: File, k: nat, U: set<File>, bound: nat): (n: nat)
    reads U
    requires d in U && Closed(U, bound) && k <= |d.files|
    decreases bound - d.rank, k
  {
    if k == 0 then 0
    else
      var c := d.files[k - 1];
      SubdirCount(d, k - 1, U, bound) + if c.isDirectory then DirCount(c, U, bound) else 0
  }

  /** The directories in the subtrees of the Directories of `fs`. */
  ghost function DirsWeight(fs: seq<File>, U: set<File>, bound: nat): (n: nat)
    reads U
    requires AllIn(fs, U) && Closed(U, bound)
  {
    if fs == [] then 0
    else
      var c := fs[|fs| - 1];
      DirsWeight(fs[..|fs| - 1], U, bound) + if c.isDirectory then DirCount(c, U, bound) else 0
  }

  /** The number of buckets the walk still has to emit for queue `q`. */
  ghost function Weight(q: seq<Bucket>, U: set<File>, bound: nat): (n: nat)
    reads U
    requires QueueIn(q, U) && Closed(U, bound)
  {
    if q == [] then 0 else 1 + DirsWeight(q[0].files, U, bound) + Weight(q[1..], U, bound)
  }

  /** The buckets a list of files puts on the queue: one per Directory, in order,
      each holding that directory's children at `level`. */
  ghost function SubBuckets(fs: seq<File>, level: int, U: set<File>, bound: nat): (q: seq<Bucket>)
    reads U
    requires AllIn(fs, U) && Closed(U, bound)
    ensures QueueIn(q, U)
    ensures forall i :: 0 <= i < |q| ==> q[i].level == level
  {
    if fs == [] then []
    else
      var c := fs[|fs| - 1];
      SubBuckets(fs[..|fs| - 1], level, U, bound) + if c.isDirectory then [Bucket(level, c.files)] else []
  }

  lemma {:induction false} DirsWeightChildren(d: File, k: nat, U: set<File>, bound: nat)
    requires d in U && Closed(U, bound) && k <= |d.files|
    ensures AllIn(d.files[..k], U)
    ensures DirsWeight(d.files[..k], U, bound) == SubdirCount(d, k, U, bound)
  {
    if k > 0 {
      DirsWeightChildren(d, k - 1, U, bound);
      assert d.files[..k][..k - 1] == d.files[..k - 1];
    }
  }

  lemma {:induction false} WeightAppend(a: seq<Bucket>, b: seq<Bucket>, U: set<File>, bound: nat)
    requires QueueIn(a, U) && QueueIn(b, U) && Closed(U, bound)
    ensures QueueIn(a + b, U)
    ensures Weight(a + b, U, bound) == Weight(a, U, bound) + Weight(b, U, bound)
  {
    if a == [] {
      assert a + b == b;
    } else {
      assert (a + b)[1..] == a[1..] + b;
      WeightAppend(a[1..], b, U, bound);
    }
  }

  /** The buckets queued for a list weigh what its directories' subtrees hold. */
  lemma {:induction false} SubBucketsWeight(fs: seq<File>, level: int, U: set<File>, bound: nat)
    requires AllIn(fs, U) && Closed(U, bound)
    ensures Weight(SubBuckets(fs, level, U, bound), U, bound) == DirsWeight(fs, U, bound)
  {
    if fs != [] {
      var fs', c := fs[..|fs| - 1], fs[|fs| - 1];
      SubBucketsWeight(fs', level, U, bound);
      var tail := if c.isDirectory then [Bucket(level, c.files)] else [];
      WeightAppend(SubBuckets(fs', level, U, bound), tail, U, bound);
      if c.isDirectory {
        DirsWeightChildren(c, |c.files|, U, bound);
        assert c.files[..|c.files|] == c.files;
        assert tail[1..] == [];
      }
    }
  }

  /** One step of the walk: the bucket at the head of the queue is emitted and
      the buckets of its Directories join the back, one fewer to go. */
  lemma WalkStep(q: seq<Bucket>, U: set<File>, bound: nat)
    requires q != [] && QueueIn(q, U) && Closed(U, bound)
    ensures QueueIn(q[1..], U)
    ensures QueueIn(q[1..] + SubBuckets(q[0].files, q[0].level + 1, U, bound), U)
    ensures Weight(q[1..] + SubBuckets(q[0].files, q[0].level + 1, U, bound), U, bound) == Weight(q, U, bound) - 1
  {
    assert QueueIn(q[1..], U) by {
      forall i | 0 <= i < |q[1..]| ensures AllIn(q[1..][i].files, U) {
        assert q[1..][i] == q[i + 1];
      }
    }
    var sub := SubBuckets(q[0].files, q[0].level + 1, U, bound);
    WeightAppend(q[1..], sub, U, bound);
    SubBucketsWeight(q[0].files, q[0].level + 1, U, bound);
  }

  lemma WalkUnfold(q: seq<Bucket>, U: set<File>, bound: nat)
    requires q != [] && QueueIn(q, U) && Closed(U, bound)
    ensures AllIn(q[0].files, U)
    ensures QueueIn(q[1..] + SubBuckets(q[0].files, q[0].level + 1, U, bound), U)
    ensures Weight(q[1..] + SubBuckets(q[0].files, q[0].level + 1, U, bound), U, bound) < Weight(q, U, bound)
    ensures Walk(q, U, bound) == [q[0]] + Walk(q[1..] + SubBuckets(q[0].files, q[0].level + 1, U, bound), U, bound)
  {
    WalkStep(q, U, bound);
  }

  /** Emitting the head of the queue and queueing its directories' buckets
      leaves what is emitted so far followed by the rest of the walk unchanged. */
  lemma WalkAdvance(emitted: seq<Bucket>, q: seq<Bucket>, next: seq<Bucket>, U: set<File>, bound: nat)
    requires q != [] && QueueIn(q, U) && Closed(U, bound)
    requires AllIn(q[0].files, U) && next == q[1..] + SubBuckets(q[0].files, q[0].level + 1, U, bound)
    ensures QueueIn(next, U)
    ensures Weight(next, U, bound) < Weight(q, U, bound)
    ensures (emitted + [q[0]]) + Walk(next, U, bound) == emitted + Walk(q, U, bound)
  {
    WalkUnfold(q, U, bound);
    var tail := Walk(next, U, bound);
    assert (emitted + [q[0]]) + tail == emitted + ([q[0]] + tail);
  }

  lemma ListFromStart(d: File, U: set<File>, bound: nat)
    requires d in U && Closed(U, bound)
    ensures QueueIn([Bucket(0, d.files)], U)
    ensures [] + Walk([Bucket(0, d.files)], U, bound) == ListFrom(d, U, bound)
    ensures Walk([], U, bound) == []
  {
    assert [] + Walk([Bucket(0, d.files)], U, bound) == Walk([Bucket(0, d.files)], U, bound);
  }

  /** The loop of CVFS.rList run on queue `q`: the buckets it emits, in order. */
  ghost function Walk(q: seq<Bucket>, U: set<File>, bound: nat): (out: seq<Bucket>)
    reads U
    requires QueueIn(q, U) && Closed(U, bound)
    ensures QueueIn(out, U)
    decreases Weight(q, U, bound)
  {
    if q == [] then []
    else
      WalkStep(q, U, bound);
      var next := q[1..] + SubBuckets(q[0].files, q[0].level + 1, U, bound);
      var rest := Walk(next, U, bound);
      assert QueueIn([q[0]] + rest, U) by {
        forall i | 0 <= i < |[q[0]] + rest| ensures AllIn(([q[0]] + rest)[i].files, U) {
          if i > 0 {
            assert ([q[0]] + rest)[i] == rest[i - 1];
          }
        }
      }
      [q[0]] + rest
  }

  /** rList on a directory: the walk started from its children at level 0. */
  ghost function ListFrom(d: File, U: set<File>, bound: nat): (out: seq<Bucket>)
    reads U
    requires d in U && Closed(U, bound)
    ensures QueueIn(out, U)
  {
    Walk([Bucket(0, d.files)], U, bound)
  }

  /** The walk emits exactly as many buckets as the queue weighs. */
  lemma {:induction false} WalkLength(q: seq<Bucket>, U: set<File>, bound: nat)
    requires QueueIn(q, U) && Closed(U, bound)
    ensures |Walk(q, U, bound)| == Weight(q, U, bound)
    decreases Weight(q, U, bound)
  {
    if q != [] {
      WalkStep(q, U, bound);
      WalkLength(q[1..] + SubBuckets(q[0].files, q[0].level + 1, U, bound), U, bound);
    }
  }

  /** rList emits one bucket per directory of the subtree, the working
      directory and empty directories included; the first bucket is the working
      directory's child list at level 0. */
  lemma OneBucketPerDirectory(d: File, U: set<File>, bound: nat)
    requires d in U && Closed(U, bound)
    ensures |ListFrom(d, U, bound)| == DirCount(d, U, bound)
    ensures ListFrom(d, U, bound)[0] == Bucket(0, d.files)
  {
    var q := [Bucket(0, d.files)];
    WalkLength(q, U, bound);
    DirsWeightChildren(d, |d.files|, U, bound);
    assert d.files[..|d.files|] == d.files;
    assert q[1..] == [];
  }

  /** Levels of a queue: non-decreasing, and spanning at most one. */
  ghost predicate Graded(q: seq<Bucket>) {
    && (forall i, j :: 0 <= i < j < |q| ==> q[i].level <= q[j].level)
    && (q != [] ==> q[|q| - 1].level <= q[0].level + 1)
  }

  /** The walk starts with the bucket at the head of the queue. */
  lemma WalkHead(q: seq<Bucket>, U: set<File>, bound: nat)
    requires q != [] && QueueIn(q, U) && Closed(U, bound)
    ensures Walk(q, U, bound) != [] && Walk(q, U, bound)[0] == q[0]
  {
  }

  /** Taking the head off a graded queue and queueing buckets one level below
      the head keeps the queue graded, and its new head is at the old head's
      level or one more. */
  lemma GradedStep(q: seq<Bucket>, sub: seq<Bucket>)
    requires q != [] && Graded(q)
    requires forall i :: 0 <= i < |sub| ==> sub[i].level == q[0].level + 1
    ensures Graded(q[1..] + sub)
    ensures q[1..] + sub != [] ==>
      q[0].level <= (q[1..] + sub)[0].level <= q[0].level + 1
  {
    var next := q[1..] + sub;
    GradedStepOrder(q, sub);
    if next != [] {
      if |q| > 1 {
        assert next[0] == q[1];
        if sub == [] {
          assert next[|next| - 1] == q[|q| - 1];
        } else {
          assert next[|next| - 1] == sub[|sub| - 1];
        }
      } else {
        assert next == sub;
      }
    }
  }

  /** The levels of the new queue do not decrease. */
  lemma GradedStepOrder(q: seq<Bucket>, sub: seq<Bucket>)
    requires q != [] && Graded(q)
    requires forall i :: 0 <= i < |sub| ==> sub[i].level == q[0].level + 1
    ensures forall i, j :: 0 <= i < j < |q[1..] + sub| ==> (q[1..] + sub)[i].level <= (q[1..] + sub)[j].level
  {
    var next := q[1..] + sub;
    var n := |q| - 1;
    forall i, j | 0 <= i < j < |next| ensures next[i].level <= next[j].level {
      if j < n {
        assert next[i] == q[i + 1] && next[j] == q[j + 1];
      } else if i < n {
        assert next[i] == q[i + 1] && next[j] == sub[j - n];
      } else {
        assert next[i] == sub[i - n] && next[j] == sub[j - n];
      }
    }
  }

  /** Each level is the previous one or one more. */
  ghost predicate Steady(w: seq<Bucket>) {
    forall i :: 0 <= i < |w| - 1 ==> w[i].level <= w[i + 1].level <= w[i].level + 1
  }

  /** No level is below `l`. */
  ghost predicate AtLeast(w: seq<Bucket>, l: int) {
    forall i :: 0 <= i < |w| ==> l <= w[i].level
  }

  lemma ConsSteady(b: Bucket, rest: seq<Bucket>)
    requires Steady(rest) && AtLeast(rest, b.level)
    requires rest != [] ==> rest[0].level <= b.level + 1
    ensures Steady([b] + rest) && AtLeast([b] + rest, b.level)
  {
    var w := [b] + rest;
    forall i | 0 <= i < |w| - 1 ensures w[i].level <= w[i + 1].level <= w[i].level + 1 {
      if i > 0 {
        assert w[i] == rest[i - 1] && w[i + 1] == rest[i];
      }
    }
    forall i | 0 <= i < |w| ensures b.level <= w[i].level {
      if i > 0 {
        assert w[i] == rest[i - 1];
      }
    }
  }

  /** Along the walk of a graded queue, each bucket's level is the previous one
      or one more, and none is below the first bucket's level. */
  lemma {:induction false} WalkLevels(q: seq<Bucket>, U: set<File>, bound: nat)
    requires QueueIn(q, U) && Closed(U, bound) && Graded(q)
    ensures Steady(Walk(q, U, bound))
    ensures q != [] ==> AtLeast(Walk(q, U, bound), q[0].level)
    decreases Weight(q, U, bound)
  {
    if q != [] {
      WalkStep(q, U, bound);
      var sub := SubBuckets(q[0].files, q[0].level + 1, U, bound);
      var next := q[1..] + sub;
      GradedStep(q, sub);
      WalkLevels(next, U, bound);
      var rest := Walk(next, U, bound);
      assert Walk(q, U, bound) == [q[0]] + rest;
      if rest != [] {
        WalkHead(next, U, bound);
      }
      ConsSteady(q[0], rest);
    }
  }

  /** rList's levels start at 0, never decrease, and grow by at most one. */
  lemma ListLevels(d: File, U: set<File>, bound: nat)
    requires d in U && Closed(U, bound)
    ensures AtLeast(ListFrom(d, U, bound), 0)
    ensures Steady(ListFrom(d, U, bound))
  {
    WalkLevels([Bucket(0, d.files)], U, bound);
  }

  /** The buckets of the subtree of directory `d` with `d` at level `l`, depth
      first: `d`'s own child list at level `l`, then, for each Directory among
      its children in order, the buckets of that child's subtree at `l + 1`. */
  ghost function DepthBuckets(d: File, l: int, U: set<File>, bound: nat): (bs: seq<Bucket>)
    reads U
    requires d in U && Closed(U, bound)
    ensures bs != [] && bs[0] == Bucket(l, d.files)
    decreases bound - d.rank, |d.files| + 1
  {
    [Bucket(l, d.files)] + DepthBucketsPrefix(d, |d.files|, l + 1, U, bound)
  }

  /** The buckets of the subtrees of the Directories among the first `k`
      children of `d`, each such child at level `l`. */
  ghost function DepthBucketsPrefix(d: File, k: nat, l: int, U: set<File>, bound: nat): seq<Bucket>
    reads U
    requires d in U && Closed(U, bound) && k <= |d.files|
    decreases bound - d.rank, k
  {
    if k == 0 then []
    else
      var c := d.files[k - 1];
      DepthBucketsPrefix(d, k - 1, l, U, bound) + if c.isDirectory then DepthBuckets(c, l, U, bound) else []
  }

  /** The buckets of the subtrees of the Directories of `fs`, each at level `l`. */
  ghost function DepthBucketsOf(fs: seq<File>, l: int, U: set<File>, bound: nat): seq<Bucket>
    reads U
    requires AllIn(fs, U) && Closed(U, bound)
  {
    if fs == [] then []
    else
      var c := fs[|fs| - 1];
      DepthBucketsOf(fs[..|fs| - 1], l, U, bound) + if c.isDirectory then DepthBuckets(c, l, U, bound) else []
  }

  /** The buckets the walk of queue `q` is to emit: each queued bucket, followed
      by the subtree buckets of its Directories one level deeper. */
  ghost function QueueDepthBuckets(q: seq<Bucket>, U: set<File>, bound: nat): seq<Bucket>
    reads U
    requires QueueIn(q, U) && Closed(U, bound)
  {
    if q == [] then []
    else [q[0]] + DepthBucketsOf(q[0].files, q[0].level + 1, U, bound) + QueueDepthBuckets(q[1..], U, bound)
  }

  lemma {:induction false} DepthBucketsChildren(d: File, k: nat, l: int, U: set<File>, bound: nat)
    requires d in U && Closed(U, bound) && k <= |d.files|
    ensures AllIn(d.files[..k], U)
    ensures DepthBucketsOf(d.files[..k], l, U, bound) == DepthBucketsPrefix(d, k, l, U, bound)
  {
    if k > 0 {
      DepthBucketsChildren(d, k - 1, l, U, bound);
      assert d.files[..k][..k - 1] == d.files[..k - 1];
    }
  }

  /** A directory's subtree buckets are its own bucket, then those of its children. */
  lemma DepthBucketsSplit(d: File, l: int, U: set<File>, bound: nat)
    requires d in U && Closed(U, bound)
    ensures AllIn(d.files, U)
    ensures DepthBuckets(d, l, U, bound) == [Bucket(l, d.files)] + DepthBucketsOf(d.files, l + 1, U, bound)
  {
    DepthBucketsChildren(d, |d.files|, l + 1, U, bound);
    assert d.files[..|d.files|] == d.files;
  }

  lemma {:induction false} QueueDepthBucketsAppend(a: seq<Bucket>, b: seq<Bucket>, U: set<File>, bound: nat)
    requires QueueIn(a, U) && QueueIn(b, U) && Closed(U, bound)
    ensures QueueIn(a + b, U)
    ensures QueueDepthBuckets(a + b, U, bound) == QueueDepthBuckets(a, U, bound) + QueueDepthBuckets(b, U, bound)
  {
    if a == [] {
      assert a + b == b;
    } else {
      assert (a + b)[1..] == a[1..] + b;
      QueueDepthBucketsAppend(a[1..], b, U, bound);
    }
  }

  /** The buckets queued for a list of files stand for the subtree buckets of
      its Directories. */
  lemma {:induction false} SubBucketsDepth(fs: seq<File>, l: int, U: set<File>, bound: nat)
    requires AllIn(fs, U) && Closed(U, bound)
    ensures QueueDepthBuckets(SubBuckets(fs, l, U, bound), U, bound) == DepthBucketsOf(fs, l, U, bound)
  {
    if fs != [] {
      var fs', c := fs[..|fs| - 1], fs[|fs| - 1];
      SubBucketsDepth(fs', l, U, bound);
      var tail := if c.isDirectory then [Bucket(l, c.files)] else [];
      assert SubBuckets(fs, l, U, bound) == SubBuckets(fs', l, U, bound) + tail;
      assert DepthBucketsOf(fs, l, U, bound) ==
        DepthBucketsOf(fs', l, U, bound) + if c.isDirectory then DepthBuckets(c, l, U, bound) else [];
      QueueDepthBucketsAppend(SubBuckets(fs', l, U, bound), tail, U, bound);
      if c.isDirectory {
        DepthBucketsSplit(c, l, U, bound);
        assert tail[1..] == [];
        assert QueueDepthBuckets(tail, U, bound) == [tail[0]] + DepthBucketsOf(c.files, l + 1, U, bound) + [];
      }
    }
  }

  /** The walk of a queue emits its depth buckets, each as often as it occurs
      there, in breadth-first rather than depth-first order. */
  lemma {:induction false} WalkDepths(q: seq<Bucket>, U: set<File>, bound: nat)
    requires QueueIn(q, U) && Closed(U, bound)
    ensures multiset(Walk(q, U, bound)) == multiset(QueueDepthBuckets(q, U, bound))
    decreases Weight(q, U, bound)
  {
    if q != [] {
      WalkStep(q, U, bound);
      var sub := SubBuckets(q[0].files, q[0].level + 1, U, bound);
      var next := q[1..] + sub;
      WalkDepths(next, U, bound);
      QueueDepthBucketsAppend(q[1..], sub, U, bound);
      SubBucketsDepth(q[0].files, q[0].level + 1, U, bound);
    }
  }

  /** rList emits the buckets of the subtree of the working directory with
      their depths: the working directory's children at level 0 and each
      subdirectory's children one level below the list that holds it. Only the
      order differs, breadth first against depth first. */
  lemma ListDepths(d: File, U: set<File>, bound: nat)
    requires d in U && Closed(U, bound)
    ensures multiset(ListFrom(d, U, bound)) == multiset(DepthBuckets(d, 0, U, bound))
  {
    var q := [Bucket(0, d.files)];
    WalkDepths(q, U, bound);
    DepthBucketsSplit(d, 0, U, bound);
    var below := DepthBucketsOf(d.files, 1, U, bound);
    assert q[1..] == [] && QueueDepthBuckets([], U, bound) == [];
    assert QueueDepthBuckets(q, U, bound) == [q[0]] + below + [];
    assert [q[0]] + below + [] == DepthBuckets(d, 0, U, bound);
  }

  /** All files of a list of buckets, bucket after bucket. */
  function Flatten(bs: seq<Bucket>): (fs: seq<File>)
  {
    if bs == [] then [] else bs[0].files + Flatten(bs[1..])
  }

  lemma {:induction false} FlattenAppend(a: seq<Bucket>, b: seq<Bucket>)
    ensures Flatten(a + b) == Flatten(a) + Flatten(b)
  {
    if a == [] {
      assert a + b == b;
    } else {
      assert (a + b)[1..] == a[1..] + b;
      FlattenAppend(a[1..], b);
    }
  }

  lemma {:induction false} FlattenIn(bs: seq<Bucket>, U: set<File>)
    requires QueueIn(bs, U)
    ensures AllIn(Flatten(bs), U)
  {
    if bs != [] {
      assert QueueIn(bs[1..], U) by {
        forall i | 0 <= i < |bs[1..]| ensures AllIn(bs[1..][i].files, U) {
          assert bs[1..][i] == bs[i + 1];
        }
      }
      FlattenIn(bs[1..], U);
    }
  }

  /** The files of the first `i + 1` buckets are those of the first `i`, then
      those of bucket `i`. */
  lemma FlattenPrefix(bs: seq<Bucket>, i: nat, U: set<File>)
    requires QueueIn(bs, U) && i < |bs|
    ensures AllIn(Flatten(bs[..i]), U) && AllIn(bs[i].files, U)
    ensures Flatten(bs[..i + 1]) == Flatten(bs[..i]) + bs[i].files
  {
    assert bs[..i + 1] == bs[..i] + [bs[i]];
    FlattenAppend(bs[..i], [bs[i]]);
    assert [bs[i]][1..] == [];
    assert QueueIn(bs[..i], U);
    FlattenIn(bs[..i], U);
  }

  /** The files below directory `d`, depth first: each child, followed by the
      files below it when it is a Directory. */
  ghost function Subtree(d: File, U: set<File>, bound: nat): (s: seq<File>)
    reads U
    requires d in U && Closed(U, bound)
    ensures AllIn(s, U)
    decreases bound - d.rank, |d.files| + 1
  {
    SubtreePrefix(d, |d.files|, U, bound)
  }

  /** The files below the first `k` children of `d`, those children included. */
  ghost function SubtreePrefix(d: File, k: nat, U: set<File>, bound: nat): (s: seq<File>)
    reads U
    requires d in U && Closed(U, bound) && k <= |d.files|
    ensures AllIn(s, U)
    decreases bound - d.rank, k
  {
    if k == 0 then []
    else
      var c := d.files[k - 1];
      SubtreePrefix(d, k - 1, U, bound) + [c] + if c.isDirectory then Subtree(c, U, bound) else []
  }

  /** The files of `fs`, each followed by the files below it. */
  ghost function Below(fs: seq<File>, U: set<File>, bound: nat): (s: seq<File>)
    reads U
    requires AllIn(fs, U) && Closed(U, bound)
    ensures AllIn(s, U)
  {
    if fs == [] then []
    else
      var c := fs[|fs| - 1];
      Below(fs[..|fs| - 1], U, bound) + [c] + if c.isDirectory then Subtree(c, U, bound) else []
  }

  /** The files of a queue of buckets and everything below them. */
  ghost function QueueBelow(q: seq<Bucket>, U: set<File>, bound: nat): (s: seq<File>)
    reads U
    requires QueueIn(q, U) && Closed(U, bound)
  {
    if q == [] then [] else Below(q[0].files, U, bound) + QueueBelow(q[1..], U, bound)
  }

  lemma {:induction false} BelowChildren(d: File, k: nat, U: set<File>, bound: nat)
    requires d in U && Closed(U, bound) && k <= |d.files|
    ensures AllIn(d.files[..k], U)
    ensures Below(d.files[..k], U, bound) == SubtreePrefix(d, k, U, bound)
  {
    if k > 0 {
      BelowChildren(d, k - 1, U, bound);
      assert d.files[..k][..k - 1] == d.files[..k - 1];
    }
  }

  /** The files below a directory are those below its child list. */
  lemma SubtreeIsBelow(d: File, U: set<File>, bound: nat)
    requires d in U && Closed(U, bound)
    ensures AllIn(d.files, U)
    ensures Subtree(d, U, bound) == Below(d.files, U, bound)
  {
    BelowChildren(d, |d.files|, U, bound);
    assert d.files[..|d.files|] == d.files;
  }

  lemma {:induction false} QueueBelowAppend(a: seq<Bucket>, b: seq<Bucket>, U: set<File>, bound: nat)
    requires QueueIn(a, U) && QueueIn(b, U) && Closed(U, bound)
    ensures QueueIn(a + b, U)
    ensures QueueBelow(a + b, U, bound) == QueueBelow(a, U, bound) + QueueBelow(b, U, bound)
  {
    if a == [] {
      assert a + b == b;
    } else {
      assert (a + b)[1..] == a[1..] + b;
      QueueBelowAppend(a[1..], b, U, bound);
    }
  }

  /** One more file at the end of a list: what lies below grows by that file and
      what lies below it, and the queued buckets by its own bucket. */
  lemma BelowSnoc(fs: seq<File>, level: int, U: set<File>, bound: nat)
    requires fs != [] && AllIn(fs, U) && Closed(U, bound)
    ensures AllIn(fs[..|fs| - 1], U)
    ensures var c := fs[|fs| - 1];
      multiset(Below(fs, U, bound)) ==
        multiset(Below(fs[..|fs| - 1], U, bound)) + multiset{c} +
        multiset(if c.isDirectory then Subtree(c, U, bound) else [])
    ensures var c := fs[|fs| - 1];
      multiset(QueueBelow(SubBuckets(fs, level, U, bound), U, bound)) ==
        multiset(QueueBelow(SubBuckets(fs[..|fs| - 1], level, U, bound), U, bound)) +
        multiset(if c.isDirectory then Subtree(c, U, bound) else [])
  {
    var fs', c := fs[..|fs| - 1], fs[|fs| - 1];
    var tail := if c.isDirectory then [Bucket(level, c.files)] else [];
    var subs := SubBuckets(fs', level, U, bound);
    assert SubBuckets(fs, level, U, bound) == subs + tail;
    QueueBelowAppend(subs, tail, U, bound);
    if c.isDirectory {
      SubtreeIsBelow(c, U, bound);
      assert tail[1..] == [];
    }
  }

  /** What lies below a list is the list itself plus what lies below the
      buckets it queues. */
  lemma {:induction false} BelowSplit(fs: seq<File>, level: int, U: set<File>, bound: nat)
    requires AllIn(fs, U) && Closed(U, bound)
    ensures multiset(Below(fs, U, bound)) ==
      multiset(fs) + multiset(QueueBelow(SubBuckets(fs, level, U, bound), U, bound))
  {
    if fs != [] {
      var fs', c := fs[..|fs| - 1], fs[|fs| - 1];
      BelowSplit(fs', level, U, bound);
      BelowSnoc(fs, level, U, bound);
      assert fs == fs' + [c];
      Regroup(multiset(Below(fs, U, bound)), multiset(Below(fs', U, bound)),
        multiset(fs), multiset(fs'), multiset{c}, multiset(if c.isDirectory then Subtree(c, U, bound) else []),
        multiset(QueueBelow(SubBuckets(fs, level, U, bound), U, bound)),
        multiset(QueueBelow(SubBuckets(fs', level, U, bound), U, bound)));
    }
  }

  lemma Regroup(b: multiset<File>, b': multiset<File>, f: multiset<File>, f': multiset<File>,
                c: multiset<File>, x: multiset<File>, q: multiset<File>, q': multiset<File>)
    requires b == b' + c + x && b' == f' + q' && f == f' + c && q == q' + x
    ensures b == f + q
  {
  }

  /** The walk emits every file below the queued buckets, each as often as it
      occurs there. */
  lemma {:induction false} WalkCovers(q: seq<Bucket>, U: set<File>, bound: nat)
    requires QueueIn(q, U) && Closed(U, bound)
    ensures multiset(Flatten(Walk(q, U, bound))) == multiset(QueueBelow(q, U, bound))
    decreases Weight(q, U, bound)
  {
    if q != [] {
      WalkStep(q, U, bound);
      var sub := SubBuckets(q[0].files, q[0].level + 1, U, bound);
      var next := q[1..] + sub;
      WalkCovers(next, U, bound);
      QueueBelowAppend(q[1..], sub, U, bound);
      BelowSplit(q[0].files, q[0].level + 1, U, bound);
      FlattenAppend([q[0]], Walk(next, U, bound));
      assert Flatten([q[0]]) == q[0].files by {
        assert [q[0]][1..] == [];
      }
    }
  }

  /** The files rList emits are exactly the files below the working directory,
      with their multiplicities. */
  lemma ListCoversSubtree(d: File, U: set<File>, bound: nat)
    requires d in U && Closed(U, bound)
    ensures multiset(Flatten(ListFrom(d, U, bound))) == multiset(Subtree(d, U, bound))
  {
    var q := [Bucket(0, d.files)];
    WalkCovers(q, U, bound);
    SubtreeIsBelow(d, U, bound);
    assert q[1..] == [];
    assert QueueBelow(q, U, bound) == Below(d.files, U, bound);
  }

  /** Taking the same element off two lists with equal multisets leaves lists
      with equal multisets. */
  lemma MultisetRemove(a: seq<File>, x: File, b: seq<File>, k: nat)
    requires k < |b| && b[k] == x && multiset(a + [x]) == multiset(b)
    ensures multiset(a) == multiset(b[..k] + b[k + 1..])
  {
    var b' := b[..k] + b[k + 1..];
    assert b == b[..k] + [x] + b[k + 1..];
    assert multiset(b) == multiset(b[..k]) + multiset{x} + multiset(b[k + 1..]);
    assert multiset(b') == multiset(b[..k]) + multiset(b[k + 1..]);
    assert multiset(a) + multiset{x} == multiset(b') + multiset{x};
    forall y ensures multiset(a)[y] == multiset(b')[y] {
      assert (multiset(a) + multiset{x})[y] == (multiset(b') + multiset{x})[y];
    }
  }

  /** The sizes of a list are those of the list without its `k`-th file, plus
      that file's size. */
  lemma SumSizesRemove(b: seq<File>, k: nat, U: set<File>, bound: nat)
    requires k < |b| && AllIn(b, U) && Closed(U, bound)
    ensures AllIn(b[..k] + b[k + 1..], U)
    ensures SumSizes(b, U, bound) == SumSizes(b[..k] + b[k + 1..], U, bound) + Size(b[k], U, bound)
  {
    var x := b[k];
    assert b == b[..k] + [x] + b[k + 1..];
    SumSizesAppend(b[..k], [x], U, bound);
    SumSizesAppend(b[..k] + [x], b[k + 1..], U, bound);
    SumSizesAppend(b[..k], b[k + 1..], U, bound);
    assert SumSizes([x], U, bound) == Size(x, U, bound) by {
      assert [x][..0] == [];
    }
  }

  /** Summing sizes does not depend on the order of the files. */
  lemma {:induction false} SumSizesPermutation(a: seq<File>, b: seq<File>, U: set<File>, bound: nat)
    requires AllIn(a, U) && AllIn(b, U) && Closed(U, bound) && multiset(a) == multiset(b)
    ensures SumSizes(a, U, bound) == SumSizes(b, U, bound)
    decreases |a|
  {
    if a == [] {
      assert |b| == |multiset(b)| == 0;
    } else {
      var x, a' := a[|a| - 1], a[..|a| - 1];
      assert a == a' + [x];
      assert x in multiset(b);
      var k :| 0 <= k < |b| && b[k] == x;
      MultisetRemove(a', x, b, k);
      SumSizesRemove(b, k, U, bound);
      SumSizesPermutation(a', b[..k] + b[k + 1..], U, bound);
    }
  }

  /** The sizes of everything below a list: the list's own sizes, then for each
      Directory in it everything below that Directory once more. */
  lemma {:induction false} BelowSizes(fs: seq<File>, U: set<File>, bound: nat)
    requires AllIn(fs, U) && Closed(U, bound)
    ensures SumSizes(Below(fs, U, bound), U, bound) >= SumSizes(fs, U, bound)
  {
    if fs != [] {
      var fs', c := fs[..|fs| - 1], fs[|fs| - 1];
      BelowSizes(fs', U, bound);
      var extra := if c.isDirectory then Subtree(c, U, bound) else [];
      SumSizesAppend(Below(fs', U, bound), [c], U, bound);
      SumSizesAppend(Below(fs', U, bound) + [c], extra, U, bound);
      assert SumSizes([c], U, bound) == Size(c, U, bound) by {
        assert [c][..0] == [];
      }
    }
  }

  /** The total the quota check adds up over rList's buckets is the sum of the
      sizes of every file below the working directory, and it is never less than
      the working directory's own size less its 40-unit overhead: files nested
      below a subdirectory are counted in its size and again by themselves. */
  lemma QuotaTotal(d: File, U: set<File>, bound: nat)
    requires d in U && Closed(U, bound) && d.isDirectory
    ensures AllIn(Flatten(ListFrom(d, U, bound)), U)
    ensures SumSizes(Flatten(ListFrom(d, U, bound)), U, bound) == SumSizes(Subtree(d, U, bound), U, bound)
    ensures SumSizes(Flatten(ListFrom(d, U, bound)), U, bound) + EmptyDirSize >= Size(d, U, bound)
  {
    FlattenIn(ListFrom(d, U, bound), U);
    ListCoversSubtree(d, U, bound);
    SumSizesPermutation(Flatten(ListFrom(d, U, bound)), Subtree(d, U, bound), U, bound);
    SubtreeIsBelow(d, U, bound);
    BelowSizes(d.files, U, bound);
    DirectorySize(d, U, bound);
  }

  /** rList: the breadth-first loop over a queue of buckets, one bucket per
      directory holding its children and their depth below `d`. */
  method ListBuckets(d: File, ghost U: set<File>, ghost bound: nat) returns (buckets: seq<Bucket>)
    requires d in U && Closed(U, bound)
    ensures buckets == ListFrom(d, U, bound)
  {
    var queue := [Bucket(0, d.files)];
    buckets := [];
    ghost var goal := ListFrom(d, U, bound);
    ListFromStart(d, U, bound);
    while queue != []
      invariant QueueIn(queue, U)
      invariant buckets + Walk(queue, U, bound) == goal
      decreases Weight(queue, U, bound)
    {
      buckets, queue := TakeBucket(buckets, queue, U, bound);
    }
    assert buckets + [] == buckets;
  }

  /** One turn of rList's loop: the head of the queue is emitted and the
      buckets of its Directories are queued. */
  method TakeBucket(emitted: seq<Bucket>, queue: seq<Bucket>, ghost U: set<File>, ghost bound: nat)
    returns (emitted': seq<Bucket>, queue': seq<Bucket>)
    requires queue != [] && QueueIn(queue, U) && Closed(U, bound)
    ensures emitted' == emitted + [queue[0]]
    ensures QueueIn(queue', U)
    ensures Weight(queue', U, bound) < Weight(queue, U, bound)
    ensures emitted' + Walk(queue', U, bound) == emitted + Walk(queue, U, bound)
  {
    var target := queue[0];
    assert AllIn(target.files, U);
    emitted' := emitted + [target];
    queue' := EnqueueDirectories(queue[1..], target.files, target.level + 1, U, bound);
    WalkAdvance(emitted, queue, queue', U, bound);
  }

  /** The inner loop of rList: a bucket at `level` for each Directory of `fs`,
      in order, added to the back of the queue. */
  method EnqueueDirectories(queue: seq<Bucket>, fs: seq<File>, level: int, ghost U: set<File>, ghost bound: nat)
    returns (q: seq<Bucket>)
    requires AllIn(fs, U) && Closed(U, bound)
    ensures q == queue + SubBuckets(fs, level, U, bound)
  {
    q := queue;
    for k := 0 to |fs|
      invariant q == queue + SubBuckets(fs[..k], level, U, bound)
    {
      assert fs[..k + 1][..k] == fs[..k];
      if fs[k].isDirectory {
        q := q + [Bucket(level, fs[k].files)];
      }
    }
    assert fs[..|fs|] == fs;
  }

  /** The nested loop of checkDiskSize: File.getSize of every file of every
      bucket, added up. */
  method BucketsSize(buckets: seq<Bucket>, ghost U: set<File>, ghost bound: nat) returns (total: int)
    requires QueueIn(buckets, U) && Closed(U, bound)
    ensures AllIn(Flatten(buckets), U)
    ensures total == SumSizes(Flatten(buckets), U, bound)
  {
    total := 0;
    for i := 0 to |buckets|
      invariant AllIn(Flatten(buckets[..i]), U)
      invariant total == SumSizes(Flatten(buckets[..i]), U, bound)
    {
      FlattenPrefix(buckets, i, U);
      total := AddSizes(total, Flatten(buckets[..i]), buckets[i].files, U, bound);
    }
    assert buckets[..|buckets|] == buckets;
  }

  /** The inner loop of checkDiskSize: adds the sizes of `fs` to `acc`, the
      sizes of the files `done` already visited. */
  method AddSizes(acc: int, ghost done: seq<File>, fs: seq<File>, ghost U: set<File>, ghost bound: nat) returns (total: int)
    requires AllIn(done, U) && AllIn(fs, U) && Closed(U, bound)
    requires acc == SumSizes(done, U, bound)
    ensures AllIn(done + fs, U)
    ensures total == SumSizes(done + fs, U, bound)
  {
    total := acc;
    assert done + fs[..0] == done;
    for j := 0 to |fs|
      invariant AllIn(done + fs[..j], U)
      invariant total == SumSizes(done + fs[..j], U, bound)
    {
      var size := fs[j].GetSize(U, bound);
      SumSizesSnoc(done + fs[..j], fs[j], U, bound);
      assert done + fs[..j + 1] == (done + fs[..j]) + [fs[j]];
      total := size + total;
    }
    assert fs[..|fs|] == fs;
  }
}
