/** The filters behind CVFS.searchByCriterion and searchRecursivelyByCriterion.

    A search keeps, in order, the files a criterion accepts. Java's stream stops
    at the first file whose evaluation throws and the whole search fails, so a
    filter either fails or yields the accepted files. */
module Filtering {
  import opened Outcomes
  import opened FileTree
  import opened Criteria
  import opened Listing

  /** What a criterion sees of file `f`: name, kind, type and File.getSize. */
  ghost function Info(f: File, U: set<File>, bound: nat): (i: FileInfo)
    reads U
    requires f in U && Closed(U, bound)
  {
    FileInfo(f.name, !f.isDirectory, f.docType, Size(f, U, bound))
  }

  /** `files.stream().filter(criterion).collect(...)`: `None` when evaluating
      some file fails, otherwise the files the criterion accepts, in order. */
  ghost function Select(c: Criterion, fs: seq<File>, U: set<File>, bound: nat): (r: Option<seq<File>>)
    reads U
    requires AllIn(fs, U) && Closed(U, bound)
  {
    if fs == [] then Some([])
    else
      var init := Select(c, fs[..|fs| - 1], U, bound);
      var last := fs[|fs| - 1];
      var e := Eval(c, Info(last, U, bound));
      if init.None? || e.None? then None
      else if e.value then Some(init.value + [last])
      else init
  }

  /** A filter fails exactly when the criterion fails on one of the files. */
  lemma {:induction false} SelectFails(c: Criterion, fs: seq<File>, U: set<File>, bound: nat)
    requires AllIn(fs, U) && Closed(U, bound)
    ensures Select(c, fs, U, bound).None? <==>
      exists i :: 0 <= i < |fs| && Eval(c, Info(fs[i], U, bound)).None?
  {
    if fs != [] {
      var fs' := fs[..|fs| - 1];
      SelectFails(c, fs', U, bound);
      if exists i :: 0 <= i < |fs'| && Eval(c, Info(fs'[i], U, bound)).None? {
        var i :| 0 <= i < |fs'| && Eval(c, Info(fs'[i], U, bound)).None?;
        assert fs[i] == fs'[i];
      }
      if exists i :: 0 <= i < |fs| && Eval(c, Info(fs[i], U, bound)).None? {
        var i :| 0 <= i < |fs| && Eval(c, Info(fs[i], U, bound)).None?;
        if i < |fs'| {
          assert fs'[i] == fs[i];
        }
      }
    }
  }

  /** A successful filter keeps exactly the files the criterion accepts. */
  lemma {:induction false} SelectMembers(c: Criterion, fs: seq<File>, U: set<File>, bound: nat)
    requires AllIn(fs, U) && Closed(U, bound) && Select(c, fs, U, bound).Some?
    ensures forall x :: x in Select(c, fs, U, bound).value <==>
      x in fs && Eval(c, Info(x, U, bound)) == Some(true)
  {
    if fs != [] {
      var fs' := fs[..|fs| - 1];
      SelectMembers(c, fs', U, bound);
      assert fs == fs' + [fs[|fs| - 1]];
    }
  }

  /** A filter never lengthens a list. */
  lemma {:induction false} SelectShorter(c: Criterion, fs: seq<File>, U: set<File>, bound: nat)
    requires AllIn(fs, U) && Closed(U, bound) && Select(c, fs, U, bound).Some?
    ensures |Select(c, fs, U, bound).value| <= |fs|
    ensures AllIn(Select(c, fs, U, bound).value, U)
  {
    if fs != [] {
      SelectShorter(c, fs[..|fs| - 1], U, bound);
    }
  }

  /** Filtering keeps the order: the filter of a concatenation is the
      concatenation of the filters. */
  lemma {:induction false} SelectAppend(c: Criterion, a: seq<File>, b: seq<File>, U: set<File>, bound: nat)
    requires AllIn(a, U) && AllIn(b, U) && Closed(U, bound)
    ensures AllIn(a + b, U)
    ensures Select(c, a + b, U, bound) ==
      if Select(c, a, U, bound).None? || Select(c, b, U, bound).None? then None
      else Some(Select(c, a, U, bound).value + Select(c, b, U, bound).value)
  {
    if b == [] {
      assert a + b == a;
      if Select(c, a, U, bound).Some? {
        assert Select(c, a, U, bound).value + [] == Select(c, a, U, bound).value;
      }
    } else {
      var b' := b[..|b| - 1];
      SelectAppend(c, a, b', U, bound);
      assert (a + b)[..|a + b| - 1] == a + b';
      assert (a + b)[|a + b| - 1] == b[|b| - 1];
      if Select(c, a, U, bound).Some? && Select(c, b', U, bound).Some? {
        var x := b[|b| - 1];
        if Eval(c, Info(x, U, bound)) == Some(true) {
          assert Select(c, a, U, bound).value + Select(c, b', U, bound).value + [x] ==
            Select(c, a, U, bound).value + (Select(c, b', U, bound).value + [x]);
        }
      }
    }
  }

  /** The loop of searchRecursivelyByCriterion: each bucket filtered, keeping its
      level, and dropped when nothing in it is accepted. */
  ghost function SelectBuckets(c: Criterion, bs: seq<Bucket>, U: set<File>, bound: nat): (r: Option<seq<Bucket>>)
    reads U
    requires QueueIn(bs, U) && Closed(U, bound)
    ensures r.Some? ==> forall j :: 0 <= j < |r.value| ==> r.value[j].files != []
  {
    if bs == [] then Some([])
    else
      var init := SelectBuckets(c, bs[..|bs| - 1], U, bound);
      var last := bs[|bs| - 1];
      var kept := Select(c, last.files, U, bound);
      if init.None? || kept.None? then None
      else if kept.value == [] then init
      else Some(init.value + [Bucket(last.level, kept.value)])
  }

  lemma {:induction false} FlattenSnoc(bs: seq<Bucket>, b: Bucket)
    ensures Flatten(bs + [b]) == Flatten(bs) + b.files
  {
    FlattenAppend(bs, [b]);
    assert [b][1..] == [];
  }

  /** The files a recursive search returns, read bucket after bucket, are
      exactly the filter of the whole listing read the same way, and the search
      fails exactly when that filter does. */
  lemma {:induction false} SelectBucketsFlatten(c: Criterion, bs: seq<Bucket>, U: set<File>, bound: nat)
    requires QueueIn(bs, U) && Closed(U, bound)
    ensures AllIn(Flatten(bs), U)
    ensures SelectBuckets(c, bs, U, bound).None? <==> Select(c, Flatten(bs), U, bound).None?
    ensures SelectBuckets(c, bs, U, bound).Some? ==>
      Flatten(SelectBuckets(c, bs, U, bound).value) == Select(c, Flatten(bs), U, bound).value
  {
    FlattenIn(bs, U);
    if bs != [] {
      var bs', last := bs[..|bs| - 1], bs[|bs| - 1];
      assert QueueIn(bs', U);
      SelectBucketsFlatten(c, bs', U, bound);
      assert bs == bs' + [last];
      FlattenSnoc(bs', last);
      FlattenIn(bs', U);
      SelectAppend(c, Flatten(bs'), last.files, U, bound);
      var init := SelectBuckets(c, bs', U, bound);
      var kept := Select(c, last.files, U, bound);
      if init.Some? && kept.Some? {
        if kept.value != [] {
          FlattenSnoc(init.value, Bucket(last.level, kept.value));
        } else {
          assert Flatten(init.value) + [] == Flatten(init.value);
        }
      }
    }
  }

  /** The positions of the buckets of `bs` that a recursive search keeps: those
      whose filter accepts at least one file. */
  ghost function KeptIndices(c: Criterion, bs: seq<Bucket>, U: set<File>, bound: nat): (m: seq<int>)
    reads U
    requires QueueIn(bs, U) && Closed(U, bound)
    ensures forall j :: 0 <= j < |m| ==> 0 <= m[j] < |bs|
  {
    if bs == [] then []
    else
      var init := KeptIndices(c, bs[..|bs| - 1], U, bound);
      var kept := Select(c, bs[|bs| - 1].files, U, bound);
      if kept.Some? && kept.value != [] then init + [|bs| - 1] else init
  }

  /** A successful recursive search filtered every bucket successfully. */
  lemma {:induction false} SelectBucketsEach(c: Criterion, bs: seq<Bucket>, U: set<File>, bound: nat)
    requires QueueIn(bs, U) && Closed(U, bound) && SelectBuckets(c, bs, U, bound).Some?
    ensures forall i :: 0 <= i < |bs| ==> Select(c, bs[i].files, U, bound).Some?
  {
    if bs != [] {
      var bs' := bs[..|bs| - 1];
      assert QueueIn(bs', U);
      SelectBucketsEach(c, bs', U, bound);
      assert forall i :: 0 <= i < |bs'| ==> bs[i] == bs'[i];
    }
  }

  /** The kept positions are strictly increasing. */
  lemma {:induction false} KeptIndicesIncrease(c: Criterion, bs: seq<Bucket>, U: set<File>, bound: nat)
    requires QueueIn(bs, U) && Closed(U, bound)
    ensures forall j, k :: 0 <= j < k < |KeptIndices(c, bs, U, bound)| ==>
      KeptIndices(c, bs, U, bound)[j] < KeptIndices(c, bs, U, bound)[k]
  {
    if bs != [] {
      var bs' := bs[..|bs| - 1];
      assert QueueIn(bs', U);
      KeptIndicesIncrease(c, bs', U, bound);
      var m', m := KeptIndices(c, bs', U, bound), KeptIndices(c, bs, U, bound);
      var kept := Select(c, bs[|bs| - 1].files, U, bound);
      if kept.Some? && kept.value != [] {
        assert m == m' + [|bs'|];
        forall j, k | 0 <= j < k < |m| ensures m[j] < m[k] {
          assert m[j] == m'[j] && 0 <= m'[j] < |bs'|;
          if k < |m'| {
            assert m[k] == m'[k];
          }
        }
      } else {
        assert m == m';
      }
    }
  }

  /** Every position a recursive search skips holds a bucket that filters to
      nothing. */
  lemma {:induction false} KeptIndicesSkip(c: Criterion, bs: seq<Bucket>, U: set<File>, bound: nat)
    requires QueueIn(bs, U) && Closed(U, bound) && SelectBuckets(c, bs, U, bound).Some?
    ensures forall i :: 0 <= i < |bs| && i !in KeptIndices(c, bs, U, bound) ==>
      Select(c, bs[i].files, U, bound) == Some([])
  {
    if bs != [] {
      var n := |bs| - 1;
      var bs' := bs[..n];
      assert QueueIn(bs', U);
      KeptIndicesSkip(c, bs', U, bound);
      var m' := KeptIndices(c, bs', U, bound);
      assert forall i :: 0 <= i < n ==> bs[i] == bs'[i];
      assert n !in m';
    }
  }

  /** The buckets of a successful recursive search are, one to one and in
      order, the listing's buckets at the kept positions, each with its level
      and the filter of its files. */
  lemma {:induction false} KeptIndicesMatch(c: Criterion, bs: seq<Bucket>, U: set<File>, bound: nat)
    requires QueueIn(bs, U) && Closed(U, bound) && SelectBuckets(c, bs, U, bound).Some?
    ensures forall i :: 0 <= i < |bs| ==> Select(c, bs[i].files, U, bound).Some?
    ensures var r, m := SelectBuckets(c, bs, U, bound).value, KeptIndices(c, bs, U, bound);
      && |m| == |r|
      && forall j :: 0 <= j < |m| ==>
           r[j] == Bucket(bs[m[j]].level, Select(c, bs[m[j]].files, U, bound).value)
  {
    SelectBucketsEach(c, bs, U, bound);
    if bs != [] {
      var n := |bs| - 1;
      var bs', last := bs[..n], bs[n];
      assert QueueIn(bs', U);
      KeptIndicesMatch(c, bs', U, bound);
      var r', m' := SelectBuckets(c, bs', U, bound).value, KeptIndices(c, bs', U, bound);
      var kept := Select(c, last.files, U, bound);
      var r, m := SelectBuckets(c, bs, U, bound).value, KeptIndices(c, bs, U, bound);
      if kept.value != [] {
        assert r == r' + [Bucket(last.level, kept.value)] && m == m' + [n];
        forall j | 0 <= j < |m| ensures r[j] == Bucket(bs[m[j]].level, Select(c, bs[m[j]].files, U, bound).value) {
          if j < |m'| {
            assert r[j] == r'[j] && m[j] == m'[j] && bs[m'[j]] == bs'[m'[j]];
          }
        }
      } else {
        forall j | 0 <= j < |m| ensures r[j] == Bucket(bs[m[j]].level, Select(c, bs[m[j]].files, U, bound).value) {
          assert bs[m'[j]] == bs'[m'[j]];
        }
      }
    }
  }

  /** A successful recursive search matches its buckets one to one, in order,
      with the listing's buckets at strictly increasing kept positions: each
      keeps the level of its listing bucket and holds the filter of that
      bucket's files. Every bucket of the listing that is skipped filters to
      nothing. */
  lemma SelectBucketsIndices(c: Criterion, bs: seq<Bucket>, U: set<File>, bound: nat)
    requires QueueIn(bs, U) && Closed(U, bound) && SelectBuckets(c, bs, U, bound).Some?
    ensures forall i :: 0 <= i < |bs| ==> Select(c, bs[i].files, U, bound).Some?
    ensures var r, m := SelectBuckets(c, bs, U, bound).value, KeptIndices(c, bs, U, bound);
      && |m| == |r|
      && (forall j, k :: 0 <= j < k < |m| ==> m[j] < m[k])
      && (forall j :: 0 <= j < |m| ==>
            r[j] == Bucket(bs[m[j]].level, Select(c, bs[m[j]].files, U, bound).value))
    ensures forall i :: 0 <= i < |bs| && i !in KeptIndices(c, bs, U, bound) ==>
      Select(c, bs[i].files, U, bound) == Some([])
  {
    KeptIndicesMatch(c, bs, U, bound);
    KeptIndicesIncrease(c, bs, U, bound);
    KeptIndicesSkip(c, bs, U, bound);
  }

  /** A successful recursive search from directory `d` returns exactly the files
      below `d` that the criterion accepts. */
  lemma RecursiveSearchMembers(c: Criterion, d: File, U: set<File>, bound: nat)
    requires d in U && Closed(U, bound)
    requires SelectBuckets(c, ListFrom(d, U, bound), U, bound).Some?
    ensures forall x :: x in Flatten(SelectBuckets(c, ListFrom(d, U, bound), U, bound).value) <==>
      x in Subtree(d, U, bound) && Eval(c, Info(x, U, bound)) == Some(true)
  {
    var bs := ListFrom(d, U, bound);
    SelectBucketsFlatten(c, bs, U, bound);
    SelectMembers(c, Flatten(bs), U, bound);
    ListCoversSubtree(d, U, bound);
    forall x ensures x in Flatten(bs) <==> x in Subtree(d, U, bound) {
      assert x in Flatten(bs) <==> x in multiset(Flatten(bs));
      assert x in Subtree(d, U, bound) <==> x in multiset(Subtree(d, U, bound));
    }
  }

  /** Once a prefix fails to filter, the whole list does. */
  lemma {:induction false} SelectPrefixFails(c: Criterion, fs: seq<File>, k: nat, U: set<File>, bound: nat)
    requires AllIn(fs, U) && Closed(U, bound) && k <= |fs|
    requires Select(c, fs[..k], U, bound).None?
    ensures Select(c, fs, U, bound).None?
    decreases |fs| - k
  {
    if k < |fs| {
      var k' := k + 1;
      assert fs[..k'][..k] == fs[..k];
      assert Select(c, fs[..k'], U, bound).None?;
      SelectPrefixFails(c, fs, k', U, bound);
    } else {
      assert fs[..k] == fs;
    }
  }

  /** Once a prefix of the buckets fails to filter, the whole search does. */
  lemma {:induction false} SelectBucketsPrefixFails(c: Criterion, bs: seq<Bucket>, k: nat, U: set<File>, bound: nat)
    requires QueueIn(bs, U) && Closed(U, bound) && k <= |bs|
    requires SelectBuckets(c, bs[..k], U, bound).None?
    ensures SelectBuckets(c, bs, U, bound).None?
    decreases |bs| - k
  {
    if k < |bs| {
      var k' := k + 1;
      assert bs[..k'][..k] == bs[..k];
      assert SelectBuckets(c, bs[..k'], U, bound).None?;
      SelectBucketsPrefixFails(c, bs, k', U, bound);
    } else {
      assert bs[..k] == bs;
    }
  }

  /** The lookup both searches start with (getFilePredicateFromCriterionName):
      an unregistered name, or a null registry entry, fails before any file is
      looked at. */
  function Lookup(registry: map<string, Criterion>, name: string): (r: Result<Criterion>)
    ensures r.Ok? <==> name in registry && registry[name] != NullCriterion
    ensures name !in registry ==> r == Err(CriterionNotFound)
    ensures name in registry && registry[name] == NullCriterion ==> r == Err(NullReference)
    ensures r.Ok? ==> r.value == registry[name]
  {
    if name !in registry then Err(CriterionNotFound)
    else if registry[name] == NullCriterion then Err(NullReference)
    else Ok(registry[name])
  }

  /** CVFS.searchByCriterion on directory `d`. */
  ghost function SearchOutcome(registry: map<string, Criterion>, name: string, d: File, U: set<File>, bound: nat): Result<seq<File>>
    reads U
    requires d in U && Closed(U, bound)
  {
    var c := Lookup(registry, name);
    if c.Err? then Err(c.error)
    else
      var s := Select(c.value, d.files, U, bound);
      if s.None? then Err(EvaluationFailed) else Ok(s.value)
  }

  /** CVFS.searchRecursivelyByCriterion on directory `d`. */
  ghost function RecursiveSearchOutcome(registry: map<string, Criterion>, name: string, d: File, U: set<File>, bound: nat): Result<seq<Bucket>>
    reads U
    requires d in U && Closed(U, bound)
  {
    var c := Lookup(registry, name);
    if c.Err? then Err(c.error)
    else
      var s := SelectBuckets(c.value, ListFrom(d, U, bound), U, bound);
      if s.None? then Err(EvaluationFailed) else Ok(s.value)
  }

  /** filterFilesByPredicate: the stream filter, one file after another;
      evaluating a file may throw, which ends the whole search. */
  method Filter(c: Criterion, fs: seq<File>, ghost U: set<File>, ghost bound: nat) returns (r: Option<seq<File>>)
    requires AllIn(fs, U) && Closed(U, bound)
    ensures r == Select(c, fs, U, bound)
  {
    var kept := [];
    for i := 0 to |fs|
      invariant Select(c, fs[..i], U, bound) == Some(kept)
    {
      assert fs[..i + 1][..i] == fs[..i];
      var size := fs[i].GetSize(U, bound);
      var accepted := Eval(c, FileInfo(fs[i].name, !fs[i].isDirectory, fs[i].docType, size));
      if accepted.None? {
        SelectPrefixFails(c, fs, i + 1, U, bound);
        return None;
      }
      if accepted.value {
        kept := kept + [fs[i]];
      }
    }
    assert fs[..|fs|] == fs;
    r := Some(kept);
  }

  /** Filtering one more bucket extends the search of the buckets before it. */
  lemma SelectBucketsStep(c: Criterion, bs: seq<Bucket>, i: nat, U: set<File>, bound: nat)
    requires QueueIn(bs, U) && Closed(U, bound) && i < |bs|
    ensures QueueIn(bs[..i], U) && QueueIn(bs[..i + 1], U) && AllIn(bs[i].files, U)
    ensures SelectBuckets(c, bs[..i + 1], U, bound) ==
      if SelectBuckets(c, bs[..i], U, bound).None? || Select(c, bs[i].files, U, bound).None? then None
      else if Select(c, bs[i].files, U, bound).value == [] then SelectBuckets(c, bs[..i], U, bound)
      else Some(SelectBuckets(c, bs[..i], U, bound).value + [Bucket(bs[i].level, Select(c, bs[i].files, U, bound).value)])
  {
    assert bs[..i + 1][..i] == bs[..i];
    assert bs[..i + 1][i] == bs[i];
  }

  /** The loop of searchRecursivelyByCriterion over the buckets of rList. */
  method FilterBuckets(c: Criterion, bs: seq<Bucket>, ghost U: set<File>, ghost bound: nat) returns (r: Option<seq<Bucket>>)
    requires QueueIn(bs, U) && Closed(U, bound)
    ensures r == SelectBuckets(c, bs, U, bound)
  {
    var filtered := [];
    for i := 0 to |bs|
      invariant Select(c, [], U, bound) == Some([])
      invariant SelectBuckets(c, bs[..i], U, bound) == Some(filtered)
    {
      SelectBucketsStep(c, bs, i, U, bound);
      var files := Filter(c, bs[i].files, U, bound);
      if files.None? {
        SelectBucketsPrefixFails(c, bs, i + 1, U, bound);
        return None;
      }
      if files.value != [] {
        filtered := filtered + [Bucket(bs[i].level, files.value)];
      }
    }
    assert bs[..|bs|] == bs;
    r := Some(filtered);
  }
}
