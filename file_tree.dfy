/** Files of the virtual file system (File.java, Document.java, Directory.java).

    One class stands for both kinds of file: a Document carries a fixed type and
    content, a Directory an ordered child list that the file-system service
    changes in place. Names are mutable (`SetName`). Every file also carries a
    ghost `rank`, its position in allocation order: a file is always created
    after the directory it is put into, so children outrank their parent, which
    is what makes sizes and traversals well defined. */
module FileTree {
  import opened Outcomes
  import opened Text

  /** File.EMPTY_DIR_SIZE: the fixed overhead every file, of either kind, is charged. */
  const EmptyDirSize: int := 40

  /** The only types Document.validateDocumentType accepts. */
  const DocumentTypes: seq<string> := ["txt", "html", "java", "css"]

  /** File.validateFileName: blank after trimming, longer than 10 UTF-16 code
      units, or not alphanumeric, checked in that order. */
  function ValidateFileName(name: string): (r: Outcome)
    ensures r.Pass? <==> ValidFileName(name)
    ensures Blank(name) ==> r == Fail(EmptyName)
    ensures !Blank(name) && Utf16Length(name) > 10 ==> r == Fail(NameTooLong)
    ensures !Blank(name) && Utf16Length(name) <= 10 && !IsAlphanumericWord(name) ==> r == Fail(NameNotAlphanumeric)
  {
    if Blank(name) then
      assert |name| > 0 ==> IsTrimmed(name[0]);
      Fail(EmptyName)
    else if Utf16Length(name) > 10 then
      assert IsAlphanumericWord(name) ==> Utf16Length(name) == |name| by {
        if IsAlphanumericWord(name) { AlphanumericUtf16Length(name); }
      }
      Fail(NameTooLong)
    else if !IsAlphanumericWord(name) then Fail(NameNotAlphanumeric)
    else Pass
  }

  /** Six characters above U+FFFF make twelve code units: the name is rejected
      as too long before the pattern is tried. */
  lemma SupplementaryNameTooLong()
    ensures ValidateFileName("\U{1F600}\U{1F600}\U{1F600}\U{1F600}\U{1F600}\U{1F600}") == Fail(NameTooLong)
  {
  }

  /** The names File accepts: at most 10 characters matching `^[a-zA-Z0-9]+$`
      (such characters are one UTF-16 code unit each). */
  predicate ValidFileName(name: string) {
    |name| <= 10 && IsAlphanumericWord(name)
  }

  /** Document.validateDocumentType. */
  predicate ValidDocumentType(docType: string) {
    docType in DocumentTypes
  }

  class File {
    var name: string
    const isDirectory: bool
    /** The type of a Document; empty for a Directory. */
    const docType: string
    /** The content of a Document; empty for a Directory. */
    const content: string
    /** The children of a Directory, in insertion order; a Document never gets any. */
    var files: seq<File>
    ghost const rank: nat

    constructor Document(name: string, docType: string, content: string, ghost rank: nat)
      requires ValidFileName(name) && ValidDocumentType(docType)
      ensures this.name == name && !isDirectory
      ensures this.docType == docType && this.content == content
      ensures files == [] && this.rank == rank
    {
      this.name := name;
      this.isDirectory := false;
      this.docType := docType;
      this.content := content;
      this.files := [];
      this.rank := rank;
    }

    constructor Directory(name: string, ghost rank: nat)
      requires ValidFileName(name)
      ensures this.name == name && isDirectory
      ensures docType == "" && content == ""
      ensures files == [] && this.rank == rank
    {
      this.name := name;
      this.isDirectory := true;
      this.docType := "";
      this.content := "";
      this.files := [];
      this.rank := rank;
    }

    /** File.setName: validates first, so a rejected name leaves the old one in place. */
    method SetName(newName: string) returns (r: Outcome)
      modifies this`name
      ensures r == ValidateFileName(newName)
      ensures name == if r.Pass? then newName else old(name)
    {
      r := ValidateFileName(newName);
      if r.Pass? {
        name := newName;
      }
    }

    /** File.getSize: Document.getSize for a Document, the accumulating loop of
        Directory.getSize for a Directory. */
    method GetSize(ghost U: set<File>, ghost bound: nat) returns (s: int)
      requires this in U && Closed(U, bound)
      ensures s == Size(this, U, bound)
      decreases bound - rank
    {
      if !isDirectory {
        return EmptyDirSize + Utf16Length(content) * 2;
      }
      var total := 0;
      for i := 0 to |files|
        invariant total == ChildrenSize(this, i, U, bound)
      {
        var childSize := files[i].GetSize(U, bound);
        total := total + childSize;
      }
      s := total + EmptyDirSize;
    }
  }

  /** The checks of the Document constructor, in order: the name (File), then
      the type (Document.validateDocumentType). */
  function ValidateDocument(name: string, docType: string): (r: Outcome)
    ensures r.Pass? <==> ValidFileName(name) && ValidDocumentType(docType)
    ensures !ValidFileName(name) ==> r == ValidateFileName(name)
    ensures ValidFileName(name) && !ValidDocumentType(docType) ==> r == Fail(InvalidDocumentType)
  {
    var v := ValidateFileName(name);
    if v.Fail? then v
    else if !ValidDocumentType(docType) then Fail(InvalidDocumentType)
    else Pass
  }

  /** The Document constructor: the name is checked before the type. */
  method NewDocument(name: string, docType: string, content: string, ghost rank: nat)
    returns (r: Result<File>)
    ensures r.Err? <==> ValidateDocument(name, docType).Fail?
    ensures r.Err? ==> Fail(r.error) == ValidateDocument(name, docType)
    ensures r.Ok? ==> fresh(r.value) && r.value.name == name && !r.value.isDirectory
    ensures r.Ok? ==> r.value.docType == docType && r.value.content == content
    ensures r.Ok? ==> r.value.files == [] && r.value.rank == rank
  {
    var v := ValidateFileName(name);
    if v.Fail? {
      return Err(v.error);
    }
    if !ValidDocumentType(docType) {
      return Err(InvalidDocumentType);
    }
    var doc := new File.Document(name, docType, content, rank);
    r := Ok(doc);
  }

  /** The Directory constructor: a new directory has no children. */
  method NewDirectory(name: string, ghost rank: nat) returns (r: Result<File>)
    ensures r.Err? <==> !ValidFileName(name)
    ensures r.Err? ==> r.error == ValidateFileName(name).error
    ensures r.Ok? ==> fresh(r.value) && r.value.name == name && r.value.isDirectory
    ensures r.Ok? ==> r.value.files == [] && r.value.rank == rank
  {
    var v := ValidateFileName(name);
    if v.Fail? {
      return Err(v.error);
    }
    var dir := new File.Directory(name, rank);
    r := Ok(dir);
  }

  /** The heap of files `U` is closed under taking children, every rank is below
      `bound`, and every child outranks the directory holding it. */
  ghost predicate Closed(U: set<File>, bound: nat)
    reads U
  {
    forall d :: d in U ==>
      && d.rank < bound
      && forall i :: 0 <= i < |d.files| ==> d.files[i] in U && d.rank < d.files[i].rank
  }

  /** File.getSize: 40 plus twice the content length (in UTF-16 code units,
      as `String.length` counts) for a Document, 40 plus
      the sizes of the children for a Directory. */
  ghost function Size(f: File, U: set<File>, bound: nat): (s: int)
    reads U
    requires f in U && Closed(U, bound)
    ensures s >= EmptyDirSize
    decreases bound - f.rank, |f.files| + 1
  {
    if f.isDirectory then EmptyDirSize + ChildrenSize(f, |f.files|, U, bound)
    else EmptyDirSize + Utf16Length(f.content) * 2
  }

  /** The sizes of the first `k` children of `d`, added up. */
  ghost function ChildrenSize(d: File, k: nat, U: set<File>, bound: nat): (s: int)
    reads U
    requires d in U && Closed(U, bound) && k <= |d.files|
    ensures s >= EmptyDirSize * k
    decreases bound - d.rank, k
  {
    if k == 0 then 0 else ChildrenSize(d, k - 1, U, bound) + Size(d.files[k - 1], U, bound)
  }

  ghost predicate AllIn(fs: seq<File>, U: set<File>) {
    forall i :: 0 <= i < |fs| ==> fs[i] in U
  }

  /** The sizes of a list of files, added up. */
  ghost function SumSizes(fs: seq<File>, U: set<File>, bound: nat): (s: int)
    reads U
    requires AllIn(fs, U) && Closed(U, bound)
    ensures s >= EmptyDirSize * |fs|
  {
    if fs == [] then 0 else SumSizes(fs[..|fs| - 1], U, bound) + Size(fs[|fs| - 1], U, bound)
  }

  lemma SumSizesSnoc(fs: seq<File>, x: File, U: set<File>, bound: nat)
    requires AllIn(fs, U) && x in U && Closed(U, bound)
    ensures AllIn(fs + [x], U)
    ensures SumSizes(fs + [x], U, bound) == SumSizes(fs, U, bound) + Size(x, U, bound)
  {
    assert (fs + [x])[..|fs|] == fs;
  }

  lemma {:induction false} SumSizesAppend(a: seq<File>, b: seq<File>, U: set<File>, bound: nat)
    requires AllIn(a, U) && AllIn(b, U) && Closed(U, bound)
    ensures AllIn(a + b, U)
    ensures SumSizes(a + b, U, bound) == SumSizes(a, U, bound) + SumSizes(b, U, bound)
    decreases |b|
  {
    if b != [] {
      var b' := b[..|b| - 1];
      SumSizesAppend(a, b', U, bound);
      assert (a + b)[..|a + b| - 1] == a + b';
    } else {
      assert a + b == a;
    }
  }

  /** The size of a Document is 40 plus two per content character, four for a
      character above U+FFFF: at least 40, and exactly 40 for empty content. */
  lemma DocumentSize(f: File, U: set<File>, bound: nat)
    requires f in U && Closed(U, bound) && !f.isDirectory
    ensures Size(f, U, bound) == EmptyDirSize + 2 * Utf16Length(f.content)
    ensures 2 * |f.content| <= Size(f, U, bound) - EmptyDirSize <= 4 * |f.content|
    ensures Size(f, U, bound) == EmptyDirSize <==> f.content == ""
  {
  }

  lemma {:induction false} ChildrenSizeIsSum(d: File, k: nat, U: set<File>, bound: nat)
    requires d in U && Closed(U, bound) && k <= |d.files|
    ensures AllIn(d.files[..k], U)
    ensures ChildrenSize(d, k, U, bound) == SumSizes(d.files[..k], U, bound)
  {
    if k > 0 {
      ChildrenSizeIsSum(d, k - 1, U, bound);
      assert d.files[..k][..k - 1] == d.files[..k - 1];
    }
  }

  /** The size of a Directory is 40 plus the sum of its children's sizes; an
      empty Directory has size 40. */
  lemma DirectorySize(d: File, U: set<File>, bound: nat)
    requires d in U && Closed(U, bound) && d.isDirectory
    ensures AllIn(d.files, U)
    ensures Size(d, U, bound) == EmptyDirSize + SumSizes(d.files, U, bound)
    ensures d.files == [] ==> Size(d, U, bound) == EmptyDirSize
  {
    ChildrenSizeIsSum(d, |d.files|, U, bound);
    assert d.files[..|d.files|] == d.files;
  }

  lemma {:induction false} ChildrenSizeCovers(d: File, k: nat, i: nat, U: set<File>, bound: nat)
    requires d in U && Closed(U, bound) && i < k <= |d.files|
    ensures ChildrenSize(d, k, U, bound) >= Size(d.files[i], U, bound)
  {
    if i < k - 1 {
      ChildrenSizeCovers(d, k - 1, i, U, bound);
    }
  }

  /** A Directory is strictly larger than any one of its children. */
  lemma ChildSmaller(d: File, i: nat, U: set<File>, bound: nat)
    requires d in U && Closed(U, bound) && d.isDirectory && i < |d.files|
    ensures Size(d.files[i], U, bound) < Size(d, U, bound)
  {
    ChildrenSizeCovers(d, |d.files|, i, U, bound);
  }

  /** The list without the first occurrence of `x` (`List.remove(Object)`,
      which compares files by reference). */
  function RemoveFirst(fs: seq<File>, x: File): (r: seq<File>)
    ensures x !in fs ==> r == fs
    ensures x in fs ==> |r| == |fs| - 1
    ensures forall y :: y in r ==> y in fs
  {
    if fs == [] then []
    else if fs[0] == x then fs[1..]
    else [fs[0]] + RemoveFirst(fs[1..], x)
  }

  lemma {:induction false} RemoveFirstAt(fs: seq<File>, k: nat)
    requires k < |fs| && forall j :: 0 <= j < k ==> fs[j] != fs[k]
    ensures RemoveFirst(fs, fs[k]) == fs[..k] + fs[k + 1..]
  {
    if k > 0 {
      RemoveFirstAt(fs[1..], k - 1);
      assert fs[1..][..k - 1] == fs[1..k];
    }
  }

  /** Removing a file and appending it again moves it to the end of the list,
      which gives the list back only when every entry from the file's position
      on is that same file. */
  lemma RemoveFirstThenAppend(fs: seq<File>, k: nat)
    requires k < |fs| && forall j :: 0 <= j < k ==> fs[j] != fs[k]
    ensures RemoveFirst(fs, fs[k]) + [fs[k]] == fs[..k] + fs[k + 1..] + [fs[k]]
    ensures RemoveFirst(fs, fs[k]) + [fs[k]] == fs <==> forall j :: k <= j < |fs| ==> fs[j] == fs[k]
  {
    RemoveFirstAt(fs, k);
    assert (fs[..k] + fs[k + 1..]) + [fs[k]] == fs[..k] + (fs[k + 1..] + [fs[k]]);
    MoveToEndIff(fs, k);
  }

  /** "Every entry of the suffix from `k` is `x`", said by index into `fs`. */
  lemma SuffixAll(fs: seq<File>, k: nat, x: File)
    requires k <= |fs|
    ensures (forall i :: 0 <= i < |fs[k..]| ==> fs[k..][i] == x) <==> (forall j :: k <= j < |fs| ==> fs[j] == x)
  {
    assert forall j :: k <= j < |fs| ==> fs[j] == fs[k..][j - k];
  }

  /** Moving the entry at `k` to the end leaves the list unchanged exactly when
      every entry from `k` on is that entry. */
  lemma MoveToEndIff(fs: seq<File>, k: nat)
    requires k < |fs|
    ensures fs[..k] + (fs[k + 1..] + [fs[k]]) == fs <==> forall j :: k <= j < |fs| ==> fs[j] == fs[k]
  {
    var x, head, tail := fs[k], fs[..k], fs[k..];
    assert fs == head + tail;
    assert tail[1..] == fs[k + 1..];
    var moved := tail[1..] + [x];
    if head + moved == fs {
      assert moved == (head + moved)[|head|..];
      assert moved == tail;
    }
    RotatedIff(tail, x);
    SuffixAll(fs, k, x);
  }

  /** A list starting with `x` is unchanged by rotating it one place with `x`
      exactly when it holds only `x`. */
  lemma RotatedIff(s: seq<File>, x: File)
    requires s != [] && s[0] == x
    ensures s[1..] + [x] == s <==> forall i :: 0 <= i < |s| ==> s[i] == x
  {
    if s[1..] + [x] == s {
      forall i | 0 <= i < |s| ensures s[i] == x {
        RotatedConstant(s, x, i);
      }
    }
  }

  /** A list that rotating by one with `x` leaves unchanged holds only `x`. */
  lemma RotatedConstant(s: seq<File>, x: File, i: nat)
    requires s != [] && s[1..] + [x] == s && i < |s|
    ensures s[i] == x
    decreases |s| - i
  {
    assert s[i] == (s[1..] + [x])[i];
    if i < |s| - 1 {
      RotatedConstant(s, x, i + 1);
    }
  }

  /** Appending a file and removing it again restores the list, provided the file
      was not in it before. */
  lemma {:induction false} AppendThenRemoveFirst(fs: seq<File>, x: File)
    requires x !in fs
    ensures RemoveFirst(fs + [x], x) == fs
  {
    if fs != [] {
      assert (fs + [x])[1..] == fs[1..] + [x];
      AppendThenRemoveFirst(fs[1..], x);
    }
  }

  /** The position of the first file in `fs` named `name`, or -1 (the scan of CVFS.findFile). */
  function IndexOfName(fs: seq<File>, name: string): (k: int)
    reads fs
    ensures -1 <= k < |fs|
    ensures k >= 0 ==> fs[k].name == name && forall j :: 0 <= j < k ==> fs[j].name != name
    ensures k == -1 <==> forall j :: 0 <= j < |fs| ==> fs[j].name != name
  {
    if fs == [] then -1
    else if fs[0].name == name then 0
    else
      var k := IndexOfName(fs[1..], name);
      if k == -1 then -1 else k + 1
  }

  /** Some file in `fs` is named `name` (CVFS.fileExists). */
  predicate HasName(fs: seq<File>, name: string)
    reads fs
  {
    IndexOfName(fs, name) >= 0
  }
}
