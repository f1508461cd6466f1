/** CVFS: the service behind the commands. It holds the current virtual disk and
    the undo and redo stacks; every command that changes something pushes an
    Action recording what its undo and its redo act on.

    A failing command is a Java exception. Every check of a command comes before
    its first change, so a failing command here changes nothing and pushes
    nothing; the exceptions raised while undoing are the only exception to this,
    and their contracts say so. */
module Service {
  import opened Outcomes
  import opened Text
  import opened FileTree
  import opened Criteria
  import opened Listing
  import opened Filtering
  import opened Disk

  /** CVFS.DEFAULT_DISK_SIZE: the capacity of the disk a new service starts with. */
  const DefaultDiskSize: int := 600

  /** An undoable command, with the objects its undo and redo closures captured.
      The change-directory closures read the service's disk when they run, so
      they do not capture one. */
  datatype Action =
    | SwapDisk(prevDisk: VirtualDisk, nextDisk: VirtualDisk)
    | CreateFile(dir: File, file: File)
    | DeleteFile(dir: File, file: File)
    | RenameFile(file: File, oldName: string, newName: string)
    | CdInto(target: File)
    | CdUp(prevDir: File)
    | DefineCriterion(owner: VirtualDisk, name: string, criterion: Criterion)

  /** `f` is a file that may sit in directory `d`. */
  ghost predicate Placeable(d: File, f: File, F: set<File>) {
    d in F && f in F && d.isDirectory && d.rank < f.rank
  }

  /** The objects an action names are among the service's own, and undoing or
      redoing it keeps the heap well formed. */
  ghost predicate ActionValid(a: Action, F: set<File>, D: set<VirtualDisk>) {
    match a
    case SwapDisk(p, n) => p in D && n in D
    case CreateFile(d, f) => Placeable(d, f, F)
    case DeleteFile(d, f) => Placeable(d, f, F)
    case RenameFile(f, o, n) => f in F && ValidFileName(o) && ValidFileName(n)
    case CdInto(t) => t in F && t.isDirectory
    case CdUp(p) => p in F && p.isDirectory
    case DefineCriterion(vd, _, _) => vd in D
  }

  ghost predicate ActionsValid(s: seq<Action>, F: set<File>, D: set<VirtualDisk>) {
    forall i :: 0 <= i < |s| ==> ActionValid(s[i], F, D)
  }

  lemma ActionsGrow(s: seq<Action>, F: set<File>, D: set<VirtualDisk>, F': set<File>, D': set<VirtualDisk>)
    requires ActionsValid(s, F, D) && F <= F' && D <= D'
    ensures ActionsValid(s, F', D')
  {
    forall i | 0 <= i < |s| ensures ActionValid(s[i], F', D') {
      assert ActionValid(s[i], F, D);
    }
  }

  lemma ActionsPush(s: seq<Action>, a: Action, F: set<File>, D: set<VirtualDisk>)
    requires ActionsValid(s, F, D) && ActionValid(a, F, D)
    ensures ActionsValid(s + [a], F, D)
  {
    assert forall i :: 0 <= i < |s| ==> (s + [a])[i] == s[i];
  }

  lemma ActionsPop(s: seq<Action>, F: set<File>, D: set<VirtualDisk>)
    requires ActionsValid(s, F, D) && s != []
    ensures ActionsValid(s[..|s| - 1], F, D) && ActionValid(Top(s), F, D)
  {
  }

  /** The root and every stacked directory of a disk are directories of `F`. */
  ghost predicate DiskIn(vd: VirtualDisk, F: set<File>)
    reads vd
  {
    && vd.root in F && vd.root.isDirectory
    && forall i :: 0 <= i < |vd.stack| ==> vd.stack[i] in F && vd.stack[i].isDirectory
  }

  /** The files form a heap closed under children, all named validly, in
      which documents never hold children and carry one of the four types. */
  ghost predicate HeapOk(F: set<File>, bound: nat)
    reads F
  {
    && Closed(F, bound)
    && forall f :: f in F ==>
         ValidFileName(f.name) && (!f.isDirectory ==> f.files == [] && ValidDocumentType(f.docType))
  }

  ghost predicate DisksIn(D: set<VirtualDisk>, F: set<File>)
    reads D
  {
    forall vd :: vd in D ==> DiskIn(vd, F)
  }

  /** A new childless file of the next rank with a valid name, and a valid type
      if it is a document, joins the heap. */
  lemma HeapAdd(F: set<File>, bound: nat, f: File)
    requires HeapOk(F, bound) && f.rank == bound && f.files == [] && ValidFileName(f.name)
    requires !f.isDirectory ==> ValidDocumentType(f.docType)
    ensures HeapOk(F + {f}, bound + 1)
  {
  }

  /** On the service's heap every document carries one of the four types, so a
      type criterion whose literal names another type matches no file there. */
  lemma TypeOutsideAllowedOnHeap(name: string, op: string, value: string, f: File, F: set<File>, bound: nat)
    requires HeapOk(F, bound) && f in F
    requires |value| >= 2 && Unquote(value) !in DocumentTypes
    ensures Eval(TypeCriterion(name, op, value), Info(f, F, bound)) == Some(false)
  {
    TypeOutsideAllowedMatchesNothing(name, op, value, Info(f, F, bound));
  }

  /** Gives directory `d` of the heap the children `fs`, each a file of the
      heap that outranks it; the heap stays well formed. */
  method SetChildren(d: File, fs: seq<File>, ghost F: set<File>, ghost bound: nat)
    requires HeapOk(F, bound) && d in F && d.isDirectory
    requires forall x :: x in fs ==> x in F && d.rank < x.rank
    modifies d`files
    ensures d.files == fs && HeapOk(F, bound)
  {
    d.files := fs;
  }

  /** CVFS.findFile: the first child of `dir` named `name`, if any. */
  method FindFile(dir: File, name: string) returns (r: Option<File>)
    ensures r.None? <==> !HasName(dir.files, name)
    ensures r.Some? ==> r.value == dir.files[IndexOfName(dir.files, name)]
  {
    for i := 0 to |dir.files|
      invariant forall j :: 0 <= j < i ==> dir.files[j].name != name
    {
      if dir.files[i].name == name {
        return Some(dir.files[i]);
      }
    }
    return None;
  }

  /** The change deleteFile makes: the first child of `d` named `name` leaves
      `d`, the others keep their order; nothing happens when there is none. */
  method Unlink(d: File, name: string, ghost F: set<File>, ghost bound: nat) returns (r: Option<File>)
    requires HeapOk(F, bound) && d in F && d.isDirectory
    modifies d`files
    ensures HeapOk(F, bound)
    ensures r.None? <==> !old(HasName(d.files, name))
    ensures r.None? ==> d.files == old(d.files)
    ensures r.Some? ==>
      var k := old(IndexOfName(d.files, name));
      r.value == old(d.files[k]) && d.files == old(d.files[..k] + d.files[k + 1..])
  {
    r := FindFile(d, name);
    if r.None? {
      return;
    }
    ghost var k := IndexOfName(d.files, name);
    RemoveFirstAt(d.files, k);
    SetChildren(d, RemoveFirst(d.files, r.value), F, bound);
  }

  /** The working directory of a disk that stands in the heap is a directory
      of the heap. */
  lemma CwdIn(vd: VirtualDisk, F: set<File>)
    requires DiskIn(vd, F)
    ensures vd.CurrentDirectory() in F && vd.CurrentDirectory().isDirectory
  {
  }

  /** Disks that stand in a heap stand in any larger one. */
  lemma DisksGrow(D: set<VirtualDisk>, F: set<File>, F': set<File>)
    requires DisksIn(D, F) && F <= F'
    ensures DisksIn(D, F')
  {
  }

  /** Enters directory `t` of the heap on disk `vd`; every disk still stands
      in the heap. */
  method Enter(vd: VirtualDisk, t: File, ghost D: set<VirtualDisk>, ghost F: set<File>)
    requires vd in D && DisksIn(D, F) && t in F && t.isDirectory
    modifies vd`stack
    ensures vd.stack == if t == old(vd.CurrentDirectory()) then old(vd.stack) else old(vd.stack) + [t]
    ensures DisksIn(D, F) && vd.CurrentDirectory() == t
  {
    vd.ChangeWorkingDirectory(t);
  }

  /** Goes up one level on disk `vd`; every disk still stands in the heap. */
  method Up(vd: VirtualDisk, ghost D: set<VirtualDisk>, ghost F: set<File>)
    requires vd in D && DisksIn(D, F)
    modifies vd`stack
    ensures vd.stack == if old(vd.stack) == [] then [] else old(vd.stack)[..|old(vd.stack)| - 1]
    ensures DisksIn(D, F) && vd.CurrentDirectory() in F && vd.CurrentDirectory().isDirectory
  {
    vd.ChangeWorkingDirectoryToParent();
    assert DiskIn(vd, F);
  }

  /** Pops the stack of disk `vd` unchecked; every disk still stands in the
      heap. */
  method Back(vd: VirtualDisk, ghost D: set<VirtualDisk>, ghost F: set<File>) returns (r: Outcome)
    requires vd in D && DisksIn(D, F)
    modifies vd`stack
    ensures r.Pass? <==> old(vd.stack) != []
    ensures r.Fail? ==> r.error == EmptyNavigationStack && vd.stack == old(vd.stack)
    ensures r.Pass? ==> vd.stack == old(vd.stack)[..|old(vd.stack)| - 1]
    ensures DisksIn(D, F) && vd.CurrentDirectory() in F && vd.CurrentDirectory().isDirectory
  {
    r := vd.ChangeWorkingDirectoryToPrevious();
    assert DiskIn(vd, F);
  }

  /** Renames file `f` of the heap through File.setName; the heap stays well
      formed, the name changing only when the new one is valid. */
  method Rename(f: File, newName: string, ghost F: set<File>, ghost bound: nat) returns (r: Outcome)
    requires HeapOk(F, bound) && f in F
    modifies f`name
    ensures r == ValidateFileName(newName)
    ensures f.name == if r.Pass? then newName else old(f.name)
    ensures HeapOk(F, bound)
  {
    r := f.SetName(newName);
  }

  /** What renameFile answers in a directory with children `fs`: the old name
      must be taken, the new one free, and then File.setName decides. */
  function RenameOutcome(fs: seq<File>, oldName: string, newName: string): Outcome
    reads fs
  {
    if !HasName(fs, oldName) then Fail(FileNotFound)
    else if HasName(fs, newName) then Fail(FileExists)
    else ValidateFileName(newName)
  }

  /** A file is never renamed to the name it has: the new name is taken, by
      the file itself. */
  lemma RenameToSameNameFails(fs: seq<File>, name: string)
    ensures RenameOutcome(fs, name, name).Fail?
    ensures HasName(fs, name) ==> RenameOutcome(fs, name, name) == Fail(FileExists)
  {
  }

  /** Undoing a definition removes the name from the registry, so undoing the
      redefinition of a registered name forgets the earlier criterion too, and
      redoing it puts the recorded criterion back. */
  lemma UndoDefinitionForgets(m: map<string, Criterion>, name: string, c: Criterion)
    ensures name in m ==> (m[name := c]) - {name} != m
    ensures name !in (m[name := c]) - {name}
    ensures (m[name := c]) - {name} == m - {name}
    ensures name !in m ==> (m[name := c]) - {name} == m
    ensures ((m[name := c]) - {name})[name := c] == m[name := c]
  {
  }

  /** The directories whose child list undoing or redoing the last action of
      `s` changes: the directory a file was created in or deleted from. */
  function ListsTouched(s: seq<Action>): set<File> {
    if s == [] then {}
    else match Top(s)
      case CreateFile(d, _) => {d}
      case DeleteFile(d, _) => {d}
      case _ => {}
  }

  /** The file whose name undoing or redoing the last action of `s` changes:
      the renamed one. */
  function NamesTouched(s: seq<Action>): set<File> {
    if s == [] then {}
    else match Top(s)
      case RenameFile(f, _, _) => {f}
      case _ => {}
  }

  /** The disk whose navigation stack undoing or redoing the last action of
      `s` changes: the service's disk at that moment (`current`), for a change
      of directory. */
  function StacksTouched(s: seq<Action>, current: VirtualDisk): set<VirtualDisk> {
    if s == [] then {}
    else match Top(s)
      case CdInto(_) => {current}
      case CdUp(_) => {current}
      case _ => {}
  }

  /** The disk whose criteria registry undoing or redoing the last action of
      `s` changes: the one the criterion was defined on. */
  function RegistriesTouched(s: seq<Action>): set<VirtualDisk> {
    if s == [] then {}
    else match Top(s)
      case DefineCriterion(vd, _, _) => {vd}
      case _ => {}
  }

  function Top(s: seq<Action>): Action
    requires s != []
  {
    s[|s| - 1]
  }

  /** Map.get: a missing name reads as the null criterion. */
  function Get(registry: map<string, Criterion>, name: string): Criterion
  {
    if name in registry then registry[name] else NullCriterion
  }

  /** The criterion createSimpleCriterion builds for attribute `attr`; `None`
      for an attribute outside `name`, `size` and `type`, for which the switch
      builds nothing. */
  function SimpleCriterion(criName: string, attr: string, op: string, value: string): (r: Option<Result<Criterion>>)
    ensures r.None? <==> attr !in ["name", "size", "type"]
    ensures r.Some? && r.value.Ok? ==>
      var c := r.value.value;
      && (c.NameCriterion? || c.SizeCriterion? || c.TypeCriterion?)
      && c.name == criName && c.op == op && c.value == value
      && ValidCriterionName(criName)
    ensures r.Some? && r.value.Err? ==>
      r.value.error in {CriterionNameLength, CriterionNameNotAlphanumeric, InvalidOperator, InvalidValue}
  {
    if attr == "name" then Some(NewNameCriterion(criName, op, value))
    else if attr == "size" then Some(NewSizeCriterion(criName, op, value))
    else if attr == "type" then Some(NewTypeCriterion(criName, op, value))
    else None
  }

  class CVFS {
    var disk: VirtualDisk
    var undoStack: seq<Action>
    var redoStack: seq<Action>
    /** Every file the service has made, on every disk. */
    ghost var Files: set<File>
    /** Every disk the service has made. */
    ghost var Disks: set<VirtualDisk>
    /** Above the rank of every file made so far. */
    ghost var nextRank: nat

    /** The files form a tree-shaped heap of valid names in which documents
        never hold children, every disk stands in it, and every recorded action
        names the service's own objects. */
    ghost predicate Valid()
      reads this, Files, Disks
    {
      && disk in Disks
      && HeapOk(Files, nextRank)
      && DisksIn(Disks, Files)
      && disk.CurrentDirectory() in Files && disk.CurrentDirectory().isDirectory
      && ActionsValid(undoStack, Files, Disks)
      && ActionsValid(redoStack, Files, Disks)
    }

    /** The working directory of the current disk. */
    function Cwd(): File
      reads this, disk
    {
      disk.CurrentDirectory()
    }

    /** The space the files below the working directory take, as the quota
        check adds it up over the recursive listing. */
    ghost function QuotaUsed(): int
      reads this, Files, Disks
      requires Valid()
    {
      FlattenIn(ListFrom(Cwd(), Files, nextRank), Files);
      SumSizes(Flatten(ListFrom(Cwd(), Files, nextRank)), Files, nextRank)
    }

    /** A new service works on a fresh disk of the default capacity and has
        nothing to undo or redo. */
    constructor ()
      ensures Valid() && fresh(disk) && fresh(disk.root)
      ensures disk.maxSize == DefaultDiskSize
      ensures disk.stack == [] && disk.root.files == []
      ensures disk.criteria == map[IsDocumentName := IsDocumentCriterion]
      ensures undoStack == [] && redoStack == []
    {
      RootNameValid();
      var d := new VirtualDisk(DefaultDiskSize, 0);
      disk := d;
      undoStack := [];
      redoStack := [];
      Files := {d.root};
      Disks := {d};
      nextRank := 1;
    }

    /** rList on the working directory. */
    method RList() returns (buckets: seq<Bucket>)
      requires Valid()
      ensures buckets == ListFrom(Cwd(), Files, nextRank)
    {
      buckets := ListBuckets(disk.CurrentDirectory(), Files, nextRank);
    }

    /** checkDiskSize: adding a file of size `testSize` passes exactly when the
        space used below the working directory, plus 40, plus the new size,
        stays within the disk's capacity. */
    method CheckDiskSize(testSize: int) returns (r: Outcome)
      requires Valid()
      ensures r == if QuotaUsed() + EmptyDirSize + testSize <= disk.maxSize then Pass else Fail(DiskFull)
    {
      var buckets := RList();
      var total := BucketsSize(buckets, Files, nextRank);
      total := total + EmptyDirSize;
      var newTotal := total + testSize;
      if newTotal > disk.maxSize {
        return Fail(DiskFull);
      }
      r := Pass;
    }

    /** The outcome of adding to the working directory a file named `name`
        whose construction gave `made` and whose size is `size`: a name already
        taken, then the constructor's own checks, then the quota. */
    ghost function AddOutcome(name: string, made: Outcome, size: int): Outcome
      reads this, Files, Disks
      requires Valid()
    {
      if HasName(Cwd().files, name) then Fail(FileExists)
      else if made.Fail? then made
      else if QuotaUsed() + EmptyDirSize + size > disk.maxSize then Fail(DiskFull)
      else Pass
    }

    /** The common tail of newDocument and newDirectory: the new file joins the
        working directory and the creation is recorded. */
    method Attach(f: File)
      requires Valid() && f !in Files && f.rank == nextRank
      requires ValidFileName(f.name) && f.files == [] && (!f.isDirectory ==> ValidDocumentType(f.docType))
      modifies this`Files, this`nextRank, this`undoStack, disk.CurrentDirectory()`files
      ensures Valid()
      ensures disk == old(disk) && disk.stack == old(disk.stack) && redoStack == old(redoStack)
      ensures Cwd().files == old(Cwd().files) + [f]
      ensures undoStack == old(undoStack) + [CreateFile(Cwd(), f)]
      ensures Files == old(Files) + {f} && Disks == old(Disks)
    {
      var cwd := disk.CurrentDirectory();
      ghost var F, bound := Files + {f}, nextRank + 1;
      HeapAdd(Files, nextRank, f);
      ActionsGrow(undoStack, Files, Disks, F, Disks);
      ActionsGrow(redoStack, Files, Disks, F, Disks);
      SetChildren(cwd, cwd.files + [f], F, bound);
      Files, nextRank := F, bound;
      undoStack := undoStack + [CreateFile(cwd, f)];
    }

    /** The checks newDocument and newDirectory make before they change
        anything, given what the constructor answered (`made`) and the size of
        the file it built. */
    method Admit(name: string, made: Outcome, size: int) returns (r: Outcome)
      requires Valid()
      ensures r == AddOutcome(name, made, size)
    {
      var found := FindFile(disk.CurrentDirectory(), name);
      if found.Some? {
        return Fail(FileExists);
      }
      if made.Fail? {
        return made;
      }
      r := CheckDiskSize(size);
    }

    /** The document newDocument adds, once the checks pass: a name already
        taken in the working directory, then the Document constructor's checks,
        then the quota for the new document's size. The document is built
        before the checks are read; a document that fails them is dropped. */
    method PrepareDocument(name: string, docType: string, content: string) returns (r: Result<File>)
      requires Valid()
      ensures r.Err? <==> AddOutcome(name, ValidateDocument(name, docType), EmptyDirSize + 2 * Utf16Length(content)).Fail?
      ensures r.Err? ==> Fail(r.error) == AddOutcome(name, ValidateDocument(name, docType), EmptyDirSize + 2 * Utf16Length(content))
      ensures r.Ok? ==> fresh(r.value) && r.value.name == name && !r.value.isDirectory
      ensures r.Ok? ==> r.value.docType == docType && r.value.content == content
      ensures r.Ok? ==> r.value.files == [] && r.value.rank == nextRank
    {
      var made := FileTree.NewDocument(name, docType, content, nextRank);
      var size := EmptyDirSize + 2 * Utf16Length(content);
      if made.Ok? {
        size := made.value.GetSize({made.value}, nextRank + 1);
        DocumentSize(made.value, {made.value}, nextRank + 1);
      }
      var verdict := Admit(name, if made.Ok? then Pass else Fail(made.error), size);
      if verdict.Fail? {
        return Err(verdict.error);
      }
      r := made;
    }

    /** newDocument: on success the new document is the last child of the
        working directory and its creation is on the undo stack; on failure
        nothing changes. */
    method NewDocument(name: string, docType: string, content: string) returns (r: Outcome, ghost doc: File)
      requires Valid()
      modifies this`Files, this`nextRank, this`undoStack, disk.CurrentDirectory()`files
      ensures Valid()
      ensures r == old(AddOutcome(name, ValidateDocument(name, docType), EmptyDirSize + 2 * Utf16Length(content)))
      ensures disk == old(disk) && disk.stack == old(disk.stack) && redoStack == old(redoStack)
      ensures r.Fail? ==> Cwd().files == old(Cwd().files) && undoStack == old(undoStack)
      ensures r.Pass? ==> Cwd().files == old(Cwd().files) + [doc] && undoStack == old(undoStack) + [CreateFile(Cwd(), doc)]
      ensures r.Pass? ==> fresh(doc) && doc.name == name && !doc.isDirectory && doc.docType == docType && doc.content == content
    {
      var made := PrepareDocument(name, docType, content);
      if made.Err? {
        return Fail(made.error), disk.root;
      }
      doc := made.value;
      Attach(made.value);
      r := Pass;
    }

    /** The directory newDirectory adds, once the checks pass, as for a
        document, with the Directory constructor's name check and size 40. */
    method PrepareDirectory(name: string) returns (r: Result<File>)
      requires Valid()
      ensures r.Err? <==> AddOutcome(name, ValidateFileName(name), EmptyDirSize).Fail?
      ensures r.Err? ==> Fail(r.error) == AddOutcome(name, ValidateFileName(name), EmptyDirSize)
      ensures r.Ok? ==> fresh(r.value) && r.value.name == name && r.value.isDirectory
      ensures r.Ok? ==> r.value.files == [] && r.value.rank == nextRank
    {
      var made := FileTree.NewDirectory(name, nextRank);
      var size := EmptyDirSize;
      if made.Ok? {
        size := made.value.GetSize({made.value}, nextRank + 1);
      }
      var verdict := Admit(name, if made.Ok? then Pass else Fail(made.error), size);
      if verdict.Fail? {
        return Err(verdict.error);
      }
      r := made;
    }

    /** newDirectory: as newDocument, for an empty directory. */
    method NewDirectory(name: string) returns (r: Outcome, ghost dir: File)
      requires Valid()
      modifies this`Files, this`nextRank, this`undoStack, disk.CurrentDirectory()`files
      ensures Valid()
      ensures r == old(AddOutcome(name, ValidateFileName(name), EmptyDirSize))
      ensures disk == old(disk) && disk.stack == old(disk.stack) && redoStack == old(redoStack)
      ensures r.Fail? ==> Cwd().files == old(Cwd().files) && undoStack == old(undoStack)
      ensures r.Pass? ==> Cwd().files == old(Cwd().files) + [dir] && undoStack == old(undoStack) + [CreateFile(Cwd(), dir)]
      ensures r.Pass? ==> fresh(dir) && dir.name == name && dir.isDirectory && dir.files == []
    {
      var made := PrepareDirectory(name);
      if made.Err? {
        return Fail(made.error), disk.root;
      }
      dir := made.value;
      Attach(made.value);
      r := Pass;
    }

    /** deleteFile: the first child with the name leaves the working
        directory, the others keep their order, and the deletion is recorded. */
    method DeleteFile(name: string) returns (r: Outcome)
      requires Valid()
      modifies this`undoStack, disk.CurrentDirectory()`files
      ensures Valid()
      ensures disk == old(disk) && disk.stack == old(disk.stack) && redoStack == old(redoStack)
      ensures r.Pass? <==> old(HasName(Cwd().files, name))
      ensures r.Fail? ==> r.error == FileNotFound && Cwd().files == old(Cwd().files) && undoStack == old(undoStack)
      ensures r.Pass? ==>
        var k := old(IndexOfName(Cwd().files, name));
        && Cwd().files == old(Cwd().files[..k] + Cwd().files[k + 1..])
        && undoStack == old(undoStack) + [Action.DeleteFile(Cwd(), old(Cwd().files[k]))]
    {
      var cwd := disk.CurrentDirectory();
      var removed := Unlink(cwd, name, Files, nextRank);
      if removed.None? {
        return Fail(FileNotFound);
      }
      undoStack := undoStack + [Action.DeleteFile(cwd, removed.value)];
      r := Pass;
    }

    /** Pushes `a`, an action on the service's own objects, onto the undo
        stack. */
    method Record(a: Action)
      requires Valid() && ActionValid(a, Files, Disks)
      modifies this`undoStack
      ensures Valid() && undoStack == old(undoStack) + [a]
    {
      ActionsPush(undoStack, a, Files, Disks);
      undoStack := undoStack + [a];
    }

    /** renameFile: the first child named `oldName` takes the name `newName`
        when `oldName` is taken, `newName` is free and valid; the rename is
        recorded. On failure no name changes. */
    method RenameFile(oldName: string, newName: string) returns (r: Outcome)
      requires Valid()
      modifies this`undoStack, disk.CurrentDirectory().files`name
      ensures Valid()
      ensures disk == old(disk) && disk.stack == old(disk.stack) && redoStack == old(redoStack)
      ensures Cwd().files == old(Cwd().files)
      ensures r == old(RenameOutcome(Cwd().files, oldName, newName))
      ensures r.Fail? ==> undoStack == old(undoStack)
      ensures r.Fail? ==> forall x :: x in old(Cwd().files) ==> x.name == old(x.name)
      ensures r.Pass? ==>
        var f := old(Cwd().files[IndexOfName(Cwd().files, oldName)]);
        && f.name == newName
        && (forall x :: x in old(Cwd().files) && x != f ==> x.name == old(x.name))
        && undoStack == old(undoStack) + [Action.RenameFile(f, oldName, newName)]
    {
      var cwd := disk.CurrentDirectory();
      var found := FindFile(cwd, oldName);
      if found.None? {
        return Fail(FileNotFound);
      }
      var taken := FindFile(cwd, newName);
      if taken.Some? {
        return Fail(FileExists);
      }
      var target := found.value;
      r := Rename(target, newName, Files, nextRank);
      if r.Fail? {
        return;
      }
      Record(Action.RenameFile(target, oldName, newName));
    }

    /** changeDir: `..` (after trimming) goes up one level and records the
        directory left; any other name must be a child directory of the working
        directory, which is entered and recorded. */
    method ChangeDir(name: string) returns (r: Outcome)
      requires Valid()
      modifies this`undoStack, disk`stack
      ensures Valid()
      ensures disk == old(disk) && redoStack == old(redoStack)
      ensures r.Fail? ==> disk.stack == old(disk.stack) && undoStack == old(undoStack)
      ensures Trim(name) == ".." ==> r == Pass
      ensures Trim(name) == ".." ==>
        && disk.stack == (if old(disk.stack) == [] then [] else old(disk.stack[..|disk.stack| - 1]))
        && undoStack == old(undoStack) + [CdUp(old(Cwd()))]
      ensures Trim(name) != ".." && !old(HasName(Cwd().files, name)) ==> r == Fail(FileNotFound)
      ensures Trim(name) != ".." && old(HasName(Cwd().files, name)) ==>
        var t := old(Cwd().files[IndexOfName(Cwd().files, name)]);
        && (r.Pass? <==> t.isDirectory)
        && (r.Fail? ==> r.error == NotADirectory)
        && (r.Pass? ==> disk.stack == old(disk.stack) + [t] && undoStack == old(undoStack) + [CdInto(t)])
    {
      if Trim(name) != ".." {
        r := EnterChild(name);
      } else {
        GoUp();
        r := Pass;
      }
    }

    /** changeDir with a name other than `..`. */
    method EnterChild(name: string) returns (r: Outcome)
      requires Valid()
      modifies this`undoStack, disk`stack
      ensures Valid()
      ensures r.Fail? ==> disk.stack == old(disk.stack) && undoStack == old(undoStack)
      ensures !old(HasName(Cwd().files, name)) ==> r == Fail(FileNotFound)
      ensures old(HasName(Cwd().files, name)) ==>
        var t := old(Cwd().files[IndexOfName(Cwd().files, name)]);
        && (r.Pass? <==> t.isDirectory)
        && (r.Fail? ==> r.error == NotADirectory)
        && (r.Pass? ==> disk.stack == old(disk.stack) + [t] && undoStack == old(undoStack) + [CdInto(t)])
    {
      var cwd := disk.CurrentDirectory();
      var found := FindFile(cwd, name);
      if found.None? {
        return Fail(FileNotFound);
      }
      var target := found.value;
      if !target.isDirectory {
        return Fail(NotADirectory);
      }
      Enter(disk, target, Disks, Files);
      Record(CdInto(target));
      r := Pass;
    }

    /** changeDir with `..`. */
    method GoUp()
      requires Valid()
      modifies this`undoStack, disk`stack
      ensures Valid()
      ensures disk.stack == if old(disk.stack) == [] then [] else old(disk.stack[..|disk.stack| - 1])
      ensures undoStack == old(undoStack) + [CdUp(old(Cwd()))]
    {
      var cwd := disk.CurrentDirectory();
      Up(disk, Disks, Files);
      Record(CdUp(cwd));
    }

    /** list: the children of the working directory, in order, which is the
        first bucket rList emits. */
    function List(): (fs: seq<File>)
      requires Valid()
      reads this, Files, Disks
      ensures fs == ListFrom(Cwd(), Files, nextRank)[0].files
    {
      OneBucketPerDirectory(disk.CurrentDirectory(), Files, nextRank);
      disk.CurrentDirectory().files
    }

    /** getWorkingDirPath. */
    method GetWorkingDirPath() returns (p: string)
      ensures p == Path(disk.root.name, Names(disk.stack))
    {
      p := disk.WorkingDirPath();
    }

    /** Registers `c` under `name` on the current disk and records the
        definition (createUndoRedoOpsForCreatedCriteria). */
    method Define(name: string, c: Criterion)
      requires Valid()
      modifies this`undoStack, disk`criteria
      ensures Valid()
      ensures disk.criteria == old(disk.criteria)[name := c]
      ensures undoStack == old(undoStack) + [DefineCriterion(disk, name, c)]
    {
      disk.criteria := disk.criteria[name := c];
      Record(DefineCriterion(disk, name, c));
    }

    /** createSimpleCriterion: builds the criterion the attribute names and
        registers it under `criName`, replacing any criterion of that name; an
        unknown attribute registers nothing. Either way the definition is
        recorded with whatever the registry then holds under `criName`, the null
        criterion when it holds nothing. A constructor that rejects its
        arguments changes nothing. */
    method CreateSimpleCriterion(criName: string, attr: string, op: string, value: string) returns (r: Outcome)
      requires Valid()
      modifies this`undoStack, disk`criteria
      ensures Valid()
      ensures r.Fail? <==> SimpleCriterion(criName, attr, op, value).Some? && SimpleCriterion(criName, attr, op, value).value.Err?
      ensures r.Fail? ==> r.error == SimpleCriterion(criName, attr, op, value).value.error
      ensures r.Fail? ==> disk.criteria == old(disk.criteria) && undoStack == old(undoStack)
      ensures r.Pass? && attr in ["name", "size", "type"] ==>
        disk.criteria == old(disk.criteria)[criName := SimpleCriterion(criName, attr, op, value).value.value]
      ensures r.Pass? && attr !in ["name", "size", "type"] ==> disk.criteria == old(disk.criteria)
      ensures r.Pass? ==> undoStack == old(undoStack) + [DefineCriterion(disk, criName, Get(disk.criteria, criName))]
    {
      var built := SimpleCriterion(criName, attr, op, value);
      if built.None? {
        Record(DefineCriterion(disk, criName, Get(disk.criteria, criName)));
        return Pass;
      }
      if built.value.Err? {
        return Fail(built.value.error);
      }
      Define(criName, built.value.value);
      r := Pass;
    }

    /** createNegationCriterion: `criName2` must be registered; the negation
        of what it holds is registered under `criName1` and recorded. */
    method CreateNegation(criName1: string, criName2: string) returns (r: Outcome)
      requires Valid()
      modifies this`undoStack, disk`criteria
      ensures Valid()
      ensures criName2 !in old(disk.criteria) ==> r == Fail(CriterionNotFound)
      ensures criName2 in old(disk.criteria) ==>
        var made := NewNegation(criName1, old(disk.criteria)[criName2]);
        && (r.Pass? <==> made.Ok?)
        && (r.Fail? ==> r.error == made.error)
      ensures r.Fail? ==> disk.criteria == old(disk.criteria) && undoStack == old(undoStack)
      ensures r.Pass? ==>
        var c := Negation(criName1, old(disk.criteria)[criName2]);
        && disk.criteria == old(disk.criteria)[criName1 := c]
        && undoStack == old(undoStack) + [DefineCriterion(disk, criName1, c)]
    {
      if criName2 !in disk.criteria {
        return Fail(CriterionNotFound);
      }
      var made := NewNegation(criName1, disk.criteria[criName2]);
      if made.Err? {
        return Fail(made.error);
      }
      Define(criName1, made.value);
      r := Pass;
    }

    /** createBinaryCriterion: both operands must be registered, the first
        checked first; the combination is registered under `criName` and
        recorded. */
    method CreateBinary(criName: string, criName1: string, criName2: string, operand: string) returns (r: Outcome)
      requires Valid()
      modifies this`undoStack, disk`criteria
      ensures Valid()
      ensures criName1 !in old(disk.criteria) || criName2 !in old(disk.criteria) ==> r == Fail(CriterionNotFound)
      ensures criName1 in old(disk.criteria) && criName2 in old(disk.criteria) ==>
        var made := NewBinary(criName, operand, old(disk.criteria)[criName1], old(disk.criteria)[criName2]);
        && (r.Pass? <==> made.Ok?)
        && (r.Fail? ==> r.error == made.error)
      ensures r.Fail? ==> disk.criteria == old(disk.criteria) && undoStack == old(undoStack)
      ensures r.Pass? ==>
        var c := Binary(criName, operand, old(disk.criteria)[criName1], old(disk.criteria)[criName2]);
        && disk.criteria == old(disk.criteria)[criName := c]
        && undoStack == old(undoStack) + [DefineCriterion(disk, criName, c)]
    {
      if criName1 !in disk.criteria {
        return Fail(CriterionNotFound);
      }
      if criName2 !in disk.criteria {
        return Fail(CriterionNotFound);
      }
      var made := NewBinary(criName, operand, disk.criteria[criName1], disk.criteria[criName2]);
      if made.Err? {
        return Fail(made.error);
      }
      Define(criName, made.value);
      r := Pass;
    }

    /** getAllCriteria: the criteria registered on the current disk. */
    function AllCriteria(): (cs: set<Criterion>)
      reads this, disk
      ensures forall c :: c in cs <==> exists n :: n in disk.criteria && disk.criteria[n] == c
    {
      disk.criteria.Values
    }

    /** searchByCriterion on the working directory. */
    method Search(criterionName: string) returns (r: Result<seq<File>>)
      requires Valid()
      ensures r == SearchOutcome(disk.criteria, criterionName, Cwd(), Files, nextRank)
    {
      var c := Lookup(disk.criteria, criterionName);
      if c.Err? {
        return Err(c.error);
      }
      var cwd := disk.CurrentDirectory();
      assert AllIn(cwd.files, Files);
      var s := Filter(c.value, cwd.files, Files, nextRank);
      if s.None? {
        return Err(EvaluationFailed);
      }
      r := Ok(s.value);
    }

    /** searchRecursivelyByCriterion on the working directory. */
    method RecursiveSearch(criterionName: string) returns (r: Result<seq<Bucket>>)
      requires Valid()
      ensures r == RecursiveSearchOutcome(disk.criteria, criterionName, Cwd(), Files, nextRank)
    {
      var c := Lookup(disk.criteria, criterionName);
      if c.Err? {
        return Err(c.error);
      }
      var buckets := RList();
      var s := FilterBuckets(c.value, buckets, Files, nextRank);
      if s.None? {
        return Err(EvaluationFailed);
      }
      r := Ok(s.value);
    }

    /** newDisk: a fresh disk of the given capacity becomes the current one,
        and the swap is recorded. */
    method NewDisk(maxSize: int)
      requires Valid()
      modifies this
      ensures Valid()
      ensures fresh(disk) && fresh(disk.root) && disk.maxSize == maxSize
      ensures disk.stack == [] && disk.root.files == [] && disk.criteria == map[IsDocumentName := IsDocumentCriterion]
      ensures undoStack == old(undoStack) + [SwapDisk(old(disk), disk)] && redoStack == old(redoStack)
    {
      var previous := disk;
      RootNameValid();
      var d := new VirtualDisk(maxSize, nextRank);
      HeapAdd(Files, nextRank, d.root);
      DisksGrow(Disks, Files, Files + {d.root});
      ActionsGrow(undoStack, Files, Disks, Files + {d.root}, Disks + {d});
      ActionsGrow(redoStack, Files, Disks, Files + {d.root}, Disks + {d});
      Files, Disks, nextRank := Files + {d.root}, Disks + {d}, nextRank + 1;
      disk := d;
      Record(SwapDisk(previous, d));
    }

    /** Takes the last action off the undo stack. */
    method PopUndo() returns (a: Action)
      requires Valid() && undoStack != []
      modifies this`undoStack
      ensures Valid() && ActionValid(a, Files, Disks)
      ensures a == Top(old(undoStack)) && undoStack == old(undoStack)[..|old(undoStack)| - 1]
    {
      a := Top(undoStack);
      ActionsPop(undoStack, Files, Disks);
      undoStack := undoStack[..|undoStack| - 1];
    }

    /** Takes the last action off the redo stack. */
    method PopRedo() returns (a: Action)
      requires Valid() && redoStack != []
      modifies this`redoStack
      ensures Valid() && ActionValid(a, Files, Disks)
      ensures a == Top(old(redoStack)) && redoStack == old(redoStack)[..|old(redoStack)| - 1]
    {
      a := Top(redoStack);
      ActionsPop(redoStack, Files, Disks);
      redoStack := redoStack[..|redoStack| - 1];
    }

    /** Pushes `a` onto the redo stack. */
    method RecordRedo(a: Action)
      requires Valid() && ActionValid(a, Files, Disks)
      modifies this`redoStack
      ensures Valid() && redoStack == old(redoStack) + [a]
    {
      ActionsPush(redoStack, a, Files, Disks);
      redoStack := redoStack + [a];
    }

    /** What the undo closure of `a` does: the creation of a file is taken
        back, a deleted file is put back at the end of its directory, a rename
        is reversed, entering a directory pops the stack without looking,
        going up re-enters the directory left, a definition is removed, and a
        disk swap restores the previous disk. Only the unchecked pop can fail. */
    method Revert(a: Action) returns (r: Outcome)
      requires Valid() && ActionValid(a, Files, Disks)
      modifies this`disk, ListsTouched([a])`files, NamesTouched([a])`name
      modifies StacksTouched([a], disk)`stack, RegistriesTouched([a])`criteria
      ensures Valid()
      ensures r.Fail? <==> a.CdInto? && old(disk.stack) == []
      ensures r.Fail? ==> r.error == EmptyNavigationStack
      ensures disk == if a.SwapDisk? then a.prevDisk else old(disk)
      ensures a.CreateFile? ==> a.dir.files == old(RemoveFirst(a.dir.files, a.file))
      ensures a.DeleteFile? ==> a.dir.files == old(a.dir.files) + [a.file]
      ensures a.RenameFile? ==> a.file.name == a.oldName
      ensures a.CdInto? ==> disk.stack == if old(disk.stack) == [] then [] else old(disk.stack)[..|old(disk.stack)| - 1]
      ensures a.CdUp? ==>
        disk.stack == if a.prevDir == old(disk.CurrentDirectory()) then old(disk.stack) else old(disk.stack) + [a.prevDir]
      ensures a.DefineCriterion? ==> a.owner.criteria == old(a.owner.criteria) - {a.name}
    {
      match a
      case SwapDisk(previous, _) =>
        CwdIn(previous, Files);
        disk := previous;
        r := Pass;
      case CreateFile(d, f) =>
        SetChildren(d, RemoveFirst(d.files, f), Files, nextRank);
        r := Pass;
      case DeleteFile(d, f) =>
        SetChildren(d, d.files + [f], Files, nextRank);
        r := Pass;
      case RenameFile(f, oldName, _) =>
        r := Rename(f, oldName, Files, nextRank);
      case CdInto(_) =>
        r := Back(disk, Disks, Files);
      case CdUp(previous) =>
        Enter(disk, previous, Disks, Files);
        r := Pass;
      case DefineCriterion(owner, name, _) =>
        owner.criteria := owner.criteria - {name};
        r := Pass;
    }

    /** What the redo closure of `a` does: the file is added again or removed
        again, renamed to the new name again, the directory is entered again
        or left again, the definition is put back, or the new disk comes back. */
    method Replay(a: Action)
      requires Valid() && ActionValid(a, Files, Disks)
      modifies this`disk, ListsTouched([a])`files, NamesTouched([a])`name
      modifies StacksTouched([a], disk)`stack, RegistriesTouched([a])`criteria
      ensures Valid()
      ensures disk == if a.SwapDisk? then a.nextDisk else old(disk)
      ensures a.CreateFile? ==> a.dir.files == old(a.dir.files) + [a.file]
      ensures a.DeleteFile? ==> a.dir.files == old(RemoveFirst(a.dir.files, a.file))
      ensures a.RenameFile? ==> a.file.name == a.newName
      ensures a.CdInto? ==>
        disk.stack == if a.target == old(disk.CurrentDirectory()) then old(disk.stack) else old(disk.stack) + [a.target]
      ensures a.CdUp? ==> disk.stack == if old(disk.stack) == [] then [] else old(disk.stack)[..|old(disk.stack)| - 1]
      ensures a.DefineCriterion? ==> a.owner.criteria == old(a.owner.criteria)[a.name := a.criterion]
    {
      match a
      case SwapDisk(_, next) =>
        CwdIn(next, Files);
        disk := next;
      case CreateFile(d, f) =>
        SetChildren(d, d.files + [f], Files, nextRank);
      case DeleteFile(d, f) =>
        SetChildren(d, RemoveFirst(d.files, f), Files, nextRank);
      case RenameFile(f, _, newName) =>
        var _ := Rename(f, newName, Files, nextRank);
      case CdInto(target) =>
        Enter(disk, target, Disks, Files);
      case CdUp(_) =>
        Up(disk, Disks, Files);
      case DefineCriterion(owner, name, c) =>
        owner.criteria := owner.criteria[name := c];
    }

    /** undo: the last recorded action is taken off the undo stack and its
        undo closure runs; when the closure succeeds the action goes onto the
        redo stack, and when it throws the action is lost. */
    method Undo() returns (r: Outcome)
      requires Valid()
      modifies this`disk, this`undoStack, this`redoStack
      modifies ListsTouched(undoStack)`files, NamesTouched(undoStack)`name
      modifies StacksTouched(undoStack, disk)`stack, RegistriesTouched(undoStack)`criteria
      ensures Valid()
      ensures old(undoStack) == [] ==>
        r == Fail(NothingToUndo) && undoStack == old(undoStack) && redoStack == old(redoStack) && disk == old(disk)
      ensures old(undoStack) != [] ==> undoStack == old(undoStack[..|undoStack| - 1])
      ensures old(undoStack) != [] ==> (r.Fail? <==> old(Top(undoStack)).CdInto? && old(disk.stack) == [])
      ensures old(undoStack) != [] && r.Fail? ==> r.error == EmptyNavigationStack
      ensures r.Fail? ==> redoStack == old(redoStack)
      ensures r.Pass? ==> redoStack == old(redoStack) + [old(Top(undoStack))]
      ensures old(undoStack) != [] ==>
        var a := old(Top(undoStack));
        && disk == (if a.SwapDisk? then a.prevDisk else old(disk))
        && (a.CreateFile? ==> a.dir.files == old(RemoveFirst(a.dir.files, a.file)))
        && (a.DeleteFile? ==> a.dir.files == old(a.dir.files) + [a.file])
        && (a.RenameFile? ==> a.file.name == a.oldName)
        && (a.CdInto? ==> disk.stack == if old(disk.stack) == [] then [] else old(disk.stack)[..|old(disk.stack)| - 1])
        && (a.CdUp? ==>
              disk.stack == if a.prevDir == old(disk.CurrentDirectory()) then old(disk.stack) else old(disk.stack) + [a.prevDir])
        && (a.DefineCriterion? ==> a.owner.criteria == old(a.owner.criteria) - {a.name})
    {
      if undoStack == [] {
        return Fail(NothingToUndo);
      }
      var a := PopUndo();
      r := Revert(a);
      if r.Fail? {
        return;
      }
      RecordRedo(a);
    }

    /** redo: the last undone action is taken off the redo stack, its redo
        closure runs, and it goes back onto the undo stack. */
    method Redo() returns (r: Outcome)
      requires Valid()
      modifies this`disk, this`undoStack, this`redoStack
      modifies ListsTouched(redoStack)`files, NamesTouched(redoStack)`name
      modifies StacksTouched(redoStack, disk)`stack, RegistriesTouched(redoStack)`criteria
      ensures Valid()
      ensures r.Fail? <==> old(redoStack) == []
      ensures r.Fail? ==>
        r.error == NothingToRedo && undoStack == old(undoStack) && redoStack == old(redoStack) && disk == old(disk)
      ensures r.Pass? ==> redoStack == old(redoStack[..|redoStack| - 1])
      ensures r.Pass? ==> undoStack == old(undoStack) + [old(Top(redoStack))]
      ensures r.Pass? ==>
        var a := old(Top(redoStack));
        && disk == (if a.SwapDisk? then a.nextDisk else old(disk))
        && (a.CreateFile? ==> a.dir.files == old(a.dir.files) + [a.file])
        && (a.DeleteFile? ==> a.dir.files == old(RemoveFirst(a.dir.files, a.file)))
        && (a.RenameFile? ==> a.file.name == a.newName)
        && (a.CdInto? ==>
              disk.stack == if a.target == old(disk.CurrentDirectory()) then old(disk.stack) else old(disk.stack) + [a.target])
        && (a.CdUp? ==> disk.stack == if old(disk.stack) == [] then [] else old(disk.stack)[..|old(disk.stack)| - 1])
        && (a.DefineCriterion? ==> a.owner.criteria == old(a.owner.criteria)[a.name := a.criterion])
    {
      if redoStack == [] {
        return Fail(NothingToRedo);
      }
      var a := PopRedo();
      Replay(a);
      Record(a);
      r := Pass;
    }
  }
}
