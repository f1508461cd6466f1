# CVFS model layer in Dafny

This project models the model layer of CVFS, a comprehensive virtual file system
held in memory. A virtual disk has a capacity, a root directory, a stack of the
directories the user has entered, and a registry of named search criteria. The
file system service (`CVFS`) works on one current disk. It creates, deletes,
renames and lists documents and directories, navigates, defines and evaluates
criteria, checks the disk quota, and keeps undo and redo stacks of actions.

Modules, one per part of the source:

- `Outcomes`: the error kinds (one per exception the source throws) and the
  `Outcome`, `Result` and `Option` types.
- `Text`: the library behaviour the source relies on. This covers
  `String.trim`, `String.contains`, the `^[a-zA-Z0-9]+$` pattern,
  `Long.parseLong`, and `String.length()`, which counts UTF-16 code units.
- `FileTree` (`File.java`, `Document.java`, `Directory.java`):
  - one class `File` for both kinds of file;
  - name validation, sizes and the document constructor checks;
  - the child-list helpers that `CVFS` uses.
- `Criteria` (the `criteria` package): criteria are an immutable datatype.
  The module covers their constructors with their validation order, and their
  evaluation against a snapshot of a file.
- `Listing`: `rList`, the breadth-first walk in buckets, and what the quota
  check adds up over it.
- `Filtering`: the filters behind `searchByCriterion` and
  `searchRecursivelyByCriterion`.
- `Disk` (`VirtualDisk.java`): a class with the navigation stack and the
  criteria registry as fields.
- `Service` (`CVFS.java`): a class with the current disk and the two action
  stacks as fields.

The source stores each undoable command as a pair of closures (`BonusFeatures`).
Here it is an `Action` value that names the objects those closures captured.
`Revert` and `Replay` then do what the undo and redo closures do.

Files live in a heap whose ghost invariant (`Closed`, `HeapOk`) says three
things:

- every child outranks its parent in allocation order;
- every name is valid;
- documents have no children and carry one of the four document types.

Every operation of `CVFS` keeps this invariant (`Valid`), so sizes and
traversals are well defined, and the same file may appear more than once in
a child list.

The model follows the code, including these behaviours:

- The quota check does not sum the whole tree. It adds up the sizes of every
  file in every bucket of `rList` from the working directory. Files nested in
  a subdirectory therefore count once inside that subdirectory's size and
  once more by themselves (`Listing.QuotaTotal`).
- Undo does not always restore the earlier state:
  - undoing a deletion puts the file back at the end of its directory
    (`FileTree.RemoveFirstThenAppend`);
  - undoing the redefinition of a criterion removes the name altogether
    (`Service.UndoDefinitionForgets`);
  - undoing an entry into a directory pops whatever the current disk's
    stack holds, and when that stack is empty the pop throws and the action
    is lost (`Service.CVFS.Undo`).

## Model

Source paths below are relative to the repository root, under
`Group11/src/hk/edu/polyu/comp/comp2021/cvfs/model/`.

| member | source | states |
|---|---|---|
| Text.TrimStart | Group11/src/hk/edu/polyu/comp/comp2021/cvfs/model/File.java:43 | the result is a suffix of the input that does not start with a character up to U+0020, and only such characters were cut |
| Text.TrimEnd | Group11/src/hk/edu/polyu/comp/comp2021/cvfs/model/File.java:43 | the result is a prefix of the input that does not end with a character up to U+0020, and only such characters were cut |
| Text.TrimIsSlice | Group11/src/hk/edu/polyu/comp/comp2021/cvfs/model/File.java:43 | `trim` returns a contiguous slice of the input whose two ends are not whitespace; everything cut on either side is whitespace |
| Text.TrimEmpty | Group11/src/hk/edu/polyu/comp/comp2021/cvfs/model/File.java:43-44 | a name trims to the empty string exactly when every character of it is whitespace |
| Text.TrimAlphanumeric | Group11/src/hk/edu/polyu/comp/comp2021/cvfs/model/File.java:43-53 | a name matching the alphanumeric pattern is unchanged by `trim`, so the blank check never rejects a name the pattern accepts |
| Text.ContainsEmpty | Group11/src/hk/edu/polyu/comp/comp2021/cvfs/model/criteria/FileNameCriterion.java:37-39 | every name contains the empty string |
| Text.Utf16Length | Group11/src/hk/edu/polyu/comp/comp2021/cvfs/model/File.java:46 | `String.length()` counts UTF-16 code units: at least one and at most two per character, and more units than characters once any character, wherever it stands, lies above U+FFFF |
| Text.Utf16LengthBmp | Group11/src/hk/edu/polyu/comp/comp2021/cvfs/model/Document.java:44 | a string with no character above U+FFFF has exactly as many code units as characters |
| Text.AlphanumericUtf16Length | Group11/src/hk/edu/polyu/comp/comp2021/cvfs/model/criteria/FileCriterion.java:35-44 | a name the alphanumeric pattern accepts has as many code units as characters, so the length checks agree with counting characters on it |
| Text.ParseLong | Group11/src/hk/edu/polyu/comp/comp2021/cvfs/model/criteria/FileSizeCriterion.java:33-37 | a string parses only if it is an optional sign followed by one or more decimal digits, and then to its signed value, which lies within the range of `long` |
| Text.ParseSignedDigits | Group11/src/hk/edu/polyu/comp/comp2021/cvfs/model/criteria/FileSizeCriterion.java:33-37 | conversely, every optional `-` or `+` followed by one or more digits, leading zeros allowed, parses to its signed value when that value is a `long` |
| Text.ParseLongExamples | Group11/src/hk/edu/polyu/comp/comp2021/cvfs/model/criteria/FileSizeCriterion.java:33-37 | `+007` reads as 7 and `-0` as 0, while a sign alone, the empty string and `1a` are rejected |
| Text.DecimalString | Group11/src/hk/edu/polyu/comp/comp2021/cvfs/model/criteria/FileSizeCriterion.java:34 | the decimal rendering of a number is a non-empty string of digits |
| Text.DecimalStringValue | Group11/src/hk/edu/polyu/comp/comp2021/cvfs/model/criteria/FileSizeCriterion.java:42 | the digits of a rendering read back as the number |
| Text.ParseDecimal | Group11/src/hk/edu/polyu/comp/comp2021/cvfs/model/criteria/FileSizeCriterion.java:34 | round trip: parsing the rendering of any `long`, negative ones with a leading `-`, gives the value back |
| FileTree.ValidateFileName | Group11/src/hk/edu/polyu/comp/comp2021/cvfs/model/File.java:42-55 | a name passes iff it has 1 to 10 ASCII letters or digits; the failures come in the source's order: blank, then more than 10 UTF-16 code units, then not alphanumeric, each pinned to its error |
| FileTree.SupplementaryNameTooLong | Group11/src/hk/edu/polyu/comp/comp2021/cvfs/model/File.java:46-47 | six characters above U+FFFF make twelve code units, so the name is rejected as too long before the pattern is tried |
| FileTree.File.Document | Group11/src/hk/edu/polyu/comp/comp2021/cvfs/model/Document.java:23-28 | a new document has the given name, type and content and no children |
| FileTree.File.Directory | Group11/src/hk/edu/polyu/comp/comp2021/cvfs/model/Directory.java:20-23 | a new directory has the given name and an empty child list |
| FileTree.File.SetName | Group11/src/hk/edu/polyu/comp/comp2021/cvfs/model/File.java:69-72 | the name is validated first; it changes to the new name exactly when that name is valid, and is left as it was otherwise |
| FileTree.File.GetSize | Group11/src/hk/edu/polyu/comp/comp2021/cvfs/model/Directory.java:33-39 | the accumulating loop over the children returns the recursive size of the file |
| FileTree.ValidateDocument | Group11/src/hk/edu/polyu/comp/comp2021/cvfs/model/Document.java:23-39 | a document passes iff its name is valid and its type is one of `txt`, `html`, `java`, `css`; the name is checked before the type |
| FileTree.NewDocument | Group11/src/hk/edu/polyu/comp/comp2021/cvfs/model/Document.java:23-28 | construction fails exactly when validation fails, with the same error; on success it yields a fresh document with the given fields |
| FileTree.NewDirectory | Group11/src/hk/edu/polyu/comp/comp2021/cvfs/model/Directory.java:20-23 | construction fails exactly on an invalid name, with the name's error; on success it yields a fresh empty directory |
| FileTree.Size | Group11/src/hk/edu/polyu/comp/comp2021/cvfs/model/File.java:36 | every file, of either kind, has a size of at least 40 |
| FileTree.SumSizes | Group11/src/hk/edu/polyu/comp/comp2021/cvfs/model/Directory.java:34-37 | the sizes of a list add up to at least 40 per file |
| FileTree.SumSizesAppend | Group11/src/hk/edu/polyu/comp/comp2021/cvfs/model/Directory.java:34-37 | summing sizes is additive over concatenation |
| FileTree.DocumentSize | Group11/src/hk/edu/polyu/comp/comp2021/cvfs/model/Document.java:43-45 | a document's size is 40 plus two per UTF-16 code unit of the content, between 40 plus two and 40 plus four per character, and exactly 40 iff the content is empty |
| FileTree.DirectorySize | Group11/src/hk/edu/polyu/comp/comp2021/cvfs/model/Directory.java:33-39 | a directory's size is 40 plus the sum of its children's sizes; an empty directory has size 40 |
| FileTree.ChildSmaller | Group11/src/hk/edu/polyu/comp/comp2021/cvfs/model/Directory.java:33-39 | a directory is strictly larger than each of its children |
| FileTree.RemoveFirst | Group11/src/hk/edu/polyu/comp/comp2021/cvfs/model/CVFS.java:220 | removing a file by reference leaves a list without it unchanged, and otherwise shortens the list by one and adds nothing |
| FileTree.RemoveFirstAt | Group11/src/hk/edu/polyu/comp/comp2021/cvfs/model/CVFS.java:212-220 | removing the first occurrence of the file at index k leaves the files before k and after k, in order |
| FileTree.RemoveFirstThenAppend | Group11/src/hk/edu/polyu/comp/comp2021/cvfs/model/CVFS.java:220-226 | deleting a file and undoing the deletion moves its first occurrence to the end of the directory, and this restores the original list exactly when every entry from that occurrence on is the same file |
| FileTree.AppendThenRemoveFirst | Group11/src/hk/edu/polyu/comp/comp2021/cvfs/model/CVFS.java:123-129 | adding a file that was not in the directory and undoing the addition restores the child list exactly |
| FileTree.IndexOfName | Group11/src/hk/edu/polyu/comp/comp2021/cvfs/model/CVFS.java:146-153 | the index is that of the first file with the name, or -1 exactly when no file has it |
| Criteria.ValidateCriterionName | Group11/src/hk/edu/polyu/comp/comp2021/cvfs/model/criteria/FileCriterion.java:34-47 | a name passes iff it is alphanumeric and, when the length is checked, has exactly 2 UTF-16 code units; the length is checked before the pattern |
| Criteria.SupplementaryCriterionName | Group11/src/hk/edu/polyu/comp/comp2021/cvfs/model/criteria/FileCriterion.java:35-44 | a single character above U+FFFF is two code units long, so it passes the length check and fails the pattern |
| Criteria.IsDocumentNameExempt | Group11/src/hk/edu/polyu/comp/comp2021/cvfs/model/criteria/IsDocumentCriterion.java:13-15 | `IsDocument` passes only because its length check is switched off; a user-defined criterion could not take this name |
| Criteria.ValidCriterionNameIff | Group11/src/hk/edu/polyu/comp/comp2021/cvfs/model/criteria/FileCriterion.java:34-45 | a user-defined criterion name is exactly two ASCII letters or digits |
| Criteria.Unquote | Group11/src/hk/edu/polyu/comp/comp2021/cvfs/model/criteria/FileNameCriterion.java:38 | stripping the quotes drops the first and last character and keeps the rest in place |
| Criteria.NewNameCriterion | Group11/src/hk/edu/polyu/comp/comp2021/cvfs/model/criteria/FileNameCriterion.java:17-34 | accepted iff the name is valid, the operator is `contains` and the value is quoted; the errors come in that order |
| Criteria.NewSizeCriterion | Group11/src/hk/edu/polyu/comp/comp2021/cvfs/model/criteria/FileSizeCriterion.java:18-38 | accepted iff the name is valid, the operator is one of the six comparisons and the value parses as a `long`; the errors come in that order |
| Criteria.NewTypeCriterion | Group11/src/hk/edu/polyu/comp/comp2021/cvfs/model/criteria/FileTypeCriterion.java:19-36 | accepted iff the name is valid, the operator is `equals` and the value is quoted; the errors come in that order |
| Criteria.NewNegation | Group11/src/hk/edu/polyu/comp/comp2021/cvfs/model/criteria/NegationCompositeCriterion.java:17-20 | accepted iff the name is valid; the target is kept as given |
| Criteria.NewBinary | Group11/src/hk/edu/polyu/comp/comp2021/cvfs/model/criteria/BinaryCompositeCriterion.java:26-45 | accepted iff the name is valid and the operand is one of the two logical operators; the name is checked first |
| Criteria.NameCriterionMeaning | Group11/src/hk/edu/polyu/comp/comp2021/cvfs/model/criteria/FileNameCriterion.java:37-40 | an accepted name criterion matches exactly the files whose name contains the unquoted literal; it fails to evaluate exactly for the lone `"` literal |
| Criteria.EmptyLiteralMatchesAll | Group11/src/hk/edu/polyu/comp/comp2021/cvfs/model/criteria/FileNameCriterion.java:37-40 | the literal `""` matches every file |
| Criteria.SizeOperatorRelations | Group11/src/hk/edu/polyu/comp/comp2021/cvfs/model/criteria/FileSizeCriterion.java:41-66 | a size criterion compares the file size with the literal's value; `>=`, `<=`, `!=` and `<` agree with `>`, `==` and their complements |
| Criteria.SizeCriterionTotal | Group11/src/hk/edu/polyu/comp/comp2021/cvfs/model/criteria/FileSizeCriterion.java:41-66 | every accepted size criterion evaluates without failing, on documents and directories alike |
| Criteria.TypeCriterionSkipsDirectories | Group11/src/hk/edu/polyu/comp/comp2021/cvfs/model/criteria/FileTypeCriterion.java:39-43 | a type criterion never matches a directory, whatever its literal |
| Criteria.TypeCriterionMeaning | Group11/src/hk/edu/polyu/comp/comp2021/cvfs/model/criteria/FileTypeCriterion.java:39-51 | on a document, an accepted type criterion matches iff the type equals the unquoted literal; it fails exactly for the lone `"` literal |
| Criteria.TypeOutsideAllowedMatchesNothing | Group11/src/hk/edu/polyu/comp/comp2021/cvfs/model/criteria/FileTypeCriterion.java:39-51 | a literal outside the four document types matches no file |
| Criteria.IsDocumentMeaning | Group11/src/hk/edu/polyu/comp/comp2021/cvfs/model/criteria/IsDocumentCriterion.java:18-20 | `IsDocument` always evaluates, and matches exactly the documents |
| Criteria.NegationComplement | Group11/src/hk/edu/polyu/comp/comp2021/cvfs/model/criteria/NegationCompositeCriterion.java:23-25 | a negation fails exactly when its target fails, and otherwise answers the complement |
| Criteria.DoubleNegation | Group11/src/hk/edu/polyu/comp/comp2021/cvfs/model/criteria/NegationCompositeCriterion.java:23-25 | negating a negation evaluates like the original criterion |
| Criteria.BinaryMeaning | Group11/src/hk/edu/polyu/comp/comp2021/cvfs/model/criteria/BinaryCompositeCriterion.java:48-54 | when both operands evaluate, the or-operand gives their disjunction and any other operand their conjunction; swapping the operands changes nothing |
| Criteria.BinaryShortCircuitAsymmetric | Group11/src/hk/edu/polyu/comp/comp2021/cvfs/model/criteria/BinaryCompositeCriterion.java:48-54 | short-circuiting breaks symmetry: `IsDocument` or null holds of a document, while null or `IsDocument` throws |
| Criteria.TotalEvaluates | Group11/src/hk/edu/polyu/comp/comp2021/cvfs/model/criteria/FileCriterion.java:60 | a criterion built only from evaluable parts evaluates on every file |
| Criteria.AcceptedSimpleTotal | Group11/src/hk/edu/polyu/comp/comp2021/cvfs/model/criteria/SimpleCriterion.java:27-44 | what the simple constructors accept always evaluates, except a name or type criterion with the lone `"` literal |
| Listing.SubBuckets | Group11/src/hk/edu/polyu/comp/comp2021/cvfs/model/CVFS.java:372-378 | the buckets a list of files queues are all at the given level |
| Listing.WalkStep | Group11/src/hk/edu/polyu/comp/comp2021/cvfs/model/CVFS.java:369-378 | each turn of the loop leaves one fewer bucket still to emit, so the walk ends |
| Listing.WalkLength | Group11/src/hk/edu/polyu/comp/comp2021/cvfs/model/CVFS.java:369-379 | the walk emits exactly as many buckets as the queue weighs |
| Listing.OneBucketPerDirectory | Group11/src/hk/edu/polyu/comp/comp2021/cvfs/model/CVFS.java:359-381 | rList emits one bucket per directory of the subtree, empty ones included, starting with the working directory's children at level 0 |
| Listing.WalkLevels | Group11/src/hk/edu/polyu/comp/comp2021/cvfs/model/CVFS.java:369-378 | along the walk of a graded queue, each level is the previous one or one more, and none is below the first |
| Listing.ListLevels | Group11/src/hk/edu/polyu/comp/comp2021/cvfs/model/CVFS.java:366-378 | rList's levels start at 0, never decrease and grow by at most one from bucket to bucket |
| Listing.WalkDepths | Group11/src/hk/edu/polyu/comp/comp2021/cvfs/model/CVFS.java:369-378 | the walk emits, up to order, each queued bucket followed by one bucket per directory below it, every subdirectory one level deeper than its parent |
| Listing.SubBucketsDepth | Group11/src/hk/edu/polyu/comp/comp2021/cvfs/model/CVFS.java:372-378 | what a list of files queues at level l unfolds to the depth buckets of its directories, each starting at level l |
| Listing.ListDepths | Group11/src/hk/edu/polyu/comp/comp2021/cvfs/model/CVFS.java:359-381 | rList emits, up to order, exactly one bucket per directory of the subtree holding that directory's child list, at its depth below the working directory (the working directory at 0, each child directory one deeper than its parent) |
| Listing.WalkCovers | Group11/src/hk/edu/polyu/comp/comp2021/cvfs/model/CVFS.java:369-379 | the walk emits every file below the queued buckets, each as often as it occurs there |
| Listing.ListCoversSubtree | Group11/src/hk/edu/polyu/comp/comp2021/cvfs/model/CVFS.java:359-381 | the files rList emits are exactly the files below the working directory, with their multiplicities |
| Listing.SumSizesPermutation | Group11/src/hk/edu/polyu/comp/comp2021/cvfs/model/CVFS.java:84-88 | the total of the quota loop does not depend on the order in which the files are visited |
| Listing.QuotaTotal | Group11/src/hk/edu/polyu/comp/comp2021/cvfs/model/CVFS.java:82-96 | the quota total is the sum of the sizes of every file below the working directory, and is at least the working directory's size less 40 |
| Listing.ListBuckets | Group11/src/hk/edu/polyu/comp/comp2021/cvfs/model/CVFS.java:359-381 | the breadth-first loop returns exactly the walk from the directory's children |
| Listing.TakeBucket | Group11/src/hk/edu/polyu/comp/comp2021/cvfs/model/CVFS.java:370-378 | one turn emits the head of the queue and lightens the queue, leaving what is emitted so far plus the rest of the walk unchanged |
| Listing.EnqueueDirectories | Group11/src/hk/edu/polyu/comp/comp2021/cvfs/model/CVFS.java:372-378 | the inner loop appends, in order, one bucket per directory of the list at the next level |
| Listing.BucketsSize | Group11/src/hk/edu/polyu/comp/comp2021/cvfs/model/CVFS.java:84-88 | the nested loop returns the sum of the sizes of all files of all buckets |
| Listing.AddSizes | Group11/src/hk/edu/polyu/comp/comp2021/cvfs/model/CVFS.java:85-87 | the inner loop adds the sizes of one bucket's files to the running total |
| Filtering.SelectFails | Group11/src/hk/edu/polyu/comp/comp2021/cvfs/model/CVFS.java:535-539 | a filter fails exactly when the criterion fails on some file of the list |
| Filtering.SelectMembers | Group11/src/hk/edu/polyu/comp/comp2021/cvfs/model/CVFS.java:535-539 | a successful filter keeps exactly the files the criterion accepts |
| Filtering.SelectShorter | Group11/src/hk/edu/polyu/comp/comp2021/cvfs/model/CVFS.java:535-539 | a filter never lengthens the list |
| Filtering.SelectAppend | Group11/src/hk/edu/polyu/comp/comp2021/cvfs/model/CVFS.java:535-539 | filtering keeps the order: the filter of a concatenation is the concatenation of the filters |
| Filtering.SelectBuckets | Group11/src/hk/edu/polyu/comp/comp2021/cvfs/model/CVFS.java:648-658 | no bucket of a recursive search's result is empty |
| Filtering.SelectBucketsFlatten | Group11/src/hk/edu/polyu/comp/comp2021/cvfs/model/CVFS.java:642-660 | read bucket after bucket, the recursive search returns the filter of the whole listing, and it fails exactly when that filter fails |
| Filtering.SelectBucketsEach | Group11/src/hk/edu/polyu/comp/comp2021/cvfs/model/CVFS.java:648-653 | a recursive search that succeeds filtered every bucket of the listing successfully |
| Filtering.KeptIndicesIncrease | Group11/src/hk/edu/polyu/comp/comp2021/cvfs/model/CVFS.java:648-657 | the listing buckets kept by the search are taken in strictly increasing order |
| Filtering.KeptIndicesMatch | Group11/src/hk/edu/polyu/comp/comp2021/cvfs/model/CVFS.java:655-657 | the j-th returned bucket is the filtered j-th kept listing bucket, with that bucket's own level |
| Filtering.KeptIndicesSkip | Group11/src/hk/edu/polyu/comp/comp2021/cvfs/model/CVFS.java:655-657 | a listing bucket the search drops filters to the empty list |
| Filtering.SelectBucketsIndices | Group11/src/hk/edu/polyu/comp/comp2021/cvfs/model/CVFS.java:646-659 | a successful recursive search returns, in order, one bucket per listing bucket whose filter is non-empty, carrying that bucket's level and its filtered files; every other listing bucket filters to nothing |
| Filtering.RecursiveSearchMembers | Group11/src/hk/edu/polyu/comp/comp2021/cvfs/model/CVFS.java:642-660 | a successful recursive search returns exactly the files below the working directory that the criterion accepts |
| Filtering.Lookup | Group11/src/hk/edu/polyu/comp/comp2021/cvfs/model/CVFS.java:623-635 | the lookup yields the registered criterion; an unknown name and a null entry are errors |
| Filtering.Filter | Group11/src/hk/edu/polyu/comp/comp2021/cvfs/model/CVFS.java:535-539 | the loop over the files returns the filter of the list, failing at the first file whose evaluation fails |
| Filtering.FilterBuckets | Group11/src/hk/edu/polyu/comp/comp2021/cvfs/model/CVFS.java:646-659 | the loop over the buckets returns the filtered non-empty buckets with their levels, or fails when one bucket does |
| Disk.RootNameValid | Group11/src/hk/edu/polyu/comp/comp2021/cvfs/model/VirtualDisk.java:37 | `root` is a valid file name, so constructing a disk never fails |
| Disk.Names | Group11/src/hk/edu/polyu/comp/comp2021/cvfs/model/VirtualDisk.java:90-92 | the names of the stacked directories, one per directory, in stack order |
| Disk.TerminatedJoin | Group11/src/hk/edu/polyu/comp/comp2021/cvfs/model/VirtualDisk.java:89-95 | dropping the builder's trailing `:` leaves the names joined by `:` |
| Disk.PathExtends | Group11/src/hk/edu/polyu/comp/comp2021/cvfs/model/VirtualDisk.java:81-96 | entering a directory named n extends the path by `:n` |
| Disk.VirtualDisk.constructor | Group11/src/hk/edu/polyu/comp/comp2021/cvfs/model/VirtualDisk.java:35-44 | a new disk has the given capacity, a fresh empty root named `root`, an empty stack and a registry holding only `IsDocument` |
| Disk.VirtualDisk.ChangeWorkingDirectory | Group11/src/hk/edu/polyu/comp/comp2021/cvfs/model/VirtualDisk.java:104-112 | the directory becomes the working directory; it is pushed unless it already is the working directory |
| Disk.VirtualDisk.ChangeWorkingDirectoryToParent | Group11/src/hk/edu/polyu/comp/comp2021/cvfs/model/VirtualDisk.java:59-76 | going up pops exactly one directory, and does nothing at the root |
| Disk.VirtualDisk.ChangeWorkingDirectoryToPrevious | Group11/src/hk/edu/polyu/comp/comp2021/cvfs/model/VirtualDisk.java:133-135 | the unchecked pop succeeds iff the stack is non-empty; on an empty stack it fails and changes nothing |
| Disk.VirtualDisk.WorkingDirPath | Group11/src/hk/edu/polyu/comp/comp2021/cvfs/model/VirtualDisk.java:81-96 | the path is the root's name at the root, and otherwise `root:` followed by the stacked names joined by `:` |
| Service.FindFile | Group11/src/hk/edu/polyu/comp/comp2021/cvfs/model/CVFS.java:146-153 | finds nothing iff no child has the name, and otherwise the first child that has it |
| Service.Unlink | Group11/src/hk/edu/polyu/comp/comp2021/cvfs/model/CVFS.java:212-220 | the first child with the name leaves the directory and the others keep their order; nothing changes when no child has the name |
| Service.RenameToSameNameFails | Group11/src/hk/edu/polyu/comp/comp2021/cvfs/model/CVFS.java:249-260 | renaming a file to its own name always fails, because the file itself already holds that name |
| Service.TypeOutsideAllowedOnHeap | Group11/src/hk/edu/polyu/comp/comp2021/cvfs/model/criteria/FileTypeCriterion.java:39-51 | on any file of the service's tree, a type criterion whose literal is none of the four document types evaluates to false |
| Service.SimpleCriterion | Group11/src/hk/edu/polyu/comp/comp2021/cvfs/model/CVFS.java:437-447 | an attribute other than `name`, `size` and `type` builds nothing; a built criterion is a simple one that carries the given name, operator and value and has a valid name; a rejection is one of the constructors' four errors |
| Service.UndoDefinitionForgets | Group11/src/hk/edu/polyu/comp/comp2021/cvfs/model/CVFS.java:462-469 | undoing a definition removes the name, which differs from the earlier registry whenever the name was already defined, and redoing it puts the recorded criterion back |
| Service.CVFS.constructor | Group11/src/hk/edu/polyu/comp/comp2021/cvfs/model/CVFS.java:34-41 | a new service works on a fresh disk of capacity 600 and has nothing to undo or redo |
| Service.CVFS.RList | Group11/src/hk/edu/polyu/comp/comp2021/cvfs/model/CVFS.java:359-381 | returns the walk from the working directory, whose properties the Listing lemmas state |
| Service.CVFS.CheckDiskSize | Group11/src/hk/edu/polyu/comp/comp2021/cvfs/model/CVFS.java:82-96 | passes exactly when the quota total, plus 40, plus the new file's size, is within the disk's capacity |
| Service.CVFS.Admit | Group11/src/hk/edu/polyu/comp/comp2021/cvfs/model/CVFS.java:111-120 | the checks before an addition: a taken name, then the constructor's verdict, then the quota |
| Service.CVFS.PrepareDocument | Group11/src/hk/edu/polyu/comp/comp2021/cvfs/model/CVFS.java:106-120 | yields a fresh document with the given fields exactly when the checks pass, and the first failing check's error otherwise |
| Service.CVFS.NewDocument | Group11/src/hk/edu/polyu/comp/comp2021/cvfs/model/CVFS.java:106-139 | on success the fresh document is appended to the working directory and its creation is recorded; on failure nothing changes; only the working directory's child list, the undo stack and the ghost heap may change |
| Service.CVFS.PrepareDirectory | Group11/src/hk/edu/polyu/comp/comp2021/cvfs/model/CVFS.java:170-182 | yields a fresh empty directory exactly when the checks pass, with a size of 40 |
| Service.CVFS.NewDirectory | Group11/src/hk/edu/polyu/comp/comp2021/cvfs/model/CVFS.java:170-199 | on success the fresh directory is appended to the working directory and its creation is recorded; on failure nothing changes; only the working directory's child list, the undo stack and the ghost heap may change |
| Service.CVFS.DeleteFile | Group11/src/hk/edu/polyu/comp/comp2021/cvfs/model/CVFS.java:207-234 | succeeds iff a child has the name; that first child leaves, the others keep their order, and the deletion is recorded; a failure changes nothing; only the working directory's child list and the undo stack may change |
| Service.CVFS.RenameFile | Group11/src/hk/edu/polyu/comp/comp2021/cvfs/model/CVFS.java:244-279 | fails on a missing old name, a taken new name or an invalid new name, in that order, and then changes no name; otherwise only the target is renamed and the rename is recorded; only the names of the working directory's children and the undo stack may change |
| Service.CVFS.ChangeDir | Group11/src/hk/edu/polyu/comp/comp2021/cvfs/model/CVFS.java:287-340 | `..` after trimming always goes up and records the directory left; another name must be a child directory, which is pushed and recorded; a failure changes nothing; only the current disk's stack and the undo stack may change |
| Service.CVFS.EnterChild | Group11/src/hk/edu/polyu/comp/comp2021/cvfs/model/CVFS.java:292-321 | a missing name fails first, then a document; a child directory is pushed and recorded |
| Service.CVFS.GoUp | Group11/src/hk/edu/polyu/comp/comp2021/cvfs/model/CVFS.java:322-339 | the stack loses its top, or stays empty, and the directory left is recorded |
| Service.CVFS.List | Group11/src/hk/edu/polyu/comp/comp2021/cvfs/model/CVFS.java:348-352 | the listing is the working directory's child list, the first bucket of rList |
| Service.CVFS.GetWorkingDirPath | Group11/src/hk/edu/polyu/comp/comp2021/cvfs/model/CVFS.java:422-424 | the path of the current disk's stack |
| Service.CVFS.Define | Group11/src/hk/edu/polyu/comp/comp2021/cvfs/model/CVFS.java:456-473 | the criterion is registered under the name, replacing any earlier one, and the definition is recorded |
| Service.CVFS.CreateSimpleCriterion | Group11/src/hk/edu/polyu/comp/comp2021/cvfs/model/CVFS.java:435-450 | fails exactly when the selected constructor rejects its arguments, and then changes nothing; otherwise registers the criterion, or nothing for an unknown attribute, and records whatever the name then holds |
| Service.CVFS.CreateNegation | Group11/src/hk/edu/polyu/comp/comp2021/cvfs/model/CVFS.java:482-493 | an unregistered target fails; otherwise the negation of the target is registered and recorded exactly when its name is valid |
| Service.CVFS.CreateBinary | Group11/src/hk/edu/polyu/comp/comp2021/cvfs/model/CVFS.java:503-520 | an unregistered operand fails; otherwise the combination is registered and recorded exactly when its name and operand are valid |
| Service.CVFS.AllCriteria | Group11/src/hk/edu/polyu/comp/comp2021/cvfs/model/CVFS.java:546-548 | a criterion is listed iff some name maps to it in the current registry |
| Service.CVFS.Search | Group11/src/hk/edu/polyu/comp/comp2021/cvfs/model/CVFS.java:557-566 | returns the working directory's children the criterion accepts, or the lookup's or evaluation's failure |
| Service.CVFS.RecursiveSearch | Group11/src/hk/edu/polyu/comp/comp2021/cvfs/model/CVFS.java:642-660 | returns the filtered buckets of rList from the working directory, or the lookup's or evaluation's failure |
| Service.CVFS.NewDisk | Group11/src/hk/edu/polyu/comp/comp2021/cvfs/model/CVFS.java:55-76 | a fresh empty disk of the given capacity becomes current, and the swap from the previous disk is recorded |
| Service.CVFS.Revert | Group11/src/hk/edu/polyu/comp/comp2021/cvfs/model/CVFS.java:686 | each undo closure's effect, per kind of action (see the introduction above); only the unchecked pop of a directory entry can fail; it may change only the field the action touches (a directory's child list, a file's name, the current disk's stack, a registry) and which disk is current |
| Service.CVFS.Replay | Group11/src/hk/edu/polyu/comp/comp2021/cvfs/model/CVFS.java:672 | each redo closure's effect: the change is made again on the objects the action names; it may change only the field the action touches (a directory's child list, a file's name, the current disk's stack, a registry) and which disk is current |
| Service.CVFS.Undo | Group11/src/hk/edu/polyu/comp/comp2021/cvfs/model/CVFS.java:680-688 | fails on an empty undo stack and changes nothing; otherwise pops and reverts the last action and moves it to the redo stack, or loses it when reverting fails, which happens only for a directory entry on an empty stack and then reports `EmptyNavigationStack`, not `NothingToUndo`; besides the two stacks, only the field the top action touches and the current disk may change |
| Service.CVFS.Redo | Group11/src/hk/edu/polyu/comp/comp2021/cvfs/model/CVFS.java:666-674 | fails exactly on an empty redo stack and changes nothing; otherwise pops and replays the last undone action and pushes it back onto the undo stack; besides the two stacks, only the field the top action touches and the current disk may change |

## Left out

- `CVFS.store` and `CVFS.load` (CVFS.java:575-620) are not modelled. They are Java serialization to and from the host file system, which is I/O.
- `getVirtualDisk`, `getName`, `getType`, `getFiles`, `getMaxSize` and `getCriteriaMap` are plain field reads of the model's classes and have no members of their own.
- The `toString` methods and the messages the undo and redo closures print are left out, since they are output only.
- Exception messages are left out. Each exception becomes an error kind of `Outcomes`.
- Sizes, capacities and the quota total are unbounded integers, so Java `int` and `long` overflow is not modelled: `Document.getSize` multiplies the content length by 2 in `int`, which wraps from 2^30 code units on. Bucket levels are unbounded too, where Java's are `int`.
- Text.ParseLong: accepts only ASCII digits, while Java's `Long.parseLong` also accepts digits of other Unicode scripts.
- Service.CVFS.AllCriteria: returns a set, so the order of the Java `HashMap` values and repeated entries are not captured.
- Listing.Bucket: holds a copy of a directory's child list, while the Java `Bucket` aliases the live list. Nothing changes the tree while a listing or search runs, so the difference cannot be observed.
- Service.CVFS.PrepareDocument and Service.CVFS.PrepareDirectory build the new file before they check for a taken name, while Java checks first. The outcome and the state afterwards are the same.
- The files on a disk's navigation stack are not required to lie on a path from the root. The source does not keep that, since a redo can push any directory it recorded.
- Strings are sequences of Unicode scalar values, so Java strings holding an unpaired surrogate are not modelled. Lengths that the source takes with `String.length()` count UTF-16 code units (`Text.Utf16Length`).
