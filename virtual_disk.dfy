/** VirtualDisk: a capacity, a root directory, the navigation stack of the
    directories the user has entered, and the registry of criteria by name.

    The stack holds directories bottom first; its top is the working directory,
    and the root is the working directory when the stack is empty. */
module Disk {
  import opened Outcomes
  import opened Text
  import opened FileTree
  import opened Criteria

  /** The name of every disk's root directory. */
  const RootName: string := "root"

  lemma RootNameValid()
    ensures ValidFileName(RootName)
  {
    assert forall i :: 0 <= i < |RootName| ==> IsAsciiAlphanumeric(RootName[i]);
  }

  /** The names of a list of files, in order. */
  function Names(fs: seq<File>): (ns: seq<string>)
    reads fs
    ensures |ns| == |fs|
    ensures forall i :: 0 <= i < |fs| ==> ns[i] == fs[i].name
  {
    if fs == [] then [] else Names(fs[..|fs| - 1]) + [fs[|fs| - 1].name]
  }

  /** The names joined with `:` between them. */
  function Join(ns: seq<string>): string
    requires ns != []
  {
    if |ns| == 1 then ns[0] else Join(ns[..|ns| - 1]) + ":" + ns[|ns| - 1]
  }

  /** The names each followed by `:`, as the path builder appends them. */
  function Terminated(ns: seq<string>): (s: string)
    ensures ns != [] ==> |s| > 0 && s[|s| - 1] == ':'
  {
    if ns == [] then "" else Terminated(ns[..|ns| - 1]) + ns[|ns| - 1] + ":"
  }

  /** Dropping the last `:` of the builder leaves the names joined by `:`. */
  lemma {:induction false} TerminatedJoin(ns: seq<string>)
    requires ns != []
    ensures Terminated(ns)[..|Terminated(ns)| - 1] == Join(ns)
  {
    var t := Terminated(ns);
    if |ns| == 1 {
      assert ns[..0] == [];
      assert t == ns[0] + ":";
    } else {
      var ns' := ns[..|ns| - 1];
      TerminatedJoin(ns');
      var t' := Terminated(ns');
      assert t == t' + ns[|ns| - 1] + ":";
      assert t[..|t| - 1] == t' + ns[|ns| - 1];
      assert t' == t'[..|t'| - 1] + ":";
    }
  }

  /** The path of a disk whose root is named `rootName` and whose stack holds
      directories named `ns`: the root's name alone, or `root:` and the names. */
  function Path(rootName: string, ns: seq<string>): string {
    if ns == [] then rootName else "root:" + Join(ns)
  }

  /** Entering a directory named `n` extends the path by `:n`. */
  lemma PathExtends(rootName: string, ns: seq<string>, n: string)
    ensures Path(rootName, ns + [n]) == (if ns == [] then "root" else Path(rootName, ns)) + ":" + n
  {
    if ns != [] {
      assert (ns + [n])[..|ns + [n]| - 1] == ns;
    }
  }

  class VirtualDisk {
    const maxSize: int
    const root: File
    /** The navigation stack, bottom first. */
    var stack: seq<File>
    /** The registry: criterion names to criteria. */
    var criteria: map<string, Criterion>

    /** A new disk: the given capacity, a fresh empty root named `root`, an
        empty stack, and a registry holding only `IsDocument`. */
    constructor (maxSize: int, ghost rank: nat)
      ensures this.maxSize == maxSize
      ensures fresh(root) && root.name == RootName && root.isDirectory
      ensures root.files == [] && root.rank == rank
      ensures stack == [] && criteria == map[IsDocumentName := IsDocumentCriterion]
    {
      this.maxSize := maxSize;
      RootNameValid();
      root := new File.Directory(RootName, rank);
      stack := [];
      criteria := map[IsDocumentName := IsDocumentCriterion];
    }

    /** VirtualDisk.getCurrentWorkingDirectory. */
    function CurrentDirectory(): File
      reads this
    {
      if stack == [] then root else stack[|stack| - 1]
    }

    /** Enters `d`: nothing happens when `d` is already the working directory
        (the same object), otherwise `d` is pushed. */
    method ChangeWorkingDirectory(d: File)
      modifies this`stack
      ensures stack == if d == old(CurrentDirectory()) then old(stack) else old(stack) + [d]
      ensures CurrentDirectory() == d
    {
      if d == CurrentDirectory() {
        return;
      }
      stack := stack + [d];
    }

    /** Goes up one level: nothing on an empty stack, otherwise exactly one pop,
        since the follow-up change of directory targets the directory that is
        already current. */
    method ChangeWorkingDirectoryToParent()
      modifies this`stack
      ensures stack == if old(stack) == [] then [] else old(stack)[..|old(stack)| - 1]
    {
      if stack == [] {
        return;
      }
      stack := stack[..|stack| - 1];
      if stack == [] {
        ChangeWorkingDirectory(root);
        return;
      }
      ChangeWorkingDirectory(stack[|stack| - 1]);
    }

    /** Pops the stack without looking; on an empty stack this is Java's
        EmptyStackException, and nothing changes. */
    method ChangeWorkingDirectoryToPrevious() returns (r: Outcome)
      modifies this`stack
      ensures r.Pass? <==> old(stack) != []
      ensures r.Fail? ==> r.error == EmptyNavigationStack && stack == old(stack)
      ensures r.Pass? ==> stack == old(stack)[..|old(stack)| - 1]
    {
      if stack == [] {
        return Fail(EmptyNavigationStack);
      }
      stack := stack[..|stack| - 1];
      r := Pass;
    }

    /** VirtualDisk.getWorkkingDirPath: appends each stacked name and a `:`,
        then drops the last `:` and puts `root:` in front. */
    method WorkingDirPath() returns (p: string)
      ensures p == Path(root.name, Names(stack))
    {
      if stack == [] {
        return root.name;
      }
      var builder := "";
      for i := 0 to |stack|
        invariant builder == Terminated(Names(stack[..i]))
      {
        assert Names(stack[..i + 1]) == Names(stack[..i]) + [stack[i].name] by {
          assert stack[..i + 1][..i] == stack[..i];
        }
        builder := builder + stack[i].name + ":";
      }
      assert stack[..|stack|] == stack;
      TerminatedJoin(Names(stack));
      p := "root:" + builder[..|builder| - 1];
    }
  }
}
