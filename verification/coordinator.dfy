/** The part of `main` that fans out one worker per file: the file-count
    check, one result slot per file written by that file's worker, and the
    read-back of the slots in input order. The workers are modelled as run
    one after another; each writes only its own slot. */
module Coordinator {
  import opened Wrappers
  import opened CType
  import opened Scanner
  import opened FileCounter

  const MaxFiles := 10
  const MaxFilenameLength := 256

  /** One slot of the result store: a file's count and its name. */
  datatype SharedData = SharedData(wordCount: int, filename: string)

  /** An input file: its name, its contents when opening it succeeds, and
      for each thread of the multi-threaded mode whether that thread's own
      open succeeds. */
  datatype FileInput = FileInput(name: string, content: Option<string>, chunkOpens: seq<bool>)

  datatype Mode = SingleThreaded | MultiThreaded(numThreads: nat)

  datatype RunError = Usage | TooManyFiles

  /** `strncpy(slot.filename, name, MAX_FILENAME_LENGTH - 1)` into a
      zero-filled slot: the name cut to at most 255 characters. */
  function Truncate(name: string): (r: string)
    ensures |r| <= |name| && |r| <= MaxFilenameLength - 1
    ensures r == name[..|r|]
    ensures |r| == |name| || |r| == MaxFilenameLength - 1
  {
    if |name| < MaxFilenameLength then name else name[..MaxFilenameLength - 1]
  }

  /** The count a file's worker stores, with the target already lowered. */
  function FileCount(f: FileInput, target: string, mode: Mode): int
    requires mode.MultiThreaded? ==> 1 <= mode.numThreads && |f.chunkOpens| == mode.numThreads
  {
    match f.content
    case None => -1
    case Some(s) =>
      match mode
      case SingleThreaded => SingleCount(s, target)
      case MultiThreaded(n) => MultiCount(s, target, n, f.chunkOpens)
  }

  /** A slot holds -1 exactly when its file could not be opened; every
      other count is non-negative. */
  lemma FileCountSentinel(f: FileInput, target: string, mode: Mode)
    requires mode.MultiThreaded? ==> 1 <= mode.numThreads && |f.chunkOpens| == mode.numThreads
    ensures FileCount(f, target, mode) == -1 <==> f.content.None?
    ensures f.content.Some? ==> FileCount(f, target, mode) >= 0
  {
    if f.content.Some? && mode.MultiThreaded? {
      FailedOpensOnlyLower(f.content.value, target, mode.numThreads, f.chunkOpens);
    }
  }

  /** The shared result region: one slot per input file, zero-filled when
      created, each written at most once by its own worker. */
  class ResultStore {
    const slots: array<SharedData>
    ghost var written: set<int>

    constructor (n: nat)
      ensures fresh(slots) && slots.Length == n && written == {}
      ensures forall i :: 0 <= i < n ==> slots[i] == SharedData(0, "")
    {
      slots := new SharedData[n](_ => SharedData(0, ""));
      written := {};
    }

    /** A worker stores its result into its own slot. */
    method Write(i: nat, d: SharedData)
      requires i < slots.Length && i !in written
      modifies this, slots
      ensures slots[..] == old(slots[..])[i := d]
      ensures written == old(written) + {i}
    {
      slots[i] := d;
      written := written + {i};
    }

    /** The coordinator reads every slot, in index order. */
    method ReadAll() returns (results: seq<SharedData>)
      ensures |results| == slots.Length
      ensures forall i :: 0 <= i < |results| ==> results[i] == slots[i]
    {
      results := [];
      for i := 0 to slots.Length
        invariant |results| == i
        invariant forall k :: 0 <= k < i ==> results[k] == slots[k]
      {
        results := results + [slots[i]];
      }
    }
  }

  /** `to_lower(target_word)` on a copy of the NUL-terminated target, as
      each file's worker does before counting. */
  method LowerTarget(target: string) returns (lowered: string)
    requires NulFree(target)
    ensures lowered == FoldCase(target)
  {
    var buffer := new char[|target| + 1](i requires 0 <= i <= |target| => if i < |target| then target[i] else '\0');
    assert buffer[..] == target + ['\0'];
    assert buffer[|target|] == '\0';
    ghost var stored := buffer[..];
    ToLower(buffer);
    CStrOfLowered(stored);
    CStrOfTerminated(stored, target);
    NulFreeCStr(target);
    lowered := CStr(buffer[..]);
  }

  /** `main` from the file-count check to the read-back of the results:
      too many files is rejected before any slot exists; otherwise every
      file gets exactly one slot, in input order, holding its count and its
      truncated name. */
  method Run(target: string, mode: Mode, files: seq<FileInput>) returns (r: Result<seq<SharedData>, RunError>)
    requires NulFree(target)
    requires mode.MultiThreaded? ==> 1 <= mode.numThreads
    requires mode.MultiThreaded? ==> forall i :: 0 <= i < |files| ==> |files[i].chunkOpens| == mode.numThreads
    requires forall i :: 0 <= i < |files| ==> files[i].content.Some? ==> ShortTokens(files[i].content.value)
    ensures |files| == 0 ==> r == Failure(Usage)
    ensures |files| > MaxFiles ==> r == Failure(TooManyFiles)
    ensures 1 <= |files| <= MaxFiles ==> r.Success? && |r.value| == |files|
    ensures r.Success? ==> forall i :: 0 <= i < |r.value| ==>
      r.value[i] == SharedData(FileCount(files[i], FoldCase(target), mode), Truncate(files[i].name))
  {
    if |files| == 0 {
      return Failure(Usage);
    }
    if |files| > MaxFiles {
      return Failure(TooManyFiles);
    }
    var store := new ResultStore(|files|);
    for i := 0 to |files|
      invariant store.slots.Length == |files|
      invariant forall k :: k in store.written <==> 0 <= k < i
      invariant forall k :: 0 <= k < i ==>
        store.slots[k] == SharedData(FileCount(files[k], FoldCase(target), mode), Truncate(files[k].name))
    {
      var lowered := LowerTarget(target);
      var count;
      if mode.SingleThreaded? {
        count := CountWordsSingleThread(files[i].content, lowered);
      } else {
        count := ProcessFile(files[i].content, files[i].chunkOpens, lowered, mode.numThreads);
      }
      assert count == FileCount(files[i], FoldCase(target), mode);
      store.Write(i, SharedData(count, Truncate(files[i].name)));
    }
    var results := store.ReadAll();
    return Success(results);
  }
}
