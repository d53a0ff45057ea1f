/**
 * The entry-naming rule of `zipFolder`: the walk visits paths under `source`;
 * directories are skipped, and each other path becomes an archive entry named
 * by the path with its first `len(source)` bytes cut off. Go strings are byte
 * strings and `len` and slicing count bytes, so paths are modelled as
 * sequences of bytes (UTF-8 encoded text, for a non-ASCII path). The walk itself,
 * the file reads and the zip encoding are parameters: what the model receives
 * is the sequence of callback invocations and how each file's copy went.
 */
module Archive {
  import opened Wrappers

  type Byte = b: int | 0 <= b < 256

  /** A Go string: a sequence of bytes. */
  type Bytes = seq<Byte>

  /** How the steps after naming a file's entry went: `writer.Create`,
      `os.Open`, then `io.Copy`. */
  datatype FileStep = CreateFailed | OpenFailed | CopyFailed | Copied

  /** One invocation of the walk callback. */
  datatype WalkEvent = WalkError | VisitedDir(path: Bytes) | VisitedFile(path: Bytes, step: FileStep)

  /** How `zipFolder` ends: nil, an error, or the panic of slicing a path
      shorter than `source`. */
  datatype ZipOutcome = ZipOk | ZipErr | ZipPanic

  /** The entry names written to the archive, in order, and how the walk ended. */
  datatype ZipRun = ZipRun(entries: seq<Bytes>, outcome: ZipOutcome)

  /** `path[len(source):]`, or `None` where Go's slice expression panics:
      both the slice and the bound count bytes. */
  function EntryName(source: Bytes, path: Bytes): (name: Option<Bytes>)
    ensures name.Some? <==> |source| <= |path|
    ensures name.Some? ==> |name.value| == |path| - |source|
    ensures source <= path ==> name.Some? && source + name.value == path
  {
    if |path| < |source| then None
    else
      assert source <= path ==> path == path[..|source|] + path[|source|..];
      Some(path[|source|..])
  }

  /** Slicing counts bytes: with a source of "./data", the walked path
      "data/é" (UTF-8 bytes 64 61 74 61 2F C3 A9) is cut after six bytes,
      leaving only the second byte of the "é". */
  lemma EntryNameCountsBytes()
    ensures EntryName([0x2E, 0x2F, 0x64, 0x61, 0x74, 0x61], [0x64, 0x61, 0x74, 0x61, 0x2F, 0xC3, 0xA9]) == Some([0xA9])
  {
  }

  /** Every callback invocation lets the walk go on: no walk error, and every
      file long enough to name and copied in full. */
  predicate WalkClean(source: Bytes, events: seq<WalkEvent>)
  {
    forall k | 0 <= k < |events| ::
      events[k].VisitedDir? || (events[k].VisitedFile? && |source| <= |events[k].path| && events[k].step == Copied)
  }

  /** The paths of the visited files, in walk order. */
  function FilePaths(events: seq<WalkEvent>): seq<Bytes>
  {
    if |events| == 0 then []
    else if events[0].VisitedFile? then [events[0].path] + FilePaths(events[1..])
    else FilePaths(events[1..])
  }

  function ZipFolder(source: Bytes, events: seq<WalkEvent>): (r: ZipRun)
    ensures r.outcome == ZipOk <==> WalkClean(source, events)
    ensures |r.entries| <= |FilePaths(events)|
  {
    if |events| == 0 then ZipRun([], ZipOk)
    else
      match events[0]
      case WalkError => ZipRun([], ZipErr)
      case VisitedDir(_) => ZipFolder(source, events[1..])
      case VisitedFile(path, step) =>
        match EntryName(source, path)
        case None => ZipRun([], ZipPanic)
        case Some(name) =>
          if step == CreateFailed then ZipRun([], ZipErr)
          else if step != Copied then ZipRun([name], ZipErr)
          else
            var rest := ZipFolder(source, events[1..]);
            ZipRun([name] + rest.entries, rest.outcome)
  }

  /** When the walk is clean and stays under `source`, putting `source` back in
      front of each entry name gives back exactly the walked files, in order:
      one entry per file and none for a directory. */
  lemma {:induction false} EntriesRestorePaths(source: Bytes, events: seq<WalkEvent>)
    requires WalkClean(source, events)
    requires forall k | 0 <= k < |events| :: events[k].VisitedFile? ==> source <= events[k].path
    ensures var entries := ZipFolder(source, events).entries;
      && |entries| == |FilePaths(events)|
      && forall i | 0 <= i < |entries| :: source + entries[i] == FilePaths(events)[i]
  {
    if |events| > 0 {
      assert WalkClean(source, events[1..]) by {
        forall k | 0 <= k < |events[1..]| ensures events[1..][k] == events[k + 1] {}
      }
      EntriesRestorePaths(source, events[1..]);
      assert events[0].VisitedDir? || events[0].VisitedFile?;
    }
  }
}
