/**
 * The process snapshot source: what `get_all_procs` returns once the
 * operating system's process table has been read.  Reading the table is
 * I/O, so the listing is an input here; this module models only the
 * pipeline that drops the processes whose status could not be read.
 */
module Snapshot {
  import opened Wrappers

  /** Why procfs could not deliver a process or its status. */
  datatype ProcError = PermissionDenied | NotFound | Incomplete | Io | Other

  /**
   * The three fields of a process status the agent uses: the effective
   * uid and, when the kernel reports them, the resident set size and the
   * swap usage, both in kB.
   */
  datatype ProcStatus = ProcStatus(euid: nat, vmrss: Option<nat>, vmswap: Option<nat>)

  /** One entry of the process listing; reading its status may fail. */
  datatype Process = Process(pid: int, status: Result<ProcStatus, ProcError>)

  /** A listed entry: either a process or the error met while listing it. */
  type Listed = Result<Process, ProcError>

  /** The status an entry yields, if both the entry and its status read succeeded. */
  function StatusOf(v: Listed): Option<ProcStatus>
  {
    match v
    case Failure(_) => None
    case Success(p) =>
      match p.status
      case Failure(_) => None
      case Success(s) => Some(s)
  }

  /** The statuses of the readable entries, in listing order (the `filter_map`). */
  function Readable(entries: seq<Listed>): seq<ProcStatus>
  {
    if entries == [] then []
    else
      var rest := Readable(entries[1..]);
      match StatusOf(entries[0])
      case Some(s) => [s] + rest
      case None => rest
  }

  /** The number of entries whose status can be read. */
  function ReadableCount(entries: seq<Listed>): nat
  {
    if entries == [] then 0
    else (if StatusOf(entries[0]).Some? then 1 else 0) + ReadableCount(entries[1..])
  }

  /**
   * `get_all_procs`: a failure to enumerate at all is passed on; otherwise
   * each entry whose listing or status read failed is dropped silently.
   */
  function GetAllProcs(listing: Result<seq<Listed>, ProcError>): (r: Result<seq<ProcStatus>, ProcError>)
    ensures listing.Failure? <==> r.Failure?
    ensures listing.Failure? ==> r.error == listing.error
    ensures listing.Success? ==> |r.value| <= |listing.value|
  {
    match listing
    case Failure(e) => Failure(e)
    case Success(entries) =>
      ReadableLength(entries);
      Success(Readable(entries))
  }

  /** Exactly the readable entries are kept. */
  lemma {:induction false} ReadableLength(entries: seq<Listed>)
    ensures |Readable(entries)| == ReadableCount(entries) <= |entries|
  {
    if entries != [] {
      ReadableLength(entries[1..]);
    }
  }

  /**
   * A status is in the snapshot if and only if some listed entry yields it:
   * nothing readable is dropped and nothing is invented.
   */
  lemma {:induction false} ReadableMembers(entries: seq<Listed>, s: ProcStatus)
    ensures s in Readable(entries) <==> exists i :: 0 <= i < |entries| && StatusOf(entries[i]) == Some(s)
  {
    if entries != [] {
      ReadableMembers(entries[1..], s);
      if s in Readable(entries) && StatusOf(entries[0]) != Some(s) {
        var i :| 0 <= i < |entries[1..]| && StatusOf(entries[1..][i]) == Some(s);
        assert StatusOf(entries[i + 1]) == Some(s);
      }
      if exists i :: 0 <= i < |entries| && StatusOf(entries[i]) == Some(s) {
        var i :| 0 <= i < |entries| && StatusOf(entries[i]) == Some(s);
        if i > 0 {
          assert StatusOf(entries[1..][i - 1]) == Some(s);
        }
      }
    }
  }

  /** When every entry is readable, the snapshot is the listing's statuses, in order. */
  lemma {:induction false} AllReadable(entries: seq<Listed>)
    requires forall i :: 0 <= i < |entries| ==> StatusOf(entries[i]).Some?
    ensures |Readable(entries)| == |entries|
    ensures forall i :: 0 <= i < |entries| ==> Some(Readable(entries)[i]) == StatusOf(entries[i])
  {
    if entries != [] {
      assert forall i :: 0 <= i < |entries[1..]| ==> StatusOf(entries[1..][i]) == StatusOf(entries[i + 1]);
      AllReadable(entries[1..]);
    }
  }

  /** Filtering a listing piece by piece: the snapshot of a concatenation is the concatenation of the snapshots. */
  lemma {:induction false} ReadableAppend(xs: seq<Listed>, ys: seq<Listed>)
    ensures Readable(xs + ys) == Readable(xs) + Readable(ys)
  {
    if xs != [] {
      assert (xs + ys)[1..] == xs[1..] + ys;
      ReadableAppend(xs[1..], ys);
    } else {
      assert xs + ys == ys;
    }
  }

  /** A single entry contributes its status when it is readable, and nothing otherwise. */
  lemma ReadableOne(v: Listed)
    ensures Readable([v]) == if StatusOf(v).Some? then [StatusOf(v).value] else []
  {
    assert [v][1..] == [];
  }
}
