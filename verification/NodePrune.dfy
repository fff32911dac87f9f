/** The node-side program of compaction, for one job: a decision, then delete before
    receipt, and cut anywhere. */
module NodePrune {
  import opened Common

  type Digest = nat

  /** A file of the code tree that the job wrote after it started. */
  type File = nat

  /** The list of such files is cut here. */
  const MAX_LISTED: nat := 10_000

  datatype Live = Dead | Alive | Unproven

  /** The code tree; a recursive delete may stop halfway. */
  datatype Code = Whole | Part | Gone | NotADirectory

  datatype Status =
    | RootUnavailable | Missing | UnsafeRoot | Running | LivenessUnproven
    | AlreadyCompact | ReceiptRepaired | ReceiptMissing | ReceiptFailed
    | UnsafeCode | ReceiptBesideCode | CodeModified | ListNotRecorded
    | UnsafeControl | NoSyncTool | DeleteFailed | Compacted | Planned | Cut

  /** What one run of the program meets on the node. */
  datatype Host = Host(
    jobsRoot: bool,        // the worker's storage is mounted
    rootIsDirectory: bool,
    live: Live,
    control: bool,         // the control directory is a directory
    sync: bool,
    marker: bool,          // the job's start marker is there to compare with
    found: nat,            // how many of its files the count saw before it ended or was cut
    opens: bool,           // the list can be opened for writing,
    recorded: set<File>,   // and which of them it got
    deleted: Code,         // what the recursive delete leaves,
    left: set<File>,       // and which of the job's files
    receiptWritten: bool)

  /** The census: nothing without a start marker, and no more than was seen in time. */
  function Census(h: Host): nat {
    if h.marker then h.found else 0
  }

  datatype Request = Request(digest: Digest, apply: bool, pruneModified: bool)

  /** Every file of the job that went was asked for and is on the list. */
  ghost predicate Accounted(before: set<File>, after: set<File>, q: Request, listed: set<File>) {
    before - after != {} ==> q.pruneModified && before - after <= listed
  }

  lemma {:induction false} SubsetSize(a: set<File>, b: set<File>)
    requires a <= b
    ensures |a| <= |b|
  {
    if a != {} {
      var x :| x in a;
      SubsetSize(a - {x}, b - {x});
    }
  }

  /** The list after a run. */
  function ListAfter(q: Request, h: Host, deletes: bool, listed: set<File>): set<File> {
    if deletes && q.pruneModified && Census(h) > 0 then h.recorded else listed
  }

  /** A run accounts for the files it removes exactly when it removes none, or was asked to
      and they are all on the list it recorded, or on the one from before when the census
      saw nothing. So without a request exactly a census that missed them all lets them go,
      and with one, more of them than the list holds are never all on it. A list that is
      written anew has everything removed so far only when earlier runs removed nothing. */
  lemma AccountedExactly(q: Request, h: Host, deletes: bool, wrote: set<File>, listed: set<File>, earlier: set<File>)
    requires h.left <= wrote && h.recorded <= wrote && |h.recorded| <= MAX_LISTED && earlier !! wrote
    requires deletes ==> Census(h) == 0 || (q.pruneModified && h.recorded != {})
    ensures var after := if deletes then h.left else wrote;
            var ok := Accounted(wrote, after, q, ListAfter(q, h, deletes, listed));
            && (ok <==> || !deletes || h.left == wrote
                        || (q.pruneModified && wrote - h.left <= (if Census(h) > 0 then h.recorded else listed)))
            && (!q.pruneModified ==> (ok <==> !(deletes && Census(h) == 0) || h.left == wrote))
            && (deletes && Census(h) > 0 && |wrote - h.left| > MAX_LISTED ==> !ok)
            && (deletes && Census(h) > 0 ==>
                  (earlier + (wrote - h.left) <= h.recorded <==> earlier == {} && wrote - h.left <= h.recorded))
  {
    if earlier + (wrote - h.left) <= h.recorded {
      assert earlier <= h.recorded <= wrote;
    }
    if wrote - h.left <= h.recorded {
      SubsetSize(wrote - h.left, h.recorded);
    }
    assert wrote - wrote == {};
    assert wrote - h.left == {} <==> h.left == wrote;
  }

  /** Outcomes that let the head forget the job's code tree. */
  predicate ProvesPruned(s: Status) {
    s.Compacted? || s.ReceiptRepaired? || s.AlreadyCompact? || s.Missing?
  }

  class NodeJob {
    var present: bool
    var code: Code
    /** The job's own files that are still in it. */
    var wrote: set<File>
    /** The recorded list of such files. */
    var listed: set<File>
    /** The digest on the prune receipt. */
    var receipt: Option<Digest>

    constructor (code: Code, wrote: set<File>)
      requires code.Gone? || code.NotADirectory? ==> wrote == {}
      ensures Valid() && present && this.code == code && this.wrote == wrote && listed == {} && receipt.None?
    {
      present, this.code, this.wrote, listed, receipt := true, code, wrote, {}, None;
    }

    /** A receipt is only ever on disk after the code tree has gone. */
    ghost predicate Valid()
      reads this
    {
      (receipt.Some? ==> code.Gone?) && (code.Gone? ==> wrote == {})
    }

    /** What the count, the list and the delete can come to on this tree. */
    ghost predicate Possible(h: Host)
      reads this`code, this`wrote
    {
      && h.found <= |wrote| && h.recorded <= wrote && |h.recorded| <= MAX_LISTED && (h.recorded != {} ==> h.opens)
      && h.left <= wrote && (h.deleted.Gone? ==> h.left == {})
      && (h.deleted.Gone? || h.deleted.Part? || (h.deleted == code && h.left == wrote))
    }

    /** Does a run find the job dead in a directory of its own? */
    predicate Reached(h: Host)
      reads this`present
    {
      h.jobsRoot && present && h.rootIsDirectory && h.live.Dead?
    }

    /** Does a run get past the guards in front of the census? */
    predicate Examined(h: Host)
      reads this
    {
      h.jobsRoot && present && h.rootIsDirectory && h.live.Dead? && (code.Whole? || code.Part?) && receipt.None?
    }

    /** Does it record a list of the job's files? */
    predicate Records(q: Request, h: Host)
      reads this
    {
      Examined(h) && q.apply && q.pruneModified && Census(h) > 0 && h.control && h.opens
    }

    /** Does it delete? A census that saw something stops it without a request, or when
        the list stays empty. */
    predicate Deletes(q: Request, h: Host, steps: nat)
      reads this
    {
      && Examined(h) && q.apply && h.control && h.sync && steps >= 1
      && (Census(h) == 0 || (q.pruneModified && h.recorded != {}))
    }

    /** Write the receipt aside and rename it into place. */
    method WriteReceipt(digest: Digest, h: Host, steps: nat) returns (ok: bool)
      requires Valid() && code.Gone?
      modifies this`receipt
      ensures Valid() && (ok <==> h.receiptWritten && steps >= 1)
      ensures receipt == if ok then Some(digest) else old(receipt)
    {
      ok := h.receiptWritten && steps >= 1;
      if ok {
        receipt := Some(digest);
      }
    }

    /** One run of the program on this job, cut after `steps` effects of deleting and
        writing the receipt. */
    method Run(q: Request, h: Host, steps: nat) returns (s: Status)
      requires Valid() && Possible(h)
      modifies this`code, this`wrote, this`listed, this`receipt
      ensures Valid()
      // the head may forget a code tree only when there is none
      ensures ProvesPruned(s) ==> !present || code.Gone?
      // nothing is touched in a dry run, under a process that may live, or on doubtful storage
      ensures !q.apply || !h.live.Dead? || !h.jobsRoot || !h.control || !h.sync ==>
                code == old(code) && wrote == old(wrote) && receipt == old(receipt)
      // the tree, the job's files in it and their list change exactly when the guards say so
      ensures code == if old(Deletes(q, h, steps)) then h.deleted else old(code)
      ensures wrote == if old(Deletes(q, h, steps)) then h.left else old(wrote)
      ensures listed == if old(Records(q, h)) then h.recorded else old(listed)
      ensures old(Deletes(q, h, steps)) ==> listed == ListAfter(q, h, true, old(listed))
      ensures receipt == old(receipt) || receipt == Some(q.digest)
      // an undisturbed run of a dead job's program settles it
      ensures q.apply && Calm(h) && present && !old(code).NotADirectory? && steps >= 2
              && (Census(h) == 0 || (q.pruneModified && h.recorded != {}) || old(code).Gone?)
              ==> ProvesPruned(s) && code.Gone? && receipt == Some(q.digest)
      // and what it says: each guard in its order, then what came of the receipt and the delete
      ensures s.RootUnavailable? <==> !h.jobsRoot
      ensures s.Missing? <==> h.jobsRoot && !present
      ensures s.UnsafeRoot? <==> h.jobsRoot && present && !h.rootIsDirectory
      ensures s.Running? <==> h.jobsRoot && present && h.rootIsDirectory && h.live.Alive?
      ensures s.LivenessUnproven? <==> h.jobsRoot && present && h.rootIsDirectory && h.live.Unproven?
      ensures s.AlreadyCompact? <==> Reached(h) && old(code).Gone? && old(receipt) == Some(q.digest)
      ensures s.ReceiptMissing? <==> Reached(h) && old(code).Gone? && old(receipt) != Some(q.digest) && !q.apply
      ensures s.UnsafeCode? <==> Reached(h) && old(code).NotADirectory?
      ensures s.CodeModified? <==> old(Examined(h)) && h.marker && h.found > 0 && !q.pruneModified
      ensures s.Planned? <==> old(Examined(h)) && !q.apply && (!h.marker || h.found == 0 || q.pruneModified)
      ensures s.ListNotRecorded? <==>
                old(Examined(h)) && q.apply && q.pruneModified && Census(h) > 0 && h.control && h.recorded == {}
      ensures s.UnsafeControl? <==>
                && q.apply && !h.control
                && ((Reached(h) && old(code).Gone? && old(receipt) != Some(q.digest))
                    || (old(Examined(h)) && (Census(h) == 0 || q.pruneModified)))
      ensures s.NoSyncTool? <==>
                && q.apply && h.control && !h.sync
                && ((Reached(h) && old(code).Gone? && old(receipt) != Some(q.digest))
                    || (old(Examined(h)) && (Census(h) == 0 || (q.pruneModified && h.recorded != {}))))
      ensures s.DeleteFailed? <==> old(Deletes(q, h, steps)) && !h.deleted.Gone?
      ensures s.Compacted? <==> old(Deletes(q, h, steps)) && h.deleted.Gone? && h.receiptWritten && steps >= 2
      ensures s.ReceiptRepaired? <==>
                && q.apply && h.control && h.sync && h.receiptWritten && steps >= 1
                && Reached(h) && old(code).Gone? && old(receipt) != Some(q.digest)
      ensures s != ReceiptBesideCode
    {
      if !h.jobsRoot {
        return RootUnavailable;
      }
      if !present {
        return Missing;
      }
      if !h.rootIsDirectory {
        return UnsafeRoot;
      }
      if h.live.Alive? {
        return Running;
      }
      if h.live.Unproven? {
        return LivenessUnproven;
      }
      if code.Gone? {
        if receipt == Some(q.digest) {
          return AlreadyCompact;
        }
        if !q.apply {
          return ReceiptMissing;
        }
        if !h.control {
          return UnsafeControl;
        }
        if !h.sync {
          return NoSyncTool;
        }
        var ok := WriteReceipt(q.digest, h, steps);
        return if ok then ReceiptRepaired else if steps == 0 then Cut else ReceiptFailed;
      }
      if code.NotADirectory? {
        return UnsafeCode;
      }
      if receipt.Some? {
        return ReceiptBesideCode;
      }
      if Census(h) > 0 && !q.pruneModified {
        return CodeModified;
      }
      if !q.apply {
        return Planned;
      }
      if Census(h) > 0 && h.control {
        if h.opens {
          listed := h.recorded;
        }
        if h.recorded == {} {
          return ListNotRecorded;
        }
      }
      if !h.control {
        return UnsafeControl;
      }
      if !h.sync {
        return NoSyncTool;
      }
      if steps == 0 {
        return Cut;
      }
      code, wrote := h.deleted, h.left;
      if !code.Gone? {
        return DeleteFailed;
      }
      var ok := WriteReceipt(q.digest, h, steps - 1);
      return if ok then Compacted else if steps == 1 then Cut else ReceiptFailed;
    }
  }

  /** Nothing on the node stands in the way. */
  predicate Calm(h: Host) {
    h.jobsRoot && h.rootIsDirectory && h.live.Dead? && h.control && h.sync && h.deleted.Gone? && h.receiptWritten
  }

  /** The losing runs: a count that is cut before it sees anything, and a job whose start
      marker is missing. The files go without a request and without a list. */
  method UncountedFilesGo(digest: Digest, wrote: set<File>, marker: bool) returns (job: NodeJob, s: Status)
    ensures job.code.Gone? && job.wrote == {} && job.listed == {} && ProvesPruned(s)
  {
    job := new NodeJob(Whole, wrote);
    s := job.Run(Request(digest, true, false), Host(true, true, Dead, true, true, marker, 0, true, {}, Gone, {}, true), 2);
  }

  /** And a retry after a delete that stopped halfway writes the list anew: what the first
      attempt removed is on it no more. */
  method RetryForgetsTheList(digest: Digest, first: File, second: File) returns (job: NodeJob, before: set<File>)
    requires first != second
    ensures before == {first, second} && job.code.Gone? && job.wrote == {} && job.listed == {second}
  {
    var q, calm := Request(digest, true, true), Host(true, true, Dead, true, true, true, 1, true, {second}, Gone, {}, true);
    job := new NodeJob(Whole, {first, second});
    var s := job.Run(q, calm.(recorded := {first, second}, deleted := Part, left := {second}), 2);
    before := job.listed;
    s := job.Run(q, calm, 2);
  }

  datatype Attempt = Attempt(request: Request, host: Host, steps: nat)

  /** The same conditions met on the tree as it is by then. */
  function OnTree(h: Host, code: Code, wrote: set<File>): Host {
    h.(found := Min(h.found, |wrote|),
       recorded := if h.opens && |h.recorded * wrote| <= MAX_LISTED then h.recorded * wrote else {},
       deleted := if h.deleted.Gone? || h.deleted.Part? then h.deleted else code,
       left := if h.deleted.Gone? then {} else if h.deleted.Part? then h.left * wrote else wrote)
  }

  lemma OnTreeIsPossible(job: NodeJob, h: Host)
    requires job.Valid()
    ensures var t := OnTree(h, job.code, job.wrote);
            && job.Possible(t) && t.live == h.live
            && (Census(h) > 0 ==> Census(t) > 0 || t.left == job.wrote)
  {
  }

  /** Any number of compaction runs, each cut or refused anywhere: once a run has proved
      the code tree gone it stays gone, and the receipt is never beside code. */
  method RunAgainAndAgain(job: NodeJob, attempts: seq<Attempt>) returns (pruned: bool)
    requires job.Valid()
    modifies job
    ensures job.Valid() && job.present == old(job.present)
    ensures pruned ==> !job.present || job.code.Gone?
    ensures old(job.code).Gone? ==> job.code.Gone?
    ensures (forall a | a in attempts :: !a.request.apply || !a.host.live.Dead?) ==>
              job.code == old(job.code) && job.wrote == old(job.wrote) && job.receipt == old(job.receipt)
    // and as long as no census misses everything, the job's files go only on request
    ensures (forall a | a in attempts :: !a.request.pruneModified && Census(a.host) > 0) ==> job.wrote == old(job.wrote)
  {
    pruned := false;
    for i := 0 to |attempts|
      invariant job.Valid() && job.present == old(job.present)
      invariant pruned ==> !job.present || job.code.Gone?
      invariant old(job.code).Gone? ==> job.code.Gone?
      invariant (forall k | 0 <= k < i :: !attempts[k].request.apply || !attempts[k].host.live.Dead?) ==>
                  job.code == old(job.code) && job.wrote == old(job.wrote) && job.receipt == old(job.receipt)
      invariant (forall k | 0 <= k < i :: !attempts[k].request.pruneModified && Census(attempts[k].host) > 0) ==>
                  job.wrote == old(job.wrote)
    {
      var a := attempts[i];
      OnTreeIsPossible(job, a.host);
      hide OnTree, Accounted;
      var s := job.Run(a.request, OnTree(a.host, job.code, job.wrote), a.steps);
      pruned := pruned || ProvesPruned(s);
    }
  }
}
