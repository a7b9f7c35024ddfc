/**
 * Whole runs, as the walk specification of Generator describes them (the walk methods of
 * CodegenTestsOnAndroidGenerator are proved to follow it). When no configuration key collects
 * more files than the flush threshold over the whole run, the flush passes at the start of each
 * listing never fire, and the final flush compiles the files of each key as one batch.
 */
module Runs {
  import opened Fixtures
  import opened Generator

  /** No key would go over the threshold with the fixtures still to come added to what is pending. */
  ghost predicate Quiet(ps: seq<PendingBatch>, more: seq<Fixture>) {
    forall k :: |PendingFor(ps, k)| + |PatchedFor(more, k)| <= FlushThreshold
  }

  /** Walking `more` from pending batches ps led to pending batches qs, with nothing written. */
  ghost predicate Queued(ps: seq<PendingBatch>, more: seq<Fixture>, qs: seq<PendingBatch>) {
    && DistinctKeys(qs)
    && forall k :: PendingFor(qs, k) == PendingFor(ps, k) + PatchedFor(more, k)
  }

  /** A flush pass in which no batch is over the threshold writes nothing and changes no counter. */
  lemma {:induction false} FlushNoneDue(ps: seq<PendingBatch>, threshold: int, s: FlushProgress)
    requires forall j :: 0 <= j < |ps| ==> |ps[j].files| <= threshold
    ensures Flush(ps, threshold, s) == s
    decreases |ps|
  {
    if ps != [] {
      assert FlushIf(ps[0], threshold, s) == s;
      FlushNoneDue(ps[1..], threshold, s);
    }
  }

  /** With no key over the threshold, the flush pass at the start of processFiles changes nothing. */
  lemma DuePassQuiet(st: WalkState)
    requires DistinctKeys(st.pending)
    requires forall k :: |PendingFor(st.pending, k)| <= FlushThreshold
    ensures DuePass(st) == st
  {
    var ps := st.pending;
    forall j | 0 <= j < |ps| ensures |ps[j].files| <= FlushThreshold {
      PendingForDistinct(ps, ps[j].key);
    }
    FlushNoneDue(ps, FlushThreshold, st.progress);
    assert AfterFlush(ps, FlushThreshold) == ps;
  }

  /** A quiet run stays quiet over its first part. */
  lemma QuietPrefix(ps: seq<PendingBatch>, first: seq<Fixture>, second: seq<Fixture>)
    requires Quiet(ps, first + second)
    ensures Quiet(ps, first)
  {
    forall k ensures |PendingFor(ps, k)| + |PatchedFor(first, k)| <= FlushThreshold {
      PatchedForAppend(first, second, k);
    }
  }

  /** Once the first part of a quiet run is queued, the rest of it is quiet from there. */
  lemma QuietRest(ps: seq<PendingBatch>, mid: seq<PendingBatch>, first: seq<Fixture>, second: seq<Fixture>)
    requires Quiet(ps, first + second) && Queued(ps, first, mid)
    ensures Quiet(mid, second)
  {
    forall k ensures |PendingFor(mid, k)| + |PatchedFor(second, k)| <= FlushThreshold {
      PatchedForAppend(first, second, k);
    }
  }

  /** Queueing one part and then the next queues both, in order. */
  lemma QueuedChain(ps: seq<PendingBatch>, mid: seq<PendingBatch>, qs: seq<PendingBatch>, first: seq<Fixture>, second: seq<Fixture>)
    requires Queued(ps, first, mid) && Queued(mid, second, qs)
    ensures Queued(ps, first + second, qs)
  {
    forall k ensures PendingFor(qs, k) == PendingFor(ps, k) + PatchedFor(first + second, k) {
      PatchedForAppend(first, second, k);
      AppendAssociates(PendingFor(ps, k), PatchedFor(first, k), PatchedFor(second, k));
    }
  }

  /**
   * processFiles on a listing whose fixtures keep every key within the threshold: nothing is
   * written, and the listing's fixtures are queued under their keys, in walk order.
   */
  lemma {:induction false} WalkFilesQuiet(excluded: set<string>, files: seq<FileNode>, st: WalkState)
    requires DistinctKeys(st.pending) && Quiet(st.pending, Accepted(excluded, files))
    ensures WalkFiles(excluded, files, st).progress == st.progress
    ensures Queued(st.pending, Accepted(excluded, files), WalkFiles(excluded, files, st).pending)
    decreases files, 1
  {
    DuePassQuiet(st);
    WalkListingQuiet(excluded, files, st);
  }

  /** The entries of such a listing, in order. */
  lemma {:induction false} WalkListingQuiet(excluded: set<string>, files: seq<FileNode>, st: WalkState)
    requires DistinctKeys(st.pending) && Quiet(st.pending, Accepted(excluded, files))
    ensures WalkListing(excluded, files, st).progress == st.progress
    ensures Queued(st.pending, Accepted(excluded, files), WalkListing(excluded, files, st).pending)
    decreases files, 0
  {
    if files == [] {
      assert Accepted(excluded, files) == [];
    } else {
      var prefix := files[..|files| - 1];
      var last := files[|files| - 1];
      var first := Accepted(excluded, prefix);
      var second := AcceptedIn(excluded, last);
      assert Accepted(excluded, files) == first + second;
      QuietPrefix(st.pending, first, second);
      WalkListingQuiet(excluded, prefix, st);
      var mid := WalkListing(excluded, prefix, st);
      QuietRest(st.pending, mid.pending, first, second);
      WalkEntryQuiet(excluded, last, mid);
      QueuedChain(st.pending, mid.pending, WalkEntry(excluded, last, mid).pending, first, second);
    }
  }

  /** One entry of such a listing: a fixture is queued, a directory is a listing of its own. */
  lemma {:induction false} WalkEntryQuiet(excluded: set<string>, node: FileNode, st: WalkState)
    requires DistinctKeys(st.pending) && Quiet(st.pending, AcceptedIn(excluded, node))
    ensures WalkEntry(excluded, node, st).progress == st.progress
    ensures Queued(st.pending, AcceptedIn(excluded, node), WalkEntry(excluded, node, st).pending)
    decreases node, 2
  {
    if node.Name() in excluded || (node.Directory? && !node.listable)
       || (node.RegularFile? && !Eligible(excluded, node.file)) {
      NothingQueued(st.pending);
    } else if node.Directory? {
      WalkFilesQuiet(excluded, node.children, st);
    } else {
      var f := node.file;
      EligibleContributes(excluded, f, Emission([], []));
      forall k ensures PendingFor(Queue(st.pending, f), k) == PendingFor(st.pending, k) + PatchedFor([f], k) {
        QueueConserves(st.pending, f, k);
      }
      QueueConserves(st.pending, f, KeyOf(f));
    }
  }

  /** Queueing no fixture leaves the pending batches as they are. */
  lemma NothingQueued(ps: seq<PendingBatch>)
    requires DistinctKeys(ps)
    ensures Queued(ps, [], ps)
  {
    forall k ensures PendingFor(ps, k) == PendingFor(ps, k) + PatchedFor([], k) {
      assert PendingFor(ps, k) + [] == PendingFor(ps, k);
    }
  }

  /** The roots of a quiet run, in order. */
  lemma {:induction false} WalkUnderRootsQuiet(excluded: set<string>, roots: seq<FileNode>, st: WalkState)
    requires DistinctKeys(st.pending) && Quiet(st.pending, AcceptedUnderRoots(excluded, roots))
    ensures WalkUnderRoots(excluded, roots, st).progress == st.progress
    ensures Queued(st.pending, AcceptedUnderRoots(excluded, roots), WalkUnderRoots(excluded, roots, st).pending)
    decreases |roots|
  {
    if roots == [] {
      NothingQueued(st.pending);
    } else {
      var prefix := roots[..|roots| - 1];
      var last := roots[|roots| - 1];
      var first := AcceptedUnderRoots(excluded, prefix);
      var second := if last.Listable() then Accepted(excluded, last.children) else [];
      assert AcceptedUnderRoots(excluded, roots) == first + second;
      QuietPrefix(st.pending, first, second);
      WalkUnderRootsQuiet(excluded, prefix, st);
      var mid := WalkUnderRoots(excluded, prefix, st);
      QuietRest(st.pending, mid.pending, first, second);
      if last.Listable() {
        WalkFilesQuiet(excluded, last.children, mid);
      } else {
        NothingQueued(mid.pending);
      }
      QueuedChain(st.pending, mid.pending, WalkUnderRoots(excluded, roots, st).pending, first, second);
    }
  }

  /**
   * The final flush writes, after what was on disk, batches whose keys are those of the pending
   * batches, at most one per key.
   */
  lemma {:induction false} FinalFlushKeys(ps: seq<PendingBatch>, s: FlushProgress)
    requires DistinctKeys(ps)
    ensures s.batches <= Flush(ps, -1, s).batches
    ensures forall i :: |s.batches| <= i < |Flush(ps, -1, s).batches| ==> HasKey(ps, Flush(ps, -1, s).batches[i].key)
    ensures forall i, j :: |s.batches| <= i < j < |Flush(ps, -1, s).batches| ==>
              Flush(ps, -1, s).batches[i].key != Flush(ps, -1, s).batches[j].key
    decreases |ps|
  {
    if ps != [] {
      var s' := FlushOne(ps[0], s);
      var out := Flush(ps, -1, s).batches;
      assert DistinctKeys(ps[1..]);
      FinalFlushKeys(ps[1..], s');
      assert out == Flush(ps[1..], -1, s').batches;
      forall i | |s'.batches| <= i < |out| ensures HasKey(ps, out[i].key) && out[i].key != ps[0].key {
        var m :| 0 <= m < |ps[1..]| && ps[1..][m].key == out[i].key;
        assert ps[m + 1].key == out[i].key;
      }
      if ps[0].files != [] {
        assert out[|s.batches|] == s'.batches[|s.batches|];
        assert out[|s.batches|].key == ps[0].key;
      }
    }
  }

  /** After the final flush nothing is pending under any key. */
  lemma FinalFlushEmpties(ps: seq<PendingBatch>, k: ConfigurationKey)
    requires DistinctKeys(ps)
    ensures PendingFor(AfterFlush(ps, -1), k) == []
  {
    var qs := AfterFlush(ps, -1);
    assert DistinctKeys(qs);
    PendingForDistinct(qs, k);
  }

  /**
   * A run in which no key collects more files than the flush threshold: nothing is written while
   * the roots are walked, and at the end each key's files, all of them and in walk order, go to
   * disk in one batch, no key getting a second one.
   */
  lemma SmallRunOneBatchPerKey(excluded: set<string>, roots: seq<FileNode>, start: FlushProgress)
    requires forall k :: |PatchedFor(AcceptedUnderRoots(excluded, roots), k)| <= FlushThreshold
    ensures WalkUnderRoots(excluded, roots, WalkState(start, [])).progress == start
    ensures start.batches <= RunOutcome(excluded, roots, start).batches
    ensures forall k :: FilesFor(RunOutcome(excluded, roots, start).batches, k)
                        == FilesFor(start.batches, k) + PatchedFor(AcceptedUnderRoots(excluded, roots), k)
    ensures forall i, j :: |start.batches| <= i < j < |RunOutcome(excluded, roots, start).batches| ==>
              RunOutcome(excluded, roots, start).batches[i].key != RunOutcome(excluded, roots, start).batches[j].key
  {
    var all := AcceptedUnderRoots(excluded, roots);
    var st := WalkState(start, []);
    assert forall k :: PendingFor([], k) == [];
    WalkUnderRootsQuiet(excluded, roots, st);
    var walked := WalkUnderRoots(excluded, roots, st);
    FinalFlushKeys(walked.pending, start);
    var out := Flush(walked.pending, -1, start).batches;
    assert RunOutcome(excluded, roots, start).batches == out;
    forall k ensures FilesFor(out, k) == FilesFor(start.batches, k) + PatchedFor(all, k) {
      FlushConserves(walked.pending, -1, start, k);
      FinalFlushEmpties(walked.pending, k);
      assert FilesFor(out, k) + [] == FilesFor(out, k);
      assert PendingFor(walked.pending, k) == [] + PatchedFor(all, k) == PatchedFor(all, k);
    }
  }
}
