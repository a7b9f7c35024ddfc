/**
 * The stateful part of CodegenTestsOnAndroidGenerator: the run-wide counters and name list,
 * the per-configuration batch buffers (the inner class FilesWriter), the holders map keyed by
 * ConfigurationKey, and the walk that filters, batches and emits test methods.
 */
module Generator {
  import opened Strings
  import opened Naming
  import opened Fixtures

  /**
   * One flushed batch as written to disk: the module index used in the module name, the output
   * folder index, the configuration and the files handed to the compiler. The key of the writer
   * it came from is recorded for the proofs only.
   */
  datatype CompiledBatch = CompiledBatch(
    ghost key: ConfigurationKey,
    moduleIndex: nat,
    folder: nat,
    configuration: CompilerConfiguration,
    files: seq<RawFile>)

  const FlushThreshold: nat := 300
  const FilesPerFolder: nat := 1000

  /**
   * The output folder for a running count of written files: the count divided by the folder
   * capacity, written as repeated subtraction.
   */
  function Folder(count: nat): (f: nat)
    decreases count
  {
    if count < FilesPerFolder then 0 else 1 + Folder(count - FilesPerFolder)
  }

  /** Folder is the integer quotient of the count by the folder capacity. */
  lemma {:induction false} FolderIsQuotient(count: nat)
    ensures Folder(count) == count / FilesPerFolder
    decreases count
  {
    if count >= FilesPerFolder {
      FolderIsQuotient(count - FilesPerFolder);
    }
  }

  /** A larger count never gives an earlier folder. */
  lemma {:induction false} FolderMonotone(a: nat, b: nat)
    requires a <= b
    ensures Folder(a) <= Folder(b)
    decreases b
  {
    if a >= FilesPerFolder {
      FolderMonotone(a - FilesPerFolder, b - FilesPerFolder);
    }
  }

  /** The MODULE_NAME given to the compilation environment of one flush. */
  function ModuleName(index: nat): string {
    "android-module-" + NatToString(index)
  }

  /** Distinct module indices give distinct module names. */
  lemma ModuleNamesDistinct(m: nat, n: nat)
    requires m != n
    ensures ModuleName(m) != ModuleName(n)
  {
    if ModuleName(m) == ModuleName(n) {
      var p := "android-module-";
      assert NatToString(m) == ModuleName(m)[|p|..];
      NatToStringInjective(m, n);
    }
  }

  function TotalFiles(outputs: seq<CompiledBatch>): nat
    decreases |outputs|
  {
    if outputs == [] then 0 else TotalFiles(outputs[..|outputs| - 1]) + |outputs[|outputs| - 1].files|
  }

  /** The files compiled from the writer of key k, oldest batch first. */
  ghost function FilesFor(outputs: seq<CompiledBatch>, k: ConfigurationKey): seq<RawFile>
    decreases |outputs|
  {
    if outputs == [] then []
    else
      var last := outputs[|outputs| - 1];
      FilesFor(outputs[..|outputs| - 1], k) + (if last.key == k then last.files else [])
  }

  /** Writing one more batch adds its files to its own key and to no other. */
  lemma FilesForAppend(outputs: seq<CompiledBatch>, batch: CompiledBatch)
    ensures forall k :: FilesFor(outputs + [batch], k) == FilesFor(outputs, k) + (if batch.key == k then batch.files else [])
  {
    assert (outputs + [batch])[..|outputs|] == outputs;
  }

  // ---------------------------------------------------------------------------
  // What a flush writes: a specification over the pending lists, in the map's order

  /** The pending list of one writer, with its key and configuration. */
  datatype PendingBatch = PendingBatch(key: ConfigurationKey, configuration: CompilerConfiguration, files: seq<RawFile>)

  /** The batches on disk and the two run-wide counters. */
  datatype FlushProgress = FlushProgress(batches: seq<CompiledBatch>, moduleIndex: nat, count: nat)

  /**
   * Flushing one writer: the module index is consumed whatever is pending; a non-empty list is
   * added to the count and written under the old index into the folder of the updated count.
   */
  ghost function FlushOne(p: PendingBatch, s: FlushProgress): FlushProgress {
    var count := s.count + |p.files|;
    FlushProgress(
      s.batches + (if p.files == [] then [] else [CompiledBatch(p.key, s.moduleIndex, Folder(count), p.configuration, p.files)]),
      s.moduleIndex + 1,
      count)
  }

  /** Flushing one writer if it holds more than `threshold` files. */
  ghost function FlushIf(p: PendingBatch, threshold: int, s: FlushProgress): FlushProgress {
    if |p.files| > threshold then FlushOne(p, s) else s
  }

  /** Flushing, in order, every writer holding more than `threshold` files (all of them when it is negative). */
  ghost function Flush(ps: seq<PendingBatch>, threshold: int, s: FlushProgress): FlushProgress
    decreases |ps|
  {
    if ps == [] then s
    else Flush(ps[1..], threshold, FlushIf(ps[0], threshold, s))
  }

  /**
   * A flush only appends batches, and the count grows by exactly the files in them; the module
   * index never decreases.
   */
  lemma {:induction false} FlushGrows(ps: seq<PendingBatch>, threshold: int, s: FlushProgress)
    ensures s.batches <= Flush(ps, threshold, s).batches
    ensures s.moduleIndex <= Flush(ps, threshold, s).moduleIndex
    ensures Flush(ps, threshold, s).count - s.count
            == TotalFiles(Flush(ps, threshold, s).batches) - TotalFiles(s.batches)
    decreases |ps|
  {
    if ps != [] {
      var s' := FlushIf(ps[0], threshold, s);
      if |ps[0].files| > threshold && ps[0].files != [] {
        assert s'.batches[..|s'.batches| - 1] == s.batches;
        assert TotalFiles(s'.batches) == TotalFiles(s.batches) + |ps[0].files|;
      } else {
        assert s'.batches == s.batches;
      }
      FlushGrows(ps[1..], threshold, s');
    }
  }

  /** Flushing every writer consumes one module index per writer. */
  lemma {:induction false} FlushAllConsumesOneIndexEach(ps: seq<PendingBatch>, s: FlushProgress)
    ensures Flush(ps, -1, s).moduleIndex == s.moduleIndex + |ps|
    decreases |ps|
  {
    if ps != [] {
      FlushAllConsumesOneIndexEach(ps[1..], FlushOne(ps[0], s));
    }
  }

  /**
   * Flushing the i-th batch advances a flush pass, and the description of the batches it leaves,
   * by one batch.
   */
  lemma FlushStep(ps: seq<PendingBatch>, threshold: int, i: nat, s: FlushProgress, cur: seq<PendingBatch>)
    requires i < |ps| && cur == FlushedUpTo(ps, threshold, i)
    ensures cur[i] == ps[i]
    ensures Flush(ps[i..], threshold, s) == Flush(ps[i + 1..], threshold, FlushIf(ps[i], threshold, s))
    ensures cur[i := Cleared(ps[i], threshold)] == FlushedUpTo(ps, threshold, i + 1)
  {
    assert ps[i..][1..] == ps[i + 1..];
  }

  /** A pending batch as the flush pass leaves it: emptied when it was flushed. */
  ghost function Cleared(p: PendingBatch, threshold: int): PendingBatch {
    if |p.files| > threshold then p.(files := []) else p
  }

  /** The pending batches as the flush pass leaves them, in order. */
  ghost function AfterFlush(ps: seq<PendingBatch>, threshold: int): (qs: seq<PendingBatch>)
    ensures |qs| == |ps|
    ensures forall j :: 0 <= j < |ps| ==> qs[j] == Cleared(ps[j], threshold)
  {
    seq(|ps|, j requires 0 <= j < |ps| => Cleared(ps[j], threshold))
  }

  /** The pending batches once the first n of them have been through the flush pass. */
  ghost function FlushedUpTo(ps: seq<PendingBatch>, threshold: int, n: nat): (qs: seq<PendingBatch>)
    ensures |qs| == |ps|
    ensures forall j :: 0 <= j < |ps| ==> qs[j] == if j < n then Cleared(ps[j], threshold) else ps[j]
  {
    seq(|ps|, j requires 0 <= j < |ps| => if j < n then Cleared(ps[j], threshold) else ps[j])
  }

  /** The files pending under key k, in order. */
  ghost function PendingFor(ps: seq<PendingBatch>, k: ConfigurationKey): seq<RawFile>
    decreases |ps|
  {
    if ps == [] then [] else (if ps[0].key == k then ps[0].files else []) + PendingFor(ps[1..], k)
  }

  ghost predicate DistinctKeys(ps: seq<PendingBatch>) {
    forall i, j :: 0 <= i < j < |ps| ==> ps[i].key != ps[j].key
  }

  /** With one batch per key, the files pending under k are those of its batch, or none. */
  lemma {:induction false} PendingForDistinct(ps: seq<PendingBatch>, k: ConfigurationKey)
    requires DistinctKeys(ps)
    ensures (forall j :: 0 <= j < |ps| ==> ps[j].key != k) ==> PendingFor(ps, k) == []
    ensures forall j :: 0 <= j < |ps| && ps[j].key == k ==> PendingFor(ps, k) == ps[j].files
    decreases |ps|
  {
    if ps != [] {
      PendingForDistinct(ps[1..], k);
      assert forall j :: 1 <= j < |ps| ==> ps[1..][j - 1] == ps[j];
    }
  }

  /**
   * A flush pass moves files from the pending batches to the disk and loses, adds or reorders
   * nothing under any key: what is compiled under k followed by what is still pending under k is
   * the same before and after.
   */
  lemma {:induction false} FlushConserves(ps: seq<PendingBatch>, threshold: int, s: FlushProgress, k: ConfigurationKey)
    requires DistinctKeys(ps)
    ensures FilesFor(Flush(ps, threshold, s).batches, k) + PendingFor(AfterFlush(ps, threshold), k)
            == FilesFor(s.batches, k) + PendingFor(ps, k)
    decreases |ps|
  {
    if ps != [] {
      var s' := FlushIf(ps[0], threshold, s);
      var rest := AfterFlush(ps[1..], threshold);
      assert AfterFlush(ps, threshold) == [Cleared(ps[0], threshold)] + rest;
      assert DistinctKeys(ps[1..]);
      FlushConserves(ps[1..], threshold, s', k);
      FlushOneMoves(ps[0], threshold, s, k);
      if ps[0].key == k {
        PendingForDistinct(ps[1..], k);
        assert DistinctKeys(rest);
        PendingForDistinct(rest, k);
      }
      Regroup(FilesFor(Flush(ps[1..], threshold, s').batches, k), PendingFor(rest, k),
              FilesFor(s'.batches, k), PendingFor(ps[1..], k), FilesFor(s.batches, k),
              if ps[0].key == k then Cleared(ps[0], threshold).files else [],
              if ps[0].key == k then ps[0].files else []);
    }
  }

  /** Concatenation regroups freely. */
  lemma AppendAssociates(a: seq<RawFile>, b: seq<RawFile>, c: seq<RawFile>)
    ensures a + (b + c) == (a + b) + c
  {
  }

  /** The sequence arithmetic of one step of FlushConserves. */
  lemma Regroup(done: seq<RawFile>, left: seq<RawFile>, mid: seq<RawFile>, ahead: seq<RawFile>, start: seq<RawFile>,
                kept: seq<RawFile>, first: seq<RawFile>)
    requires done + left == mid + ahead
    requires mid + kept == start + first
    requires (kept == [] && first == []) || (left == [] && ahead == [])
    ensures done + (kept + left) == start + (first + ahead)
  {
    if kept == [] && first == [] {
      assert mid == mid + kept && start == start + first;
      assert kept + left == left && first + ahead == ahead;
    } else {
      assert done == done + left && mid == mid + ahead;
      assert kept + left == kept && first + ahead == first;
    }
  }

  /** One step of a flush pass moves the files of the first batch from pending to the disk, or leaves them. */
  lemma FlushOneMoves(p: PendingBatch, threshold: int, s: FlushProgress, k: ConfigurationKey)
    ensures FilesFor(FlushIf(p, threshold, s).batches, k)
              + (if p.key == k then Cleared(p, threshold).files else [])
            == FilesFor(s.batches, k) + (if p.key == k then p.files else [])
  {
    if |p.files| > threshold && p.files != [] {
      var s' := FlushOne(p, s);
      FilesForAppend(s.batches, CompiledBatch(p.key, s.moduleIndex, Folder(s'.count), p.configuration, p.files));
    } else if |p.files| > threshold {
      assert FlushOne(p, s).batches == s.batches;
    }
  }

  // ---------------------------------------------------------------------------
  // The holders map

  /** The map from key to writer, with the insertion order that iteration over it follows. */
  datatype Holders = Holders(order: seq<ConfigurationKey>, writers: map<ConfigurationKey, FilesWriter>)

  /**
   * The order lists each key of the map once, every writer belongs to this generator and was
   * created for its key (so no two keys share a writer).
   */
  ghost predicate HoldersValid(g: CodegenTestsOnAndroidGenerator, h: Holders) {
    && Distinct(h.order)
    && (forall k :: k in h.writers <==> k in h.order)
    && (forall k :: k in h.writers ==> h.writers[k].outer == g && h.writers[k].key == k)
  }

  /** The writers in the map's iteration order. */
  function WritersInOrder(h: Holders): (ws: seq<FilesWriter>)
    requires forall k :: k in h.order ==> k in h.writers
    ensures |ws| == |h.order|
    ensures forall j :: 0 <= j < |h.order| ==> ws[j] == h.writers[h.order[j]]
  {
    seq(|h.order|, j requires 0 <= j < |h.order| => h.writers[h.order[j]])
  }

  /** Iterating over a valid map visits each writer once, each created for the key it is found under. */
  lemma WritersInOrderDistinct(g: CodegenTestsOnAndroidGenerator, h: Holders)
    requires HoldersValid(g, h)
    ensures Distinct(WritersInOrder(h))
    ensures forall j :: 0 <= j < |h.order| ==>
              && WritersInOrder(h)[j] in h.writers.Values
              && WritersInOrder(h)[j].outer == g
              && WritersInOrder(h)[j].key == h.order[j]
  {
    var ws := WritersInOrder(h);
    forall i, j | 0 <= i < j < |ws| ensures ws[i] != ws[j] {
      assert h.order[i] != h.order[j];
    }
  }

  /** The i-th writer of a valid map belongs to the generator and sits at no other position. */
  lemma WriterAt(g: CodegenTestsOnAndroidGenerator, h: Holders, i: nat)
    requires HoldersValid(g, h) && i < |h.order|
    ensures WritersInOrder(h)[i] in h.writers.Values && WritersInOrder(h)[i].outer == g
    ensures forall j :: 0 <= j < |h.order| && j != i ==> WritersInOrder(h)[j] != WritersInOrder(h)[i]
  {
    var ws := WritersInOrder(h);
    forall j | 0 <= j < |h.order| && j != i ensures ws[j] != ws[i] {
      assert ws[j].key == h.order[j] != h.order[i] == ws[i].key;
    }
  }

  /** The pending lists of the given writers, in order. */
  ghost function Snapshots(ws: seq<FilesWriter>): (ps: seq<PendingBatch>)
    reads ws
    ensures |ps| == |ws|
    ensures forall j :: 0 <= j < |ws| ==> ps[j] == PendingBatch(ws[j].key, ws[j].configuration, ws[j].rawFiles)
    decreases |ws|
  {
    if ws == [] then []
    else
      var w := ws[|ws| - 1];
      Snapshots(ws[..|ws| - 1]) + [PendingBatch(w.key, w.configuration, w.rawFiles)]
  }

  /**
   * With a valid map, the writers' pending batches carry one key each, and everything queued
   * under a key is what was compiled from its writer followed by what is pending in it.
   */
  lemma StreamIsPending(g: CodegenTestsOnAndroidGenerator, h: Holders)
    requires HoldersValid(g, h)
    ensures DistinctKeys(Snapshots(WritersInOrder(h)))
    ensures forall k :: g.Stream(h, k) == FilesFor(g.outputs, k) + PendingFor(Snapshots(WritersInOrder(h)), k)
  {
    var ws := WritersInOrder(h);
    var ps := Snapshots(ws);
    WritersInOrderDistinct(g, h);
    assert forall j :: 0 <= j < |ps| ==> ps[j].key == h.order[j];
    forall k ensures g.Stream(h, k) == FilesFor(g.outputs, k) + PendingFor(ps, k) {
      PendingForDistinct(ps, k);
      if k in h.writers {
        var j :| 0 <= j < |h.order| && h.order[j] == k;
        assert ws[j] == h.writers[k];
      }
    }
  }

  /** With a valid map, the writers' pending batches carry one key each. */
  lemma SnapshotKeysDistinct(g: CodegenTestsOnAndroidGenerator, h: Holders)
    requires HoldersValid(g, h)
    ensures DistinctKeys(Snapshots(WritersInOrder(h)))
  {
    var ps := Snapshots(WritersInOrder(h));
    forall i, j | 0 <= i < j < |ps| ensures ps[i].key != ps[j].key {
      assert ps[i].key == h.order[i] && ps[j].key == h.order[j];
    }
  }

  /**
   * The writers' pending batches right after getOrPut, read off the writers themselves: the
   * batches recorded in ps when the key was already held, and otherwise those followed by an
   * empty batch for the new key with its configuration.
   */
  lemma HeldSnapshots(g: CodegenTestsOnAndroidGenerator, h: Holders, h': Holders, key: ConfigurationKey,
                      configuration: CompilerConfiguration, ps: seq<PendingBatch>)
    requires HoldersValid(g, h) && HoldersValid(g, h')
    requires ps == Snapshots(WritersInOrder(h))
    requires forall k :: k in h.writers ==> k in h'.writers && h'.writers[k] == h.writers[k]
    requires key in h.writers ==> h' == h
    requires key !in h.writers ==>
               && h'.order == h.order + [key]
               && h'.writers[key].configuration == configuration
               && h'.writers[key].rawFiles == []
    ensures HasKey(ps, key) ==> Snapshots(WritersInOrder(h')) == ps
    ensures !HasKey(ps, key) ==> Snapshots(WritersInOrder(h')) == ps + [PendingBatch(key, configuration, [])]
  {
    if key in h.writers {
      var i :| 0 <= i < |h.order| && h.order[i] == key;
      assert ps[i].key == key;
    } else {
      assert !HasKey(ps, key) by {
        forall j | 0 <= j < |ps| ensures ps[j].key != key {
          assert ps[j].key == h.order[j];
        }
      }
      NewHolderSnapshots(g, h, h', key, configuration, ps);
    }
  }

  /** The case of HeldSnapshots in which getOrPut created the writer. */
  lemma NewHolderSnapshots(g: CodegenTestsOnAndroidGenerator, h: Holders, h': Holders, key: ConfigurationKey,
                           configuration: CompilerConfiguration, ps: seq<PendingBatch>)
    requires HoldersValid(g, h) && HoldersValid(g, h')
    requires ps == Snapshots(WritersInOrder(h))
    requires forall k :: k in h.writers ==> k in h'.writers && h'.writers[k] == h.writers[k]
    requires h'.order == h.order + [key]
    requires h'.writers[key].configuration == configuration && h'.writers[key].rawFiles == []
    ensures Snapshots(WritersInOrder(h')) == ps + [PendingBatch(key, configuration, [])]
  {
    var qs := Snapshots(WritersInOrder(h'));
    forall j | 0 <= j < |ps| ensures qs[j] == ps[j] {
      assert h'.order[j] == h.order[j];
    }
    assert qs == ps + [qs[|ps|]];
  }

  /**
   * The sequence reasoning of queueing: growing the batch at position i, the one batch of f's
   * key among batches with distinct keys, gives the batches Queue describes.
   */
  lemma QueueAt(ps: seq<PendingBatch>, f: Fixture, before: seq<PendingBatch>, i: nat)
    requires DistinctKeys(before) && i < |before| && before[i].key == KeyOf(f)
    requires HasKey(ps, KeyOf(f)) ==> before == ps
    requires !HasKey(ps, KeyOf(f)) ==> before == ps + [PendingBatch(KeyOf(f), f.directives.writerConfiguration, [])]
    ensures before[i := before[i].(files := before[i].files + f.directives.patched)] == Queue(ps, f)
  {
    var after := before[i := before[i].(files := before[i].files + f.directives.patched)];
    if HasKey(ps, KeyOf(f)) {
      forall j | 0 <= j < |ps| ensures after[j] == Queue(ps, f)[j] {
        if j != i {
          assert before[j].key != before[i].key;
        }
      }
    } else {
      assert i == |ps|;
      assert before[i].files + f.directives.patched == f.directives.patched;
      assert after[..|ps|] == ps;
      assert after == after[..|ps|] + [after[|ps|]];
      assert Queue(ps, f) == ps + [PendingBatch(KeyOf(f), f.directives.writerConfiguration, f.directives.patched)];
    }
  }

  /**
   * After a flush pass that leaves the writers as AfterFlush describes and the disk as Flush
   * describes, everything queued under each key is what was on disk and pending before the pass.
   */
  lemma StreamAfterFlush(g: CodegenTestsOnAndroidGenerator, h: Holders, ps: seq<PendingBatch>, threshold: int, s: FlushProgress)
    requires HoldersValid(g, h) && DistinctKeys(ps)
    requires Snapshots(WritersInOrder(h)) == AfterFlush(ps, threshold)
    requires g.Progress() == Flush(ps, threshold, s)
    ensures forall k :: g.Stream(h, k) == FilesFor(s.batches, k) + PendingFor(ps, k)
  {
    StreamIsPending(g, h);
    forall k ensures g.Stream(h, k) == FilesFor(s.batches, k) + PendingFor(ps, k) {
      FlushConserves(ps, threshold, s, k);
    }
  }

  /** After flushing every writer of a valid map, no writer holds anything. */
  lemma AllFlushedEmpty(g: CodegenTestsOnAndroidGenerator, h: Holders, ps: seq<PendingBatch>)
    requires HoldersValid(g, h)
    requires Snapshots(WritersInOrder(h)) == AfterFlush(ps, -1)
    ensures forall k :: k in h.writers ==> h.writers[k].rawFiles == []
  {
    var ws := WritersInOrder(h);
    forall k | k in h.writers ensures h.writers[k].rawFiles == [] {
      var j :| 0 <= j < |h.order| && h.order[j] == k;
      assert ws[j] == h.writers[k];
    }
  }

  /**
   * What is on disk agrees with the counters, stated batch by batch from the newest: the newest
   * batch is non-empty, was compiled under a module index of at least 1 and below the next index,
   * and went to the folder of the written-file count reached when it was written; the batches
   * before it agree in the same way with the count before it and with its module index as their
   * next index. With no batch on disk the count is 0.
   */
  ghost predicate OutputsConsistent(outputs: seq<CompiledBatch>, writtenFilesCount: nat, currentModuleIndex: nat)
    decreases |outputs|
  {
    if outputs == [] then writtenFilesCount == 0 && currentModuleIndex >= 1
    else
      var last := outputs[|outputs| - 1];
      && |last.files| > 0
      && 1 <= last.moduleIndex < currentModuleIndex
      && writtenFilesCount >= |last.files|
      && last.folder == Folder(writtenFilesCount)
      && OutputsConsistent(outputs[..|outputs| - 1], writtenFilesCount - |last.files|, last.moduleIndex)
  }

  /**
   * On consistent outputs the written-file count is the number of files compiled, and every batch
   * is non-empty, has a module index of at least 1 and below the next index, and a folder index
   * at or below the count divided by the folder capacity.
   */
  lemma {:induction false} OutputsBounded(outputs: seq<CompiledBatch>, count: nat, next: nat)
    requires OutputsConsistent(outputs, count, next)
    ensures next >= 1 && count == TotalFiles(outputs)
    ensures forall j :: 0 <= j < |outputs| ==>
              |outputs[j].files| > 0 && 1 <= outputs[j].moduleIndex < next && outputs[j].folder <= count / FilesPerFolder
    decreases |outputs|
  {
    FolderIsQuotient(count);
    if outputs != [] {
      var n := |outputs| - 1;
      var last := outputs[n];
      var prefix := outputs[..n];
      OutputsBounded(prefix, count - |last.files|, last.moduleIndex);
      FolderMonotone(count - |last.files|, count);
      FolderIsQuotient(count - |last.files|);
      forall j | 0 <= j < n
        ensures |outputs[j].files| > 0 && 1 <= outputs[j].moduleIndex < next && outputs[j].folder <= count / FilesPerFolder
      {
        assert outputs[j] == prefix[j];
      }
    }
  }

  /** On consistent outputs module indices strictly increase and folder indices never decrease. */
  lemma {:induction false} OutputsOrdered(outputs: seq<CompiledBatch>, count: nat, next: nat)
    requires OutputsConsistent(outputs, count, next)
    ensures forall i, j :: 0 <= i < j < |outputs| ==>
              outputs[i].moduleIndex < outputs[j].moduleIndex && outputs[i].folder <= outputs[j].folder
    decreases |outputs|
  {
    if outputs != [] {
      var n := |outputs| - 1;
      var last := outputs[n];
      var prefix := outputs[..n];
      var before := count - |last.files|;
      OutputsOrdered(prefix, before, last.moduleIndex);
      OutputsBounded(prefix, before, last.moduleIndex);
      FolderIsQuotient(before);
      FolderMonotone(before, count);
      forall i, j | 0 <= i < j < |outputs|
        ensures outputs[i].moduleIndex < outputs[j].moduleIndex && outputs[i].folder <= outputs[j].folder
      {
        assert outputs[i] == prefix[i];
        if j < n {
          assert outputs[j] == prefix[j];
        }
      }
    }
  }

  /** Every batch on disk was compiled in a module of its own name. */
  lemma BatchModuleNamesDistinct(outputs: seq<CompiledBatch>, count: nat, next: nat)
    requires OutputsConsistent(outputs, count, next)
    ensures forall i, j :: 0 <= i < j < |outputs| ==> ModuleName(outputs[i].moduleIndex) != ModuleName(outputs[j].moduleIndex)
  {
    OutputsOrdered(outputs, count, next);
    forall i, j | 0 <= i < j < |outputs|
      ensures ModuleName(outputs[i].moduleIndex) != ModuleName(outputs[j].moduleIndex)
    {
      ModuleNamesDistinct(outputs[i].moduleIndex, outputs[j].moduleIndex);
    }
  }

  /**
   * Writing a non-empty batch under a module index above every earlier one and below the next
   * index, into the folder of the updated count, keeps the disk consistent with the counters.
   */
  lemma FlushKeepsOutputsConsistent(outputs: seq<CompiledBatch>, count: nat, next: nat, batch: CompiledBatch)
    requires OutputsConsistent(outputs, count, next)
    requires |batch.files| > 0 && 1 <= batch.moduleIndex < next
    requires forall j :: 0 <= j < |outputs| ==> outputs[j].moduleIndex < batch.moduleIndex
    requires batch.folder == Folder(count + |batch.files|)
    ensures OutputsConsistent(outputs + [batch], count + |batch.files|, next)
  {
    var outputs' := outputs + [batch];
    assert outputs'[..|outputs|] == outputs;
    assert OutputsConsistent(outputs, count, batch.moduleIndex) by {
      if outputs != [] {
        assert outputs[|outputs| - 1].moduleIndex < batch.moduleIndex;
      }
    }
  }

  // ---------------------------------------------------------------------------
  // Composing the walk one entry and one root at a time

  /** Handling entry i after entries 0..i-1 amounts to handling entries 0..i. */
  lemma WalkStep(excluded: set<string>, files: seq<FileNode>, i: nat, order: seq<ConfigurationKey>, e: Emission)
    requires i < |files|
    ensures AddKeys(AddKeys(order, KeysOf(Accepted(excluded, files[..i]))), KeysOf(AcceptedIn(excluded, files[i])))
            == AddKeys(order, KeysOf(Accepted(excluded, files[..i + 1])))
    ensures Emit(Emit(e, Accepted(excluded, files[..i])), AcceptedIn(excluded, files[i]))
            == Emit(e, Accepted(excluded, files[..i + 1]))
    ensures forall k :: PatchedFor(Accepted(excluded, files[..i]), k) + PatchedFor(AcceptedIn(excluded, files[i]), k)
                        == PatchedFor(Accepted(excluded, files[..i + 1]), k)
  {
    var before := Accepted(excluded, files[..i]);
    var step := AcceptedIn(excluded, files[i]);
    assert files[..i + 1][..i] == files[..i];
    assert Accepted(excluded, files[..i + 1]) == before + step;
    assert KeysOf(before + step) == KeysOf(before) + KeysOf(step);
    AddKeysAppend(order, KeysOf(before), KeysOf(step));
    EmitAppend(e, before, step);
    forall k ensures PatchedFor(before, k) + PatchedFor(step, k) == PatchedFor(before + step, k) {
      PatchedForAppend(before, step, k);
    }
  }

  /** Walking root i after roots 0..i-1 amounts to walking roots 0..i. */
  lemma RootStep(excluded: set<string>, roots: seq<FileNode>, i: nat, e: Emission)
    requires i < |roots| && roots[i].Listable()
    ensures AddKeys(AddKeys([], KeysOf(AcceptedUnderRoots(excluded, roots[..i]))), KeysOf(Accepted(excluded, roots[i].children)))
            == AddKeys([], KeysOf(AcceptedUnderRoots(excluded, roots[..i + 1])))
    ensures Emit(Emit(e, AcceptedUnderRoots(excluded, roots[..i])), Accepted(excluded, roots[i].children))
            == Emit(e, AcceptedUnderRoots(excluded, roots[..i + 1]))
    ensures forall k :: PatchedFor(AcceptedUnderRoots(excluded, roots[..i]), k) + PatchedFor(Accepted(excluded, roots[i].children), k)
                        == PatchedFor(AcceptedUnderRoots(excluded, roots[..i + 1]), k)
  {
    var before := AcceptedUnderRoots(excluded, roots[..i]);
    var step := Accepted(excluded, roots[i].children);
    assert roots[..i + 1][..i] == roots[..i];
    assert AcceptedUnderRoots(excluded, roots[..i + 1]) == before + step;
    assert KeysOf(before + step) == KeysOf(before) + KeysOf(step);
    AddKeysAppend([], KeysOf(before), KeysOf(step));
    EmitAppend(e, before, step);
    forall k ensures PatchedFor(before, k) + PatchedFor(step, k) == PatchedFor(before + step, k) {
      PatchedForAppend(before, step, k);
    }
  }

  // ---------------------------------------------------------------------------
  // The walk as it changes the disk, the counters and the writers

  /** The disk and the counters, with the pending batches of the map's writers in its order. */
  datatype WalkState = WalkState(progress: FlushProgress, pending: seq<PendingBatch>)

  /** Some pending batch is held under key k. */
  ghost predicate HasKey(ps: seq<PendingBatch>, k: ConfigurationKey) {
    exists j :: 0 <= j < |ps| && ps[j].key == k
  }

  /** The batches, with the entries appended to every batch held under key k. */
  ghost function AppendUnder(ps: seq<PendingBatch>, k: ConfigurationKey, entries: seq<RawFile>): (qs: seq<PendingBatch>)
    ensures |qs| == |ps|
    ensures forall j :: 0 <= j < |ps| ==> qs[j] == if ps[j].key == k then ps[j].(files := ps[j].files + entries) else ps[j]
  {
    seq(|ps|, j requires 0 <= j < |ps| => if ps[j].key == k then ps[j].(files := ps[j].files + entries) else ps[j])
  }

  /**
   * An eligible fixture reaching the writers (getOrPut, then patchFiles): its entries are
   * appended to the batch of its key, or to a new batch with its configuration added after the
   * others when no writer holds that key yet.
   */
  ghost function Queue(ps: seq<PendingBatch>, f: Fixture): seq<PendingBatch> {
    if HasKey(ps, KeyOf(f)) then AppendUnder(ps, KeyOf(f), f.directives.patched)
    else ps + [PendingBatch(KeyOf(f), f.directives.writerConfiguration, f.directives.patched)]
  }

  /** The pass at the start of processFiles: every batch over the threshold is compiled and emptied. */
  ghost function DuePass(st: WalkState): WalkState {
    WalkState(Flush(st.pending, FlushThreshold, st.progress), AfterFlush(st.pending, FlushThreshold))
  }

  /** processFiles on one listing: the due pass, then the entries in order. */
  ghost function WalkFiles(excluded: set<string>, files: seq<FileNode>, st: WalkState): WalkState
    decreases files, 1
  {
    WalkListing(excluded, files, DuePass(st))
  }

  /** The entries of one listing, in order, with no flush pass before them. */
  ghost function WalkListing(excluded: set<string>, files: seq<FileNode>, st: WalkState): WalkState
    decreases files, 0
  {
    if files == [] then st
    else WalkEntry(excluded, files[|files| - 1], WalkListing(excluded, files[..|files| - 1], st))
  }

  /**
   * One entry: an excluded name or a directory that cannot be listed changes nothing, a
   * directory is processed as a listing of its own, and an eligible fixture is queued.
   */
  ghost function WalkEntry(excluded: set<string>, node: FileNode, st: WalkState): WalkState
    decreases node, 2
  {
    if node.Name() in excluded then st
    else match node
      case Directory(_, _, listable, children) => if listable then WalkFiles(excluded, children, st) else st
      case RegularFile(f) => if Eligible(excluded, f) then st.(pending := Queue(st.pending, f)) else st
  }

  /** The roots in order, each listable one processed as a listing; a root that is not listable is skipped. */
  ghost function WalkUnderRoots(excluded: set<string>, roots: seq<FileNode>, st: WalkState): WalkState
    decreases |roots|
  {
    if roots == [] then st
    else
      var last := roots[|roots| - 1];
      var before := WalkUnderRoots(excluded, roots[..|roots| - 1], st);
      if last.Listable() then WalkFiles(excluded, last.children, before) else before
  }

  /**
   * The disk and the counters at the end of a run in which every root can be listed: the roots
   * are walked with a new holders map, then every writer is compiled once, in the map's order.
   */
  ghost function RunOutcome(excluded: set<string>, roots: seq<FileNode>, start: FlushProgress): FlushProgress {
    var walked := WalkUnderRoots(excluded, roots, WalkState(start, []));
    Flush(walked.pending, -1, walked.progress)
  }

  /** Handling entry i after entries 0..i-1 of a listing amounts to handling entries 0..i. */
  lemma WalkListingStep(excluded: set<string>, files: seq<FileNode>, i: nat, st: WalkState)
    requires i < |files|
    ensures WalkListing(excluded, files[..i + 1], st) == WalkEntry(excluded, files[i], WalkListing(excluded, files[..i], st))
  {
    assert files[..i + 1][..i] == files[..i];
  }

  /** Walking root i after roots 0..i-1 amounts to walking roots 0..i. */
  lemma WalkRootsStep(excluded: set<string>, roots: seq<FileNode>, i: nat, st: WalkState)
    requires i < |roots| && roots[i].Listable()
    ensures WalkUnderRoots(excluded, roots[..i + 1], st) == WalkFiles(excluded, roots[i].children, WalkUnderRoots(excluded, roots[..i], st))
  {
    assert roots[..i + 1][..i] == roots[..i];
  }

  /** An eligible fixture is the one fixture its entry contributes, with its key, its test method and its entries. */
  lemma EligibleContributes(excluded: set<string>, f: Fixture, e: Emission)
    requires Eligible(excluded, f)
    ensures AcceptedIn(excluded, RegularFile(f)) == [f]
    ensures KeysOf([f]) == [KeyOf(f)]
    ensures Emit(e, [f]) == EmitOne(e, f)
    ensures forall k :: PatchedFor([f], k) == if k == KeyOf(f) then f.directives.patched else []
  {
    assert [f][..0] == [];
  }

  /**
   * Queueing a fixture keeps one batch per key, adds the fixture's entries after what is
   * pending under its key, and changes nothing pending under any other key.
   */
  lemma QueueConserves(ps: seq<PendingBatch>, f: Fixture, k: ConfigurationKey)
    requires DistinctKeys(ps)
    ensures DistinctKeys(Queue(ps, f))
    ensures PendingFor(Queue(ps, f), k) == PendingFor(ps, k) + (if k == KeyOf(f) then f.directives.patched else [])
  {
    var key := KeyOf(f);
    var qs := Queue(ps, f);
    assert forall j :: 0 <= j < |ps| ==> qs[j].key == ps[j].key;
    if !HasKey(ps, key) {
      assert qs[|ps|].key == key;
    }
    assert DistinctKeys(qs);
    PendingForDistinct(ps, k);
    PendingForDistinct(qs, k);
    if j :| 0 <= j < |ps| && ps[j].key == k {
      assert qs[j].key == k;
    } else if k == key {
      assert qs[|ps|].key == k;
    } else {
      assert forall j :: 0 <= j < |qs| ==> qs[j].key != k;
    }
  }

  function EmptyFolderMessage(root: FileNode): string {
    "Folder with testData is empty: " + root.Path()
  }

  class CodegenTestsOnAndroidGenerator {
    /** The names of SpecialFiles.getExcludedFiles(). */
    const excluded: set<string>
    /** Files handed to the compiler so far, over all writers. */
    var writtenFilesCount: nat
    /** The index for the next compilation module, over all writers. */
    var currentModuleIndex: nat
    /** Every test name allocated in this run. */
    var generatedTestNames: seq<string>
    /** The batches compiled and written to disk so far, oldest first. */
    var outputs: seq<CompiledBatch>
    /** The lines printed into the generated test class so far. */
    var printed: seq<string>

    /** The name list has no duplicates and what is on disk agrees with the counters. */
    ghost predicate Valid()
      reads this
    {
      && Distinct(generatedTestNames)
      && OutputsConsistent(outputs, writtenFilesCount, currentModuleIndex)
    }

    /** The batches on disk and the counters. */
    ghost function Progress(): FlushProgress
      reads this
    {
      FlushProgress(outputs, currentModuleIndex, writtenFilesCount)
    }

    /** The disk and the counters, with the pending batches of the map's writers in its order. */
    ghost function State(h: Holders): WalkState
      requires forall k :: k in h.order ==> k in h.writers
      reads this, h.writers.Values
    {
      WalkState(Progress(), Snapshots(WritersInOrder(h)))
    }

    /**
     * Everything ever queued under key k: the files already compiled from its writer, then the
     * files still pending in it. Flushing moves files from the second part to the first.
     */
    ghost function Stream(h: Holders, k: ConfigurationKey): seq<RawFile>
      reads this, h.writers.Values
    {
      FilesFor(outputs, k) + (if k in h.writers then h.writers[k].rawFiles else [])
    }

    constructor (excluded: set<string>)
      ensures Valid()
      ensures this.excluded == excluded
      ensures writtenFilesCount == 0 && currentModuleIndex == 1
      ensures generatedTestNames == [] && outputs == [] && printed == []
    {
      this.excluded := excluded;
      writtenFilesCount := 0;
      currentModuleIndex := 1;
      generatedTestNames := [];
      outputs := [];
      printed := [];
    }

    /**
     * Allocates the test name for a fixture file: the first of base, base_0, base_0_1, ...
     * not yet in the list, and records it.
     */
    method GenerateTestName(fileName: string) returns (r: string)
      requires Valid()
      modifies this
      ensures Valid()
      ensures r == FreeName(old(generatedTestNames), BaseName(fileName), 0)
      ensures r !in old(generatedTestNames) && BaseName(fileName) <= r
      ensures (r == BaseName(fileName)) <==> BaseName(fileName) !in old(generatedTestNames)
      ensures AllIdentifierChars(r)
      ensures generatedTestNames == old(generatedTestNames) + [r]
      ensures writtenFilesCount == old(writtenFilesCount) && currentModuleIndex == old(currentModuleIndex)
      ensures outputs == old(outputs) && printed == old(printed)
    {
      var base := BaseName(fileName);
      r := base;
      var i: nat := 0;
      while r in generatedTestNames
        invariant FreeName(generatedTestNames, r, i) == FreeName(generatedTestNames, base, 0)
        modifies {}
        decreases Longer(generatedTestNames, r)
      {
        var next := r + "_" + NatToString(i);
        LongerShrinks(generatedTestNames, r, next);
        r := next;
        i := i + 1;
      }
      FreeNameIsFresh(generatedTestNames, base, 0);
      FreeNameIsIdentifier(generatedTestNames, base);
      AllocationKeepsNamesDistinct(generatedTestNames, base);
      generatedTestNames := generatedTestNames + [r];
    }

    /** Prints the four lines of one test method. */
    method GenerateTestMethod(testName: string, className: string, filePath: string)
      modifies this
      ensures printed == old(printed) + TestMethodLines(testName, className, filePath)
      ensures generatedTestNames == old(generatedTestNames) && outputs == old(outputs)
      ensures writtenFilesCount == old(writtenFilesCount) && currentModuleIndex == old(currentModuleIndex)
    {
      printed := printed + TestMethodLines(testName, className, filePath);
    }

    /**
     * The step done by patchFiles, whose definition is not part of this model: it adds the
     * collaborator's entries to the writer, in order, and returns the class holding box() or null.
     */
    method PatchFiles(f: Fixture, writer: FilesWriter) returns (classWithBoxMethod: Option<string>)
      modifies writer
      ensures writer.rawFiles == old(writer.rawFiles) + f.directives.patched
      ensures classWithBoxMethod == f.directives.classWithBoxMethod
    {
      var patched := f.directives.patched;
      var n := 0;
      while n < |patched|
        invariant 0 <= n <= |patched|
        invariant writer.rawFiles == old(writer.rawFiles) + patched[..n]
      {
        writer.AddFile(patched[n].name, patched[n].content);
        assert patched[..n + 1] == patched[..n] + [patched[n]];
        n := n + 1;
      }
      assert patched[..n] == patched;
      classWithBoxMethod := f.directives.classWithBoxMethod;
    }

    /** patchFiles on the i-th writer of the map: only that writer's pending batch grows. */
    method PatchHeld(f: Fixture, w: FilesWriter, ghost ws: seq<FilesWriter>, ghost i: nat) returns (classWithBoxMethod: Option<string>)
      requires i < |ws| && w == ws[i]
      requires forall j :: 0 <= j < |ws| && j != i ==> ws[j] != w
      modifies w
      ensures Snapshots(ws) == old(Snapshots(ws))[i := old(Snapshots(ws))[i].(files := old(Snapshots(ws))[i].files + f.directives.patched)]
      ensures classWithBoxMethod == f.directives.classWithBoxMethod
    {
      ghost var before := Snapshots(ws);
      ghost var after := before[i := before[i].(files := before[i].files + f.directives.patched)];
      classWithBoxMethod := PatchFiles(f, w);
      forall j | 0 <= j < |ws| ensures Snapshots(ws)[j] == after[j] {
        if j != i {
          assert ws[j] != w;
        }
      }
    }

    /**
     * The writer held for the key, created empty with the given configuration and added after
     * the keys already held when there is none yet; what every key has streamed is unchanged.
     */
    method HolderFor(key: ConfigurationKey, configuration: CompilerConfiguration, h: Holders) returns (writer: FilesWriter, h': Holders)
      requires HoldersValid(this, h)
      ensures HoldersValid(this, h')
      ensures h'.order == AddKeys(h.order, [key])
      ensures key in h'.writers && writer == h'.writers[key]
      ensures forall k :: k in h.writers ==> k in h'.writers && h'.writers[k] == h.writers[k]
      ensures key in h.writers ==> h' == h
      ensures forall w :: w in h'.writers.Values ==> w in h.writers.Values || fresh(w)
      ensures key !in h.writers ==> h'.order == h.order + [key]
      ensures key !in h.writers ==> fresh(writer) && writer.configuration == configuration && writer.rawFiles == []
      ensures forall k :: Stream(h', k) == Stream(h, k)
    {
      if key in h.writers {
        writer := h.writers[key];
        h' := h;
      } else {
        writer := new FilesWriter(this, key, configuration);
        h' := Holders(h.order + [key], h.writers[key := writer]);
      }
    }

    /**
     * The body of the walk for an eligible fixture: find or create the writer of its key
     * (getOrPut), let patchFiles fill it, and when a class comes back allocate a name and print
     * the test method.
     */
    method ProcessFixture(f: Fixture, h: Holders) returns (h': Holders)
      requires Valid() && HoldersValid(this, h)
      requires Eligible(excluded, f)
      modifies this, h.writers.Values
      ensures Valid() && HoldersValid(this, h')
      ensures h'.order == AddKeys(h.order, KeysOf(AcceptedIn(excluded, RegularFile(f))))
      ensures forall k :: k in h.writers ==> k in h'.writers && h'.writers[k] == h.writers[k]
      ensures forall w :: w in h'.writers.Values ==> w in h.writers.Values || fresh(w)
      ensures Emission(generatedTestNames, printed) == Emit(old(Emission(generatedTestNames, printed)), AcceptedIn(excluded, RegularFile(f)))
      ensures forall k :: Stream(h', k) == old(Stream(h, k)) + PatchedFor(AcceptedIn(excluded, RegularFile(f)), k)
      ensures outputs == old(outputs) && writtenFilesCount == old(writtenFilesCount) && currentModuleIndex == old(currentModuleIndex)
      ensures State(h') == WalkEntry(excluded, RegularFile(f), old(State(h)))
    {
      EligibleContributes(excluded, f, Emission(generatedTestNames, printed));
      ghost var ps := Snapshots(WritersInOrder(h));
      StreamIsPending(this, h);
      var classWithBoxMethod;
      classWithBoxMethod, h' := QueueFixture(f, h);
      EmitTestFor(f, classWithBoxMethod, h');
      StreamIsPending(this, h');
      forall k ensures Stream(h', k) == old(Stream(h, k)) + PatchedFor([f], k) {
        var added := if k == KeyOf(f) then f.directives.patched else [];
        QueueConserves(ps, f, k);
        AppendAssociates(FilesFor(outputs, k), PendingFor(ps, k), added);
      }
    }

    /**
     * getOrPut followed by patchFiles: the writer of the fixture's key, created when there is
     * none, receives the fixture's entries, so the pending batches change as Queue describes.
     */
    method QueueFixture(f: Fixture, h: Holders) returns (classWithBoxMethod: Option<string>, h': Holders)
      requires HoldersValid(this, h)
      modifies h.writers.Values
      ensures HoldersValid(this, h')
      ensures h'.order == AddKeys(h.order, [KeyOf(f)])
      ensures forall k :: k in h.writers ==> k in h'.writers && h'.writers[k] == h.writers[k]
      ensures forall w :: w in h'.writers.Values ==> w in h.writers.Values || fresh(w)
      ensures Snapshots(WritersInOrder(h')) == Queue(old(Snapshots(WritersInOrder(h))), f)
      ensures classWithBoxMethod == f.directives.classWithBoxMethod
    {
      var key := KeyOf(f);
      ghost var ps := Snapshots(WritersInOrder(h));
      var writer;
      writer, h' := HolderFor(key, f.directives.writerConfiguration, h);
      ghost var ws := WritersInOrder(h');
      HeldSnapshots(this, h, h', key, f.directives.writerConfiguration, ps);
      SnapshotKeysDistinct(this, h');
      ghost var before := Snapshots(ws);
      ghost var i :| 0 <= i < |h'.order| && h'.order[i] == key;
      WriterAt(this, h', i);
      classWithBoxMethod := PatchHeld(f, writer, ws, i);
      QueueAt(ps, f, before, i);
    }

    /**
     * Skips the fixture when patching found no class with box(); otherwise allocates its test
     * name and prints its test method, as EmitOne describes.
     */
    method EmitTestFor(f: Fixture, classWithBoxMethod: Option<string>, ghost h: Holders)
      requires Valid() && HoldersValid(this, h)
      requires classWithBoxMethod == f.directives.classWithBoxMethod
      modifies this
      ensures Valid()
      ensures forall k :: Stream(h, k) == old(Stream(h, k))
      ensures State(h) == old(State(h))
      ensures Emission(generatedTestNames, printed) == EmitOne(old(Emission(generatedTestNames, printed)), f)
      ensures writtenFilesCount == old(writtenFilesCount) && currentModuleIndex == old(currentModuleIndex)
      ensures outputs == old(outputs)
    {
      if classWithBoxMethod.Some? {
        EmitNamedTest(f, classWithBoxMethod.value);
      }
      WritersUntouched(h);
    }

    /** With the disk, the counters and the writers as they were, the walk state and every stream are too. */
    twostate lemma WritersUntouched(h: Holders)
      requires HoldersValid(this, h)
      requires unchanged(h.writers.Values)
      requires old(Progress()) == Progress()
      ensures forall k :: Stream(h, k) == old(Stream(h, k))
      ensures State(h) == old(State(h))
    {
    }

    /** Allocates the fixture's test name and prints its test method for the class holding box(). */
    method EmitNamedTest(f: Fixture, className: string)
      requires Valid() && f.directives.classWithBoxMethod == Some(className)
      modifies this
      ensures Valid()
      ensures Emission(generatedTestNames, printed) == EmitOne(old(Emission(generatedTestNames, printed)), f)
      ensures writtenFilesCount == old(writtenFilesCount) && currentModuleIndex == old(currentModuleIndex)
      ensures outputs == old(outputs)
    {
      var testName := GenerateTestName(f.name);
      GenerateTestMethod(testName, className, Escape(f.path));
    }

    /** The body of the first forEach of processFiles, for the i-th writer of the map. */
    method FlushIfDue(w: FilesWriter, ghost ws: seq<FilesWriter>, ghost i: nat)
      requires Valid() && i < |ws| && w == ws[i] && w.outer == this
      requires forall j :: 0 <= j < |ws| && j != i ==> ws[j] != w
      modifies this, w
      ensures Valid()
      ensures Progress() == FlushIf(old(w.Pending()), FlushThreshold, old(Progress()))
      ensures Snapshots(ws) == old(Snapshots(ws))[i := Cleared(old(w.Pending()), FlushThreshold)]
      ensures generatedTestNames == old(generatedTestNames) && printed == old(printed)
    {
      ghost var before := Snapshots(ws);
      w.WriteFilesOnDiskIfNeeded();
      forall j | 0 <= j < |ws| ensures Snapshots(ws)[j] == before[i := Cleared(old(w.Pending()), FlushThreshold)][j] {
        if j != i {
          assert ws[j] != w;
        }
      }
    }

    /**
     * FlushIfDue on the i-th writer of the map when the writers before it have been through the
     * pass: the disk and the counters change as one step of the pass says, and the pass now
     * covers writer i as well.
     */
    method FlushDueStep(h: Holders, ghost ps: seq<PendingBatch>, i: nat)
      requires Valid() && HoldersValid(this, h) && i < |h.order|
      requires Snapshots(WritersInOrder(h)) == FlushedUpTo(ps, FlushThreshold, i)
      modifies this, h.writers.Values
      ensures Valid()
      ensures Progress() == FlushIf(ps[i], FlushThreshold, old(Progress()))
      ensures Snapshots(WritersInOrder(h)) == FlushedUpTo(ps, FlushThreshold, i + 1)
      ensures generatedTestNames == old(generatedTestNames) && printed == old(printed)
    {
      var w := h.writers[h.order[i]];
      WriterAt(this, h, i);
      FlushStep(ps, FlushThreshold, i, Progress(), Snapshots(WritersInOrder(h)));
      FlushIfDue(w, WritersInOrder(h), i);
    }

    /** The body of the forEach of generateTestMethodsForDirectories, for the i-th writer of the map. */
    method FlushWriter(w: FilesWriter, ghost ws: seq<FilesWriter>, ghost i: nat)
      requires Valid() && i < |ws| && w == ws[i] && w.outer == this
      requires forall j :: 0 <= j < |ws| && j != i ==> ws[j] != w
      modifies this, w
      ensures Valid()
      ensures Progress() == FlushOne(old(w.Pending()), old(Progress()))
      ensures Snapshots(ws) == old(Snapshots(ws))[i := Cleared(old(w.Pending()), -1)]
      ensures generatedTestNames == old(generatedTestNames) && printed == old(printed)
    {
      ghost var before := Snapshots(ws);
      w.WriteFilesOnDisk();
      forall j | 0 <= j < |ws| ensures Snapshots(ws)[j] == before[i := Cleared(old(w.Pending()), -1)][j] {
        if j != i {
          assert ws[j] != w;
        }
      }
    }

    /**
     * FlushWriter on the i-th writer of the map when the writers before it have been through the
     * pass: the disk and the counters change as one step of the pass says, and the pass now
     * covers writer i as well.
     */
    method FlushAllStep(h: Holders, ghost ps: seq<PendingBatch>, i: nat)
      requires Valid() && HoldersValid(this, h) && i < |h.order|
      requires Snapshots(WritersInOrder(h)) == FlushedUpTo(ps, -1, i)
      modifies this, h.writers.Values
      ensures Valid()
      ensures Progress() == FlushOne(ps[i], old(Progress()))
      ensures Snapshots(WritersInOrder(h)) == FlushedUpTo(ps, -1, i + 1)
      ensures generatedTestNames == old(generatedTestNames) && printed == old(printed)
    {
      var w := h.writers[h.order[i]];
      WriterAt(this, h, i);
      FlushStep(ps, -1, i, Progress(), Snapshots(WritersInOrder(h)));
      FlushWriter(w, WritersInOrder(h), i);
    }

    /**
     * Flushes every writer holding more than the threshold, in the map's order: the disk and the
     * counters end as Flush describes and the writers as AfterFlush describes (the flushed ones
     * emptied). FlushConserves and StreamAfterFlush show that nothing queued under any key is
     * lost or reordered.
     */
    method FlushDue(h: Holders)
      requires Valid() && HoldersValid(this, h)
      modifies this, h.writers.Values
      ensures Valid()
      ensures Progress() == Flush(old(Snapshots(WritersInOrder(h))), FlushThreshold, old(Progress()))
      ensures Snapshots(WritersInOrder(h)) == AfterFlush(old(Snapshots(WritersInOrder(h))), FlushThreshold)
      ensures generatedTestNames == old(generatedTestNames) && printed == old(printed)
    {
      ghost var ws := WritersInOrder(h);
      ghost var ps := Snapshots(ws);
      ghost var s0 := Progress();
      ghost var final := Flush(ps, FlushThreshold, s0);
      var i := 0;
      while i < |h.order|
        invariant 0 <= i <= |h.order|
        invariant Valid()
        invariant Flush(ps[i..], FlushThreshold, Progress()) == final
        invariant Snapshots(ws) == FlushedUpTo(ps, FlushThreshold, i)
        invariant generatedTestNames == old(generatedTestNames) && printed == old(printed)
      {
        FlushStep(ps, FlushThreshold, i, Progress(), Snapshots(ws));
        FlushDueStep(h, ps, i);
        i := i + 1;
      }
      assert Snapshots(ws) == AfterFlush(ps, FlushThreshold);
    }

    /**
     * Flushes every writer once, in the map's order, whatever it holds: the disk and the counters
     * end as Flush describes and the writers as AfterFlush describes (all of them emptied).
     * FlushConserves and StreamAfterFlush show that nothing queued under any key is lost or
     * reordered.
     */
    method FlushAll(h: Holders)
      requires Valid() && HoldersValid(this, h)
      modifies this, h.writers.Values
      ensures Valid()
      ensures Progress() == Flush(old(Snapshots(WritersInOrder(h))), -1, old(Progress()))
      ensures Snapshots(WritersInOrder(h)) == AfterFlush(old(Snapshots(WritersInOrder(h))), -1)
      ensures generatedTestNames == old(generatedTestNames) && printed == old(printed)
    {
      ghost var ws := WritersInOrder(h);
      ghost var ps := Snapshots(ws);
      ghost var s0 := Progress();
      ghost var final := Flush(ps, -1, s0);
      var i := 0;
      while i < |h.order|
        invariant 0 <= i <= |h.order|
        invariant Valid()
        invariant Flush(ps[i..], -1, Progress()) == final
        invariant Snapshots(ws) == FlushedUpTo(ps, -1, i)
        invariant generatedTestNames == old(generatedTestNames) && printed == old(printed)
      {
        FlushStep(ps, -1, i, Progress(), Snapshots(ws));
        FlushAllStep(h, ps, i);
        i := i + 1;
      }
      assert Snapshots(ws) == AfterFlush(ps, -1);
    }

    /**
     * processFiles: flush the writers that are due (once per listing, not once per file), then
     * handle the entries of the listing.
     */
    method ProcessFiles(files: seq<FileNode>, h: Holders) returns (h': Holders)
      requires Valid() && HoldersValid(this, h)
      modifies this, h.writers.Values
      ensures Valid() && HoldersValid(this, h')
      ensures h'.order == AddKeys(h.order, KeysOf(Accepted(excluded, files)))
      ensures forall k :: k in h.writers ==> k in h'.writers && h'.writers[k] == h.writers[k]
      ensures forall w :: w in h'.writers.Values ==> w in h.writers.Values || fresh(w)
      ensures Emission(generatedTestNames, printed) == Emit(old(Emission(generatedTestNames, printed)), Accepted(excluded, files))
      ensures forall k :: Stream(h', k) == old(Stream(h, k)) + PatchedFor(Accepted(excluded, files), k)
      ensures old(outputs) <= outputs && old(currentModuleIndex) <= currentModuleIndex
      ensures Flush(old(Snapshots(WritersInOrder(h))), FlushThreshold, old(Progress())).batches <= outputs
      ensures Flush(old(Snapshots(WritersInOrder(h))), FlushThreshold, old(Progress())).moduleIndex <= currentModuleIndex
      ensures State(h') == WalkFiles(excluded, files, old(State(h)))
      decreases files, 1
    {
      ghost var s0 := Progress();
      ghost var ps := Snapshots(WritersInOrder(h));
      StreamIsPending(this, h);
      FlushDue(h);
      FlushGrows(ps, FlushThreshold, s0);
      StreamAfterFlush(this, h, ps, FlushThreshold, s0);
      h' := ProcessListing(files, h);
    }

    /** The loop of processFiles over the entries of one listing, in order. */
    method ProcessListing(files: seq<FileNode>, h: Holders) returns (h': Holders)
      requires Valid() && HoldersValid(this, h)
      modifies this, h.writers.Values
      ensures Valid() && HoldersValid(this, h')
      ensures h'.order == AddKeys(h.order, KeysOf(Accepted(excluded, files)))
      ensures forall k :: k in h.writers ==> k in h'.writers && h'.writers[k] == h.writers[k]
      ensures forall w :: w in h'.writers.Values ==> w in h.writers.Values || fresh(w)
      ensures Emission(generatedTestNames, printed) == Emit(old(Emission(generatedTestNames, printed)), Accepted(excluded, files))
      ensures forall k :: Stream(h', k) == old(Stream(h, k)) + PatchedFor(Accepted(excluded, files), k)
      ensures old(outputs) <= outputs && old(currentModuleIndex) <= currentModuleIndex
      ensures State(h') == WalkListing(excluded, files, old(State(h)))
      decreases files, 0
    {
      ghost var e0 := Emission(generatedTestNames, printed);
      ghost var st0 := State(h);
      ghost var accepted: seq<Fixture> := [];
      h' := h;
      var i := 0;
      while i < |files|
        invariant 0 <= i <= |files|
        invariant accepted == Accepted(excluded, files[..i])
        invariant Valid() && HoldersValid(this, h')
        invariant h'.order == AddKeys(h.order, KeysOf(accepted))
        invariant forall k :: k in h.writers ==> k in h'.writers && h'.writers[k] == h.writers[k]
        invariant forall w :: w in h'.writers.Values ==> w in h.writers.Values || fresh(w)
        invariant Emission(generatedTestNames, printed) == Emit(e0, accepted)
        invariant forall k :: Stream(h', k) == old(Stream(h, k)) + PatchedFor(accepted, k)
        invariant old(outputs) <= outputs && old(currentModuleIndex) <= currentModuleIndex
        invariant State(h') == WalkListing(excluded, files[..i], st0)
      {
        h' := ProcessEntry(files[i], h');
        WalkStep(excluded, files, i, h.order, e0);
        WalkListingStep(excluded, files, i, st0);
        forall k ensures Stream(h', k) == old(Stream(h, k)) + PatchedFor(Accepted(excluded, files[..i + 1]), k) {
          AppendAssociates(old(Stream(h, k)), PatchedFor(accepted, k), PatchedFor(AcceptedIn(excluded, files[i]), k));
        }
        accepted := Accepted(excluded, files[..i + 1]);
        i := i + 1;
      }
      assert files[..i] == files;
    }

    /**
     * One entry of a listing: excluded names, non-Kotlin files, fixtures not meant for the JVM,
     * fixtures using JvmPackageName and fixtures without box() are skipped; a directory is walked
     * recursively unless it cannot be listed; an eligible fixture is batched.
     */
    method ProcessEntry(file: FileNode, h: Holders) returns (h': Holders)
      requires Valid() && HoldersValid(this, h)
      modifies this, h.writers.Values
      ensures Valid() && HoldersValid(this, h')
      ensures h'.order == AddKeys(h.order, KeysOf(AcceptedIn(excluded, file)))
      ensures forall k :: k in h.writers ==> k in h'.writers && h'.writers[k] == h.writers[k]
      ensures forall w :: w in h'.writers.Values ==> w in h.writers.Values || fresh(w)
      ensures Emission(generatedTestNames, printed) == Emit(old(Emission(generatedTestNames, printed)), AcceptedIn(excluded, file))
      ensures forall k :: Stream(h', k) == old(Stream(h, k)) + PatchedFor(AcceptedIn(excluded, file), k)
      ensures old(outputs) <= outputs && old(currentModuleIndex) <= currentModuleIndex
      ensures file.RegularFile? ==>
                outputs == old(outputs) && writtenFilesCount == old(writtenFilesCount) && currentModuleIndex == old(currentModuleIndex)
      ensures State(h') == WalkEntry(excluded, file, old(State(h)))
      decreases file, 2
    {
      h' := h;
      if file.Name() in excluded {
        // skipped
      } else if file.Directory? {
        if file.listable {
          h' := ProcessFiles(file.children, h);
        }
      } else {
        h' := ProcessRegularFile(file.file, h);
      }
    }

    /**
     * A file that is not excluded becomes a test exactly when it is eligible: a Kotlin file meant
     * for the JVM back end, without the JvmPackageName directive, whose text has a box() method.
     */
    method ProcessRegularFile(f: Fixture, h: Holders) returns (h': Holders)
      requires Valid() && HoldersValid(this, h)
      requires f.name !in excluded
      modifies this, h.writers.Values
      ensures Valid() && HoldersValid(this, h')
      ensures h'.order == AddKeys(h.order, KeysOf(AcceptedIn(excluded, RegularFile(f))))
      ensures forall k :: k in h.writers ==> k in h'.writers && h'.writers[k] == h.writers[k]
      ensures forall w :: w in h'.writers.Values ==> w in h.writers.Values || fresh(w)
      ensures Emission(generatedTestNames, printed) == Emit(old(Emission(generatedTestNames, printed)), AcceptedIn(excluded, RegularFile(f)))
      ensures forall k :: Stream(h', k) == old(Stream(h, k)) + PatchedFor(AcceptedIn(excluded, RegularFile(f)), k)
      ensures outputs == old(outputs) && writtenFilesCount == old(writtenFilesCount) && currentModuleIndex == old(currentModuleIndex)
      ensures State(h') == WalkEntry(excluded, RegularFile(f), old(State(h)))
    {
      h' := h;
      if Extension(f.name) != KotlinExtension {
        // not a Kotlin file
      } else if !f.directives.passesJvmTarget {
        // not meant for the JVM back end
      } else if Contains(f.text, JvmPackageNameMarker) {
        // JvmPackageName is not supported
      } else if HasBoxMethod(f.text) {
        h' := ProcessFixture(f, h);
      }
    }

    /**
     * generateTestMethodsForDirectories: walk every root with one holders map, failing when a root
     * cannot be listed, then flush every writer once. On success, the files compiled under each
     * key are those compiled before followed by every entry queued for that key by the accepted
     * fixtures, in walk order.
     */
    method GenerateTestMethodsForDirectories(roots: seq<FileNode>) returns (error: Option<string>, h: Holders)
      requires Valid()
      modifies this
      ensures Valid() && HoldersValid(this, h)
      ensures error.None? <==> forall j :: 0 <= j < |roots| ==> roots[j].Listable()
      ensures error.Some? ==> exists j :: 0 <= j < |roots| && !roots[j].Listable()
                                          && error.value == EmptyFolderMessage(roots[j])
                                          && forall i :: 0 <= i < j ==> roots[i].Listable()
      ensures error.None? ==> h.order == AddKeys([], KeysOf(AcceptedUnderRoots(excluded, roots)))
      ensures error.None? ==> Emission(generatedTestNames, printed) == Emit(old(Emission(generatedTestNames, printed)), AcceptedUnderRoots(excluded, roots))
      ensures error.None? ==> forall k :: k in h.writers ==> h.writers[k].rawFiles == []
      ensures error.None? ==> forall k :: FilesFor(outputs, k) == FilesFor(old(outputs), k) + PatchedFor(AcceptedUnderRoots(excluded, roots), k)
      ensures error.None? ==> Progress() == RunOutcome(excluded, roots, old(Progress()))
      ensures old(outputs) <= outputs && old(currentModuleIndex) <= currentModuleIndex
    {
      error, h := WalkRoots(roots);
      if error.None? {
        ghost var s0 := Progress();
        ghost var ps := Snapshots(WritersInOrder(h));
        StreamIsPending(this, h);
        FlushAll(h);
        FlushGrows(ps, -1, s0);
        StreamAfterFlush(this, h, ps, -1, s0);
        AllFlushedEmpty(this, h, ps);
        forall k ensures FilesFor(outputs, k) == Stream(h, k) {
          if k in h.writers {
            assert h.writers[k].rawFiles == [];
          }
        }
      }
    }

    /** The loop over the roots, stopping at the first root that cannot be listed. */
    method WalkRoots(roots: seq<FileNode>) returns (error: Option<string>, h: Holders)
      requires Valid()
      modifies this
      ensures Valid() && HoldersValid(this, h)
      ensures forall w :: w in h.writers.Values ==> fresh(w)
      ensures error.None? <==> forall j :: 0 <= j < |roots| ==> roots[j].Listable()
      ensures error.Some? ==> exists j :: 0 <= j < |roots| && !roots[j].Listable()
                                          && error.value == EmptyFolderMessage(roots[j])
                                          && forall i :: 0 <= i < j ==> roots[i].Listable()
      ensures error.None? ==> h.order == AddKeys([], KeysOf(AcceptedUnderRoots(excluded, roots)))
      ensures error.None? ==> Emission(generatedTestNames, printed) == Emit(old(Emission(generatedTestNames, printed)), AcceptedUnderRoots(excluded, roots))
      ensures error.None? ==> forall k :: Stream(h, k) == FilesFor(old(outputs), k) + PatchedFor(AcceptedUnderRoots(excluded, roots), k)
      ensures error.None? ==> State(h) == WalkUnderRoots(excluded, roots, WalkState(old(Progress()), []))
      ensures old(outputs) <= outputs && old(currentModuleIndex) <= currentModuleIndex
    {
      ghost var e0 := Emission(generatedTestNames, printed);
      ghost var o0 := outputs;
      ghost var start := WalkState(Progress(), []);
      h := Holders([], map[]);
      var i := 0;
      while i < |roots|
        invariant 0 <= i <= |roots|
        invariant Valid() && HoldersValid(this, h)
        invariant forall j :: 0 <= j < i ==> roots[j].Listable()
        invariant forall w :: w in h.writers.Values ==> fresh(w)
        invariant h.order == AddKeys([], KeysOf(AcceptedUnderRoots(excluded, roots[..i])))
        invariant Emission(generatedTestNames, printed) == Emit(e0, AcceptedUnderRoots(excluded, roots[..i]))
        invariant forall k :: Stream(h, k) == FilesFor(o0, k) + PatchedFor(AcceptedUnderRoots(excluded, roots[..i]), k)
        invariant o0 <= outputs && old(currentModuleIndex) <= currentModuleIndex
        invariant State(h) == WalkUnderRoots(excluded, roots[..i], start)
      {
        var root := roots[i];
        if !root.Listable() {
          error := Some(EmptyFolderMessage(root));
          return;
        }
        assert forall j :: 0 <= j < i + 1 ==> roots[j].Listable();
        ghost var walked := AcceptedUnderRoots(excluded, roots[..i]);
        h := ProcessFiles(root.children, h);
        RootStep(excluded, roots, i, e0);
        WalkRootsStep(excluded, roots, i, start);
        forall k ensures Stream(h, k) == FilesFor(o0, k) + PatchedFor(AcceptedUnderRoots(excluded, roots[..i + 1]), k) {
          AppendAssociates(FilesFor(o0, k), PatchedFor(walked, k), PatchedFor(Accepted(excluded, root.children), k));
        }
        i := i + 1;
      }
      assert roots[..i] == roots;
      error := None;
    }
  }

  /**
   * The inner class FilesWriter: the pending (name, content) pairs of one configuration. The
   * module index and the written-file count it updates belong to the enclosing generator. The
   * key it was created for is kept for the proofs only.
   */
  class FilesWriter {
    const outer: CodegenTestsOnAndroidGenerator
    ghost const key: ConfigurationKey
    const configuration: CompilerConfiguration
    var rawFiles: seq<RawFile>

    constructor (outer: CodegenTestsOnAndroidGenerator, ghost key: ConfigurationKey, configuration: CompilerConfiguration)
      ensures this.outer == outer && this.key == key && this.configuration == configuration && rawFiles == []
    {
      this.outer := outer;
      this.key := key;
      this.configuration := configuration;
      rawFiles := [];
    }

    /** The pending list with its key and configuration. */
    ghost function Pending(): PendingBatch
      reads this
    {
      PendingBatch(key, configuration, rawFiles)
    }

    predicate ShouldWriteFilesOnDisk()
      reads this
    {
      |rawFiles| > FlushThreshold
    }

    /** Appends one pair at the end; nothing else changes. */
    method AddFile(name: string, content: string)
      modifies this
      ensures rawFiles == old(rawFiles) + [RawFile(name, content)]
    {
      rawFiles := rawFiles + [RawFile(name, content)];
    }

    /**
     * Flushes exactly when more than the threshold is pending (FlushIf); otherwise nothing
     * changes. The pending list is emptied by a flush (Cleared).
     */
    method WriteFilesOnDiskIfNeeded()
      requires outer.Valid()
      modifies this, outer
      ensures outer.Valid()
      ensures outer.Progress() == FlushIf(old(Pending()), FlushThreshold, old(outer.Progress()))
      ensures Pending() == Cleared(old(Pending()), FlushThreshold)
      ensures outer.generatedTestNames == old(outer.generatedTestNames) && outer.printed == old(outer.printed)
    {
      if ShouldWriteFilesOnDisk() {
        WriteFilesOnDisk();
      }
    }

    /**
     * Compiles the pending files in a new module, writes them out and clears the list. The module
     * index is consumed even when nothing is pending; an empty batch writes nothing.
     */
    method WriteFilesOnDisk()
      requires outer.Valid()
      modifies this, outer
      ensures outer.Valid()
      ensures rawFiles == []
      ensures outer.Progress() == FlushOne(old(Pending()), old(outer.Progress()))
      ensures outer.currentModuleIndex == old(outer.currentModuleIndex) + 1
      ensures outer.generatedTestNames == old(outer.generatedTestNames) && outer.printed == old(outer.printed)
    {
      var moduleIndex := outer.currentModuleIndex;
      OutputsBounded(outer.outputs, outer.writtenFilesCount, moduleIndex);
      outer.currentModuleIndex := outer.currentModuleIndex + 1;
      WriteFiles(rawFiles, moduleIndex);
      rawFiles := [];
    }

    /**
     * Does nothing for an empty list; otherwise adds the batch to the running count and writes it
     * into the folder numbered by the updated count divided by the folder capacity.
     */
    method WriteFiles(filesToCompile: seq<RawFile>, moduleIndex: nat)
      requires outer.Valid()
      requires 1 <= moduleIndex < outer.currentModuleIndex
      requires forall j :: 0 <= j < |outer.outputs| ==> outer.outputs[j].moduleIndex < moduleIndex
      modifies outer
      ensures outer.Valid()
      ensures outer.writtenFilesCount == old(outer.writtenFilesCount) + |filesToCompile|
      ensures outer.outputs == old(outer.outputs) +
                (if filesToCompile == [] then []
                 else [CompiledBatch(key, moduleIndex, Folder(outer.writtenFilesCount), configuration, filesToCompile)])
      ensures outer.currentModuleIndex == old(outer.currentModuleIndex)
      ensures outer.generatedTestNames == old(outer.generatedTestNames) && outer.printed == old(outer.printed)
    {
      if filesToCompile == [] {
        return;
      }
      var before := outer.writtenFilesCount;
      var count := before + |filesToCompile|;
      FolderIsQuotient(count);
      outer.writtenFilesCount := count;
      var outputDir := count / FilesPerFolder;
      var batch := CompiledBatch(key, moduleIndex, outputDir, configuration, filesToCompile);
      FlushKeepsOutputsConsistent(outer.outputs, before, outer.currentModuleIndex, batch);
      outer.outputs := outer.outputs + [batch];
    }
  }
}
