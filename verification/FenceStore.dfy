/**
 * The lease-fence store over its files. Before and after every file step a crash or an
 * exception may stop the operation, which then answers `Faulted` and leaves the files as
 * they are; a contract that covers `Faulted` therefore covers every crash point. Directory
 * sync may succeed, report itself unsupported, or throw; a rename may stay busy.
 */
module FenceStore {
  import opened Basics
  import opened FenceRecord
  import opened FenceHistory
  import opened FenceDisk
  import opened RenewalRules
  import opened StableSort

  const MAX_ROOT_ENTRIES := 4096
  const RENAME_RETRIES := 4

  datatype ReadResult = ReadOk(record: Option<Record>) | ReadFailed(reason: Outcome)

  datatype RenameResult = Renamed | Busy | RenameFailed

  /** What a whole, decryptable file reads as. */
  function ReadOf(d: Disk, file: File): ReadResult {
    if file !in d then ReadOk(None)
    else if !ValidRecord(d[file]) || Id(d[file]) != file.id then ReadFailed(Corrupt)
    else ReadOk(Some(d[file]))
  }

  /** The byte order of activation ids, which are plain ASCII. */
  predicate TextLe(a: string, b: string) {
    a == "" || (b != "" && (a[0] < b[0] || (a[0] == b[0] && TextLe(a[1..], b[1..]))))
  }

  lemma {:induction false} TextLeTotal(a: string, b: string)
    ensures TextLe(a, b) || TextLe(b, a)
  {
    if a != "" && b != "" && a[0] == b[0] {
      TextLeTotal(a[1..], b[1..]);
    }
  }

  lemma {:induction false} TextLeTransitive(a: string, b: string, c: string)
    requires TextLe(a, b) && TextLe(b, c)
    ensures TextLe(a, c)
  {
    if a != "" && a[0] == b[0] == c[0] {
      TextLeTransitive(a[1..], b[1..], c[1..]);
    }
  }

  lemma TextLeIsPreorder()
    ensures TotalPreorder(TextLe)
  {
    forall a, b ensures TextLe(a, b) || TextLe(b, a) {
      TextLeTotal(a, b);
    }
    forall a, b, c | TextLe(a, b) && TextLe(b, c) ensures TextLe(a, c) {
      TextLeTransitive(a, b, c);
    }
  }

  class FenceStore {
    var files: Disk
    /** How often the environment stopped a file step so far; nothing else stops an operation. */
    ghost var faults: nat
    /** Files whose content was synced, and targets whose directory entry was, since they last changed. */
    ghost var synced: set<File>
    ghost var entries: set<File>

    /** Every activation is in a state the protocol can leave, and the heads are well formed. */
    ghost predicate Valid()
      reads this`files
    {
      && (forall a: string :: Sound(files, a))
      && WellFormed(HeadsOf(files))
    }

    constructor ()
      ensures Valid() && HeadsOf(files) == map[]
    {
      files, faults, synced, entries := map[], 0, {}, {};
    }

    /** Survives a power loss: the target is on disk, by its directory entry or by a synced shadow. */
    ghost predicate Durable(record: Record)
      reads this
    {
      var target, shadow := TargetFile(Id(record)), CommitFile(Id(record), record.generation);
      target in synced && (target in entries || (shadow in files && shadow in synced))
    }

    /** Whether the environment stops the operation here. */
    method Fault() returns (stop: bool)
      modifies this`faults
      ensures faults == old(faults) + if stop then 1 else 0
    {
      stop := *;
      if stop {
        faults := faults + 1;
      }
    }

    /** One attempt to rename the temporary file over the target. */
    method RenameFile(record: Record) returns (renamed: RenameResult)
      modifies this
      ensures files == if renamed.Renamed? then old(files)[TargetFile(Id(record)) := record] - {TemporaryFile(Id(record))}
                       else old(files)
      ensures faults == old(faults) + if renamed.RenameFailed? then 1 else 0
      ensures renamed.Renamed? ==>
        synced == old(synced) - {TargetFile(Id(record))} && entries == old(entries) - {TargetFile(Id(record))}
      ensures !renamed.Renamed? ==> synced == old(synced) && entries == old(entries)
    {
      renamed := *;
      if renamed.Renamed? {
        files := files[TargetFile(Id(record)) := record] - {TemporaryFile(Id(record))};
        synced, entries := synced - {TargetFile(Id(record))}, entries - {TargetFile(Id(record))};
      } else if renamed.RenameFailed? {
        faults := faults + 1;
      }
    }

    method ReadPath(file: File) returns (r: ReadResult)
      modifies this`faults
      ensures r == ReadFailed(Faulted) || r == ReadOf(files, file)
      ensures old(faults) <= faults && (r == ReadFailed(Faulted) ==> old(faults) < faults)
    {
      var stop := Fault();
      if stop {
        return ReadFailed(Faulted);
      }
      if file !in files {
        return ReadOk(None);
      }
      var record := files[file];
      if !ValidRecord(record) || Id(record) != file.id {
        return ReadFailed(Corrupt);
      }
      return ReadOk(Some(record));
    }

    method WriteExclusive(file: File, record: Record) returns (r: Outcome)
      modifies this
      ensures r == Done || r == Faulted
      ensures old(faults) <= faults && (r == Faulted ==> old(faults) < faults || file in old(files))
      ensures r == Done ==> files == old(files)[file := record] && file in synced
      ensures old(synced) <= synced && entries == old(entries)
      ensures r == Faulted ==>
        files == old(files) || (file !in old(files) && files == old(files)[file := record])
    {
      var stop := Fault();
      if stop || file in files {
        return Faulted;
      }
      files := files[file := record];
      synced := synced + {file};
      stop := Fault();
      return if stop then Faulted else Done;
    }

    method RemoveFile(file: File) returns (r: Outcome)
      modifies this
      ensures r == Done || r == Faulted
      ensures synced == old(synced) && entries == old(entries)
      ensures old(faults) <= faults && (r == Faulted ==> old(faults) < faults)
      ensures r == Done ==> files == old(files) - {file}
      ensures r == Faulted ==> files == old(files) || files == old(files) - {file}
    {
      var stop := Fault();
      if stop {
        return Faulted;
      }
      files := files - {file};
      stop := Fault();
      return if stop then Faulted else Done;
    }

    method SyncFile(file: File) returns (r: Outcome)
      modifies this`faults, this`synced
      ensures old(synced) <= synced && (r == Done ==> file in synced && file in files)
      ensures r == Done || r == Faulted
      ensures old(faults) <= faults && (r == Faulted ==> old(faults) < faults || file !in files)
    {
      var stop := Fault();
      if stop || file !in files {
        return Faulted;
      }
      synced := synced + {file};
      return Done;
    }

    method SyncDirectory() returns (r: Outcome, durable: bool)
      modifies this`faults, this`entries
      ensures old(entries) <= entries
      ensures r == Done && durable ==> forall f <- files | f.TargetFile? :: f in entries
      ensures r == Done || r == Faulted
      ensures old(faults) <= faults && (r == Faulted ==> old(faults) < faults)
    {
      var stop := Fault();
      durable := *;
      r := if stop then Faulted else Done;
      if !stop && durable {
        entries := entries + set f <- files | f.TargetFile?;
      }
    }

    /** The commit shadows of `a`, in generation order. */
    method ReadCommitStates(a: string) returns (r: Outcome, commits: seq<Record>)
      modifies this`faults
      ensures old(faults) <= faults && (r == Faulted ==> old(faults) < faults)
      ensures OwnFilesValid(files, a) ==> r == Done || r == Faulted
      ensures r == Done ==> CommitsAre(files, a, commits)
      ensures r == Done ==> forall c <- commits :: Id(c) == a
    {
      commits := [];
      var children := set f <- files | f.CommitFile? && f.id == a;
      var rest := children;
      while rest != {}
        invariant rest <= children && old(faults) <= faults
        invariant Ascending(commits)
        invariant forall c <- commits ::
          && Id(c) == a
          && CommitFile(a, c.generation) in children - rest
          && files[CommitFile(a, c.generation)] == c
        invariant forall f <- children - rest ::
          f == CommitFile(a, files[f].generation) && files[f] in commits
        decreases rest
      {
        var file :| file in rest;
        rest := rest - {file};
        var read := ReadPath(file);
        if read.ReadFailed? {
          return read.reason, [];
        }
        if read.record.None? || read.record.value.generation != file.generation {
          return Corrupt, [];
        }
        AddKeepsOrder(commits, read.record.value);
        commits := AddRecoveryState(commits, read.record.value).value;
      }
      return Done, commits;
    }

    method EnsureCommitMarker(record: Record) returns (r: Outcome)
      modifies this
      ensures old(faults) <= faults && (r == Faulted ==> old(faults) < faults)
      ensures var marker := CommitFile(Id(record), record.generation);
        && (files == old(files)
            || (marker !in old(files) && files == old(files)[marker := record]))
        && (r == Done ==> files == old(files)[marker := record])
        && old(synced) <= synced && entries == old(entries)
        && (r == Done || r == Faulted
            || (r == Corrupt && marker in old(files)
                && !(ReadOf(old(files), marker) == ReadOk(Some(record)))))
    {
      var marker := CommitFile(Id(record), record.generation);
      var existing := ReadPath(marker);
      if existing.ReadFailed? {
        return existing.reason;
      }
      if existing.record.Some? {
        return if existing.record.value == record then Done else Corrupt;
      }
      r := WriteExclusive(marker, record);
    }

    method EnsureTemporary(record: Record) returns (r: Outcome)
      modifies this
      ensures old(faults) <= faults && (r == Faulted ==> old(faults) < faults)
      ensures var temporary := TemporaryFile(Id(record));
        && (files == old(files)
            || (temporary !in old(files) && files == old(files)[temporary := record]))
        && (r == Done ==> files == old(files)[temporary := record])
        && old(synced) <= synced && entries == old(entries)
        && (r == Done || r == Faulted
            || (r == Corrupt && temporary in old(files)
                && !(ReadOf(old(files), temporary) == ReadOk(Some(record)))))
    {
      var temporary := TemporaryFile(Id(record));
      var existing := ReadPath(temporary);
      if existing.ReadFailed? {
        return existing.reason;
      }
      if existing.record.Some? {
        return if existing.record.value == record then Done else Corrupt;
      }
      r := WriteExclusive(temporary, record);
    }

    /**
     * Renames the temporary file over the target, retrying while the target is busy: it gives up
     * at a failure of another kind, or when all its attempts found the target busy.
     */
    method ReplaceWithRetry(record: Record) returns (r: Outcome, ghost busy: nat, ghost failed: bool)
      modifies this
      ensures busy <= 5 && (r == Faulted <==> failed || busy == 5)
      ensures old(faults) <= faults && (r == Faulted ==> old(faults) < faults)
      ensures var a := Id(record);
        var replaced := old(files)[TargetFile(a) := record] - {TemporaryFile(a)};
        && (files == old(files) || (TemporaryFile(a) in old(files)
              && old(files)[TemporaryFile(a)] == record && files == replaced))
        && (r == Done ==> TemporaryFile(a) in old(files) && files == replaced)
        && (r == Done || r == Faulted
            || (r == Corrupt && !(ReadOf(old(files), TemporaryFile(a)) == ReadOk(Some(record)))))
    {
      var a := Id(record);
      var attempt := 0;
      busy, failed := 0, false;
      while true
        invariant 0 <= attempt <= RENAME_RETRIES && busy == attempt && !failed
        invariant files == old(files) && old(faults) <= faults
        decreases RENAME_RETRIES - attempt
      {
        var retry := false;
        var source := ReadPath(TemporaryFile(a));
        if source.ReadFailed? {
          retry := *;
          if source.reason != Faulted || !retry {
            return source.reason, busy, source.reason == Faulted;
          }
        } else if source.record != Some(record) {
          return Corrupt, busy, false;
        } else {
          var renamed := RenameFile(record);
          if renamed.Renamed? {
            var stop := Fault();
            return if stop then Faulted else Done, busy, stop;
          }
          if renamed.RenameFailed? {
            return Faulted, busy, true;
          }
        }
        busy := busy + 1;
        if attempt >= RENAME_RETRIES {
          faults := faults + 1;
          return Faulted, busy, false;
        }
        attempt := attempt + 1;
      }
    }

    /** Syncs a landed record and clears what recovery no longer needs. */
    method FinishDurability(record: Record) returns (r: Outcome)
      modifies this
      ensures old(faults) <= faults && (r == Faulted ==> old(faults) < faults || TargetFile(Id(record)) !in old(files))
      ensures OthersSame(old(files), files, Id(record)) && (r == Done ==> Durable(record))
      ensures old(Landed(files, record)) ==>
        && (r == Done || r == Faulted)
        && Landed(files, record)
        && (r == Done ==> Settled(files, record))
    {
      var a := Id(record);
      ghost var landed := Landed(files, record);
      r := SyncFile(TargetFile(a));
      if r != Done {
        return;
      }
      var verified := ReadPath(TargetFile(a));
      if verified.ReadFailed? {
        return verified.reason;
      }
      if verified.record != Some(record) {
        return Corrupt;
      }
      var directoryDurable: bool;
      r, directoryDurable := SyncDirectory();
      if r != Done {
        return;
      }
      var commits: seq<Record>;
      r, commits := ReadCommitStates(a);
      if r != Done {
        return;
      }
      if landed {
        LandedHead(files, record);
      }
      r := RemoveFile(TemporaryFile(a));
      assert landed ==> files == old(files);
      if r != Done {
        return;
      }
      if directoryDurable {
        r := RemoveShadows(record, commits, true);
        if r != Done {
          return;
        }
        var cleanupDurable: bool;
        r, cleanupDurable := SyncDirectory();
        if r != Done || cleanupDurable {
          return;
        }
        r := MarkAndSync(record);
      } else {
        r := MarkAndSync(record);
        if r != Done {
          return;
        }
        r := RemoveShadows(record, commits, false);
      }
    }

    method MarkAndSync(record: Record) returns (r: Outcome)
      modifies this
      ensures old(faults) <= faults && (r == Faulted ==> old(faults) < faults)
      ensures OthersSame(old(files), files, Id(record)) && old(synced) <= synced && entries == old(entries)
      ensures r == Done ==> CommitFile(Id(record), record.generation) in files && CommitFile(Id(record), record.generation) in synced
      ensures old(Landed(files, record)) ==>
        && (r == Done || r == Faulted)
        && Landed(files, record)
        && (old(Settled(files, record)) ==> Settled(files, record))
        && (forall g: int :: g != record.generation ==>
              (CommitFile(Id(record), g) in files <==> CommitFile(Id(record), g) in old(files)))
    {
      if old(Landed(files, record)) {
        MarkerStep(files, record);
      }
      r := EnsureCommitMarker(record);
      if r == Done {
        r := SyncFile(CommitFile(Id(record), record.generation));
      }
    }

    /** Removes the listed commit shadows in order, `record`'s own only when `own` is set. */
    method RemoveShadows(record: Record, commits: seq<Record>, own: bool) returns (r: Outcome)
      modifies this
      requires forall c <- commits :: Id(c) == Id(record)
      requires Durable(record) && (own ==> TargetFile(Id(record)) in entries)
      requires !own ==> CommitFile(Id(record), record.generation) in files
      ensures synced == old(synced) && entries == old(entries)
      ensures !own && CommitFile(Id(record), record.generation) in synced ==> Durable(record)
      ensures old(faults) <= faults && (r == Faulted ==> old(faults) < faults)
      ensures OthersSame(old(files), files, Id(record))
      ensures r == Done || r == Faulted
      ensures old(Landed(files, record)) ==> Landed(files, record)
      ensures old(Landed(files, record)) && r == Done
        && (forall g: int :: g != record.generation && CommitFile(Id(record), g) in old(files) ==>
              exists c <- commits :: c.generation == g)
        ==> Settled(files, record)
    {
      hide Sound, ValidRecord, ValidSuccessor;
      var a := Id(record);
      ghost var landed := Landed(files, record);
      for i := 0 to |commits|
        invariant OthersSame(old(files), files, a) && old(faults) <= faults
        invariant synced == old(synced) && entries == old(entries)
        invariant !own ==> CommitFile(a, record.generation) in files
        invariant landed ==> Landed(files, record)
        invariant forall f <- files :: f in old(files)
        invariant forall j :: 0 <= j < i && commits[j].generation != record.generation ==>
          CommitFile(a, commits[j].generation) !in files
      {
        if own || commits[i].generation != record.generation {
          if landed {
            RemoveCommitStep(files, record, commits[i].generation);
          }
          r := RemoveFile(CommitFile(a, commits[i].generation));
          if r != Done {
            return;
          }
        }
      }
      r := Done;
    }

    /**
     * Roll-forward repair. On every state the protocol can leave, and at every crash point
     * inside repair itself, it never reports corruption and never changes the durable head;
     * when it completes, the target is the head and nothing is pending.
     */
    method RepairPending(a: string) returns (r: Outcome)
      modifies this
      ensures old(faults) <= faults && (r == Faulted ==> old(faults) < faults)
      ensures old(Sound(files, a)) ==>
        && OthersSame(old(files), files, a)
        && (r == Done || r == Faulted)
        && Sound(files, a)
        && Head(files, a) == old(Head(files, a))
        && (r == Done ==> Repaired(files, a) && TargetOf(files, a) == Head(files, a))
    {
      hide Sound, ValidRecord, ValidSuccessor, DecideRecovery, Ascending;
      ghost var sound := Sound(files, a);
      if sound {
        OwnFileReads(files, TargetFile(a));
        OwnFileReads(files, TemporaryFile(a));
      }
      var read := ReadPath(TargetFile(a));
      if read.ReadFailed? {
        return read.reason;
      }
      var target := read.record;
      var commits: seq<Record>;
      r, commits := ReadCommitStates(a);
      if r != Done {
        return;
      }
      read := ReadPath(TemporaryFile(a));
      if read.ReadFailed? {
        return read.reason;
      }
      var temporary := read.record;
      if commits == [] && temporary.None? {
        if sound {
          NothingPending(files, a, commits);
        }
        return Done;
      }
      if sound {
        RecoveryNeverBroken(files, a, commits);
        PendingOrLanded(files, a);
      }
      match DecideRecovery(target, commits, temporary)
      case Broken =>
        return Corrupt;
      case RollForward(recovered) =>
        r := RollForwardTo(recovered);
      case Settle =>
        if target.Some? {
          r := FinishDurability(target.value);
          if sound && Landed(files, target.value) {
            LandedHead(files, target.value);
          }
        } else {
          r := Done;
        }
    }

    /** Completes a pending generation: shadow, temporary, rename, durability. */
    method RollForwardTo(record: Record) returns (r: Outcome)
      modifies this
      ensures old(faults) <= faults && (r == Faulted ==> old(faults) < faults)
      ensures r == Done ==> Durable(record)
      ensures old(Pending(files, record)) ==>
        && OthersSame(old(files), files, Id(record))
        && (r == Done || r == Faulted)
        && Sound(files, Id(record))
        && Head(files, Id(record)) == Some(record)
        && (r == Done ==> Settled(files, record))
    {
      hide Sound, ValidRecord, ValidSuccessor, ReadOf, Head;
      ghost var pending := Pending(files, record);
      if pending {
        PendingHead(files, record);
        OwnFileReads(files, CommitFile(Id(record), record.generation));
        OwnFileReads(files, TemporaryFile(Id(record)));
        TemporaryStep(files, record);
      }
      r := EnsureCommitMarker(record);
      assert pending ==> files == old(files);
      if r != Done {
        return;
      }
      r := EnsureTemporary(record);
      if pending {
        assert Pending(files, record);
        PendingHead(files, record);
        OwnFileReads(files, TemporaryFile(Id(record)));
        RenameStep(files, record);
      }
      if r != Done {
        return;
      }
      ghost var busy, failed;
      r, busy, failed := ReplaceWithRetry(record);
      if pending && Landed(files, record) {
        LandedHead(files, record);
      }
      if r != Done {
        return;
      }
      r := FinishDurability(record);
      if pending {
        LandedHead(files, record);
      }
    }

    /**
     * The write-ahead commit of one generation. Whatever interrupts it, the head is the old
     * record or the new one, and it is the new one from the moment the commit shadow exists.
     */
    method WriteAtomic(record: Record) returns (r: Outcome)
      modifies this
      ensures old(faults) <= faults && (r == Faulted ==> old(faults) < faults)
      ensures r == Done ==> Durable(record)
      ensures old(Ready(files, record)) ==>
        && OthersSame(old(files), files, Id(record))
        && (r == Done || r == Faulted)
        && Sound(files, Id(record))
        && (Head(files, Id(record)) == Some(record) || files == old(files))
        && (r == Done ==> Settled(files, record) && Head(files, Id(record)) == Some(record))
    {
      ghost var ready := Ready(files, record);
      if ready {
        CommitStep(files, record);
      }
      r := EnsureCommitMarker(record);
      if ready && files != old(files) {
        PendingHead(files, record);
      }
      if r != Done {
        return;
      }
      r := RollForwardTo(record);
      if ready && r == Done {
        LandedHead(files, record);
      }
    }

    /** `RepairPending` seen from the whole store. */
    method Repair(a: string) returns (r: Outcome)
      requires Valid()
      modifies this
      ensures old(faults) <= faults && (r == Faulted ==> old(faults) < faults)
      ensures Valid() && HeadsOf(files) == old(HeadsOf(files))
      ensures OthersSame(old(files), files, a)
      ensures r == Done || r == Faulted
      ensures r == Done ==> Repaired(files, a) && TargetOf(files, a) == Lookup(HeadsOf(files), a)
    {
      assert Sound(files, a);
      r := RepairPending(a);
      StoreFrame(old(files), files, a);
      HeadsAt(files, a);
    }

    /** The activation ids that own at least one file, each once and in byte order. */
    method ListActivationIds() returns (r: Outcome, ids: seq<string>)
      modifies this`faults
      ensures old(faults) <= faults && (r == Faulted ==> old(faults) < faults)
      ensures r == Done || r == Faulted || (r == Unsafe && |files| > 4096)
      ensures |files| > 4096 ==> r != Done
      ensures r == Done ==> (forall a :: a in ids <==> a in Ids(files))
      ensures r == Done ==> Distinct(ids) && SortedBy(ids, TextLe)
    {
      hide TextLe;
      ids := [];
      var stop := Fault();
      if stop {
        return Faulted, ids;
      }
      if |files| > MAX_ROOT_ENTRIES {
        return Unsafe, ids;
      }
      var rest := Ids(files);
      while rest != {}
        invariant rest <= Ids(files)
        invariant forall a :: a in ids <==> a in Ids(files) - rest
        invariant Distinct(ids)
        decreases rest
      {
        var a :| a in rest;
        assert a !in ids;
        rest := rest - {a};
        ids := ids + [a];
      }
      TextLeIsPreorder();
      SortByIsSorted(ids, TextLe);
      DistinctStays(ids, SortBy(ids, TextLe));
      return Done, SortBy(ids, TextLe);
    }

    /** Reads the repaired head of `a`. */
    method ReadHead(a: string) returns (r: ReadResult)
      requires Valid() && Repaired(files, a) && TargetOf(files, a) == Lookup(HeadsOf(files), a)
      modifies this`faults
      ensures old(faults) <= faults && (r == ReadFailed(Faulted) ==> old(faults) < faults)
      ensures r == ReadFailed(Faulted) || r == ReadOk(Lookup(HeadsOf(files), a))
    {
      assert Sound(files, a);
      r := ReadPath(TargetFile(a));
    }

    method AssertNoCompetingFence(candidate: Data) returns (r: Outcome)
      requires Valid()
      requires Repaired(files, candidate.activationId)
      modifies this
      ensures old(faults) <= faults && (r == Faulted ==> old(faults) < faults)
      ensures Valid() && HeadsOf(files) == old(HeadsOf(files))
      ensures Repaired(files, candidate.activationId)
      ensures TargetOf(files, candidate.activationId) == old(TargetOf(files, candidate.activationId))
      ensures r == Done ==> !Competes(HeadsOf(files), candidate)
      ensures r == Conflict ==> Competes(HeadsOf(files), candidate)
      ensures r == Unsafe ==> |files| > 4096
      ensures r != Corrupt
    {
      hide Sound, Head, HeadsOf, WellFormed, Repaired, OthersSame, CompetesWith, Ids, SortedBy, Distinct, TextLe;
      ghost var heads := HeadsOf(files);
      ghost var own := TargetOf(files, candidate.activationId);
      var ids: seq<string>;
      r, ids := ListActivationIds();
      if r != Done {
        return;
      }
      HeadsAreFiles(files);
      assert forall a <- heads :: a in ids;
      for i := 0 to |ids|
        invariant Valid() && HeadsOf(files) == heads && old(faults) <= faults
        invariant Repaired(files, candidate.activationId)
        invariant TargetOf(files, candidate.activationId) == own
        invariant forall j :: 0 <= j < i && ids[j] != candidate.activationId && ids[j] in heads ==>
          !CompetesWith(heads[ids[j]], candidate)
      {
        if ids[i] != candidate.activationId {
          label before:
          r := Repair(ids[i]);
          OtherActivation(old@before(files), files, ids[i], candidate.activationId);
          if r != Done {
            return;
          }
          var other := ReadHead(ids[i]);
          if other.ReadFailed? {
            return other.reason;
          }
          if other.record.Some? && CompetesWith(other.record.value, candidate) {
            return Conflict;
          }
        }
      }
      r := Done;
    }

    /**
     * Persists a renewal. A completed call answers and changes the heads exactly as the
     * abstract step; an interrupted one leaves the old heads or the stepped ones; neither
     * ever reports corruption. `Done` means the head has reached the target file.
     */
    method PersistRenewal(target: Target, result: RenewalResult, now: Option<int>) returns (r: Outcome)
      requires Valid()
      modifies this
      ensures old(faults) <= faults && (r == Faulted ==> old(faults) < faults)
      ensures Valid()
      ensures var op := Persist(target, result, now);
        var before, after := old(HeadsOf(files)), HeadsOf(files);
        && r != Corrupt
        && (r == Done || r == Conflict ==> r == OutcomeOf(before, op) && after == Next(before, op))
        && (r == Unsafe ==> after == before)
        && (r == Unsafe ==> OutcomeOf(before, op) == Unsafe || |files| > 4096)
        && (r == Faulted ==> after == before || after == Next(before, op))
        && (r == Done ==> TargetOf(files, target.activationId) == Lookup(after, target.activationId))
      ensures r == Done ==>
        var head := Lookup(HeadsOf(files), target.activationId);
        && head.Some? && RecordsRenewal(head.value.data, target, result) && Durable(head.value)
        && (head.value.status == Fresh <==> !result.recovered && !result.lease.replayed)
    {
      hide Sound, Head, HeadsOf, WellFormed, Repaired, CompareRequest, FinishRenewal, ValidData;
      hide Competes, ValidRecord;
      ghost var heads := HeadsOf(files);
      ghost var op := Persist(target, result, now);
      hide RecordsRenewal;
      if OutcomeOf(heads, op) == Done {
        DoneIsRecorded(heads, target, result, now);
      }
      var data := RenewalData(target, result);
      if data.None? {
        return Unsafe;
      }
      var candidate := data.value;
      var a := candidate.activationId;
      var ids: seq<string>;
      r, ids := ListActivationIds();
      if r != Done {
        return;
      }
      r := Repair(a);
      if r != Done {
        return;
      }
      var read := ReadHead(a);
      if read.ReadFailed? {
        return read.reason;
      }
      var current := read.record;
      if current.Some? && !Active(current.value) {
        return Conflict;
      }
      r := AssertNoCompetingFence(candidate);
      if r != Done {
        return;
      }
      assert current == Lookup(heads, a) == TargetOf(files, a);
      if current.Some? {
        var compared := CompareRequest(current.value, candidate);
        if compared.Refuse? {
          return compared.reason;
        }
        if compared.Keep? {
          r := KeepDurable(current.value);
          return;
        }
      }
      var plan := FinishRenewal(current, candidate, now);
      assert plan == PlanOf(heads, op);
      WritesAreSuccessors(heads, op);
      if plan.Refuse? {
        return plan.reason;
      }
      r := Commit(plan.next, op);
    }

    /** Re-establishes durability of a head that an operation keeps. */
    method KeepDurable(current: Record) returns (r: Outcome)
      requires Valid()
      requires Repaired(files, Id(current)) && TargetOf(files, Id(current)) == Some(current)
      modifies this
      ensures old(faults) <= faults && (r == Faulted ==> old(faults) < faults)
      ensures r == Done ==> Durable(current)
      ensures Valid() && HeadsOf(files) == old(HeadsOf(files))
      ensures r == Done || r == Faulted
      ensures TargetOf(files, Id(current)) == Some(current)
    {
      LandedHead(files, current);
      r := FinishDurability(current);
      LandedHead(files, current);
      StoreFrame(old(files), files, Id(current));
    }

    /** Writes the planned head. */
    method Commit(next: Record, ghost op: Operation) returns (r: Outcome)
      requires Valid()
      requires PlanOf(HeadsOf(files), op) == Write(next) && Id(next) == Subject(op)
      requires Repaired(files, Subject(op))
      requires TargetOf(files, Subject(op)) == Lookup(HeadsOf(files), Subject(op))
      modifies this
      ensures old(faults) <= faults && (r == Faulted ==> old(faults) < faults)
      ensures r == Done ==> Durable(next)
      ensures Valid()
      ensures r == Done || r == Faulted
      ensures HeadsOf(files) == Next(old(HeadsOf(files)), op)
        || (r == Faulted && HeadsOf(files) == old(HeadsOf(files)))
      ensures r == Done ==> TargetOf(files, Subject(op)) == Some(next)
    {
      ghost var heads := HeadsOf(files);
      WritesAreSuccessors(heads, op);
      OperationKeepsWellFormed(heads, op);
      assert Ready(files, next);
      r := WriteAtomic(next);
      HeadsFrame(old(files), files, Subject(op));
      SoundFrame(old(files), files, Subject(op));
    }

    /** Removes exactly the expected live head, leaving a tombstone. */
    method Remove(expected: Record, now: Option<int>) returns (r: Outcome)
      requires Valid()
      modifies this
      ensures old(faults) <= faults && (r == Faulted ==> old(faults) < faults)
      ensures Valid()
      ensures var op := FenceHistory.Remove(expected, now);
        var before, after := old(HeadsOf(files)), HeadsOf(files);
        && r != Corrupt
        && (r == Done || r == Conflict ==> r == OutcomeOf(before, op) && after == Next(before, op))
        && (r == Unsafe ==> after == before)
        && (r == Unsafe ==> OutcomeOf(before, op) == Unsafe || |files| > 4096)
        && (r == Faulted ==> after == before || after == Next(before, op))
        && (r == Done ==> TargetOf(files, Id(expected)) == Lookup(after, Id(expected)))
      ensures r == Done ==>
        var head := Lookup(HeadsOf(files), Id(expected));
        head.Some? && IsTombstoneOf(head.value, expected) && Durable(head.value)
    {
      hide Sound, Head, HeadsOf, WellFormed, ValidRecord, ValidRemovalSuccessor;
      ghost var heads := HeadsOf(files);
      ghost var op := FenceHistory.Remove(expected, now);
      RemovalRule(heads, expected, now);
      hide ProperRecord;
      if !ValidRecord(expected) || !Active(expected) {
        return Unsafe;
      }
      var a := Id(expected);
      var ids: seq<string>;
      r, ids := ListActivationIds();
      if r != Done {
        return;
      }
      r := Repair(a);
      if r != Done {
        return;
      }
      var read := ReadHead(a);
      if read.ReadFailed? {
        return read.reason;
      }
      var plan := RemovePlan(read.record, expected, now);
      assert plan == PlanOf(heads, op);
      WritesAreSuccessors(heads, op);
      match plan
      case Refuse(reason) =>
        return reason;
      case Keep =>
        r := KeepDurable(read.record.value);
      case Write(tombstone) =>
        r := Commit(tombstone, op);
    }

    /** Answers the exact fresh head only; a stale, replaced, removed or expired one is refused. */
    method RequireFresh(expected: Record, now: Option<int>) returns (r: Outcome)
      requires Valid()
      modifies this
      ensures old(faults) <= faults && (r == Faulted ==> old(faults) < faults)
      ensures Valid() && HeadsOf(files) == old(HeadsOf(files))
      ensures r == Done || r == Conflict ==> r == FreshOutcome(HeadsOf(files), expected, now)
      ensures r == Unsafe ==>
        FreshOutcome(HeadsOf(files), expected, now) == Unsafe || |files| > 4096
      ensures r != Corrupt
      ensures r == Done ==>
        && Lookup(HeadsOf(files), Id(expected)) == Some(expected)
        && !expected.data.recovered && !expected.data.replayed
        && now.Some? && now.value < expected.data.leaseExpiresAt / 1_000_000
    {
      FreshRule(HeadsOf(files), expected, now);
      hide ProperRecord;
      if !ValidRecord(expected) || !Active(expected) {
        return Unsafe;
      }
      var ids: seq<string>;
      r, ids := ListActivationIds();
      if r != Done {
        return;
      }
      r := Repair(Id(expected));
      if r != Done {
        return;
      }
      var read := ReadHead(Id(expected));
      if read.ReadFailed? {
        return read.reason;
      }
      if now.None? {
        return Unsafe;
      }
      if
        || read.record.None?
        || read.record.value.status != Fresh
        || read.record.value != expected
        || now.value >= ParseMs(read.record.value.data.leaseExpiresAt)
      {
        return Conflict;
      }
      return Done;
    }

    /**
     * Lists every live head once, in byte order. The final uniqueness check can never fail: no two live
     * heads share an executor or an operation, pending commit shadows included.
     */
    method List() returns (r: Outcome, records: seq<Record>)
      requires Valid()
      modifies this
      ensures old(faults) <= faults && (r == Faulted ==> old(faults) < faults)
      ensures Valid() && HeadsOf(files) == old(HeadsOf(files))
      ensures r != Corrupt && r != Conflict
      ensures r == Unsafe ==> |files| > 4096
      ensures r == Done ==> ListsActive(HeadsOf(files), HeadsOf(files).Keys, records)
      ensures r == Done ==> forall i, j :: 0 <= i < j < |records| ==> TextLe(Id(records[i]), Id(records[j]))
    {
      hide Sound, Head, HeadsOf, Repaired, ValidRecord, ListsActive, WellFormed, TextLe;
      ghost var heads := HeadsOf(files);
      records := [];
      var ids: seq<string>;
      r, ids := ListActivationIds();
      if r != Done {
        return;
      }
      HeadsAreFiles(files);
      assert forall a <- heads :: a in ids;
      ghost var seen: set<string> := {};
      ListNothing(heads);
      for i := 0 to |ids|
        invariant Valid() && HeadsOf(files) == heads && old(faults) <= faults
        invariant ListsActive(heads, seen, records)
        invariant forall j :: i <= j < |ids| ==> ids[j] !in seen
        invariant forall j :: 0 <= j < i ==> ids[j] in seen
        invariant ListedUpTo(records, ids, i)
      {
        r := Repair(ids[i]);
        if r != Done {
          return;
        }
        var read := ReadHead(ids[i]);
        if read.ReadFailed? {
          return read.reason, records;
        }
        ListOne(heads, seen, records, ids[i]);
        ListInOrder(heads, records, ids, i);
        seen := seen + {ids[i]};
        if read.record.Some? && Active(read.record.value) {
          records := records + [read.record.value];
        }
      }
      var unique := UniqueActiveRecords(records);
      ListedAreUnique(heads, seen, records);
      assert unique;
      ListEverything(heads, seen, records);
      r := Done;
    }
  }

  /** `records` holds each live head among the `seen` activations exactly once. */
  ghost predicate ListsActive(heads: Heads, seen: set<string>, records: seq<Record>) {
    && (forall x <- records :: Id(x) in seen && Lookup(heads, Id(x)) == Some(x) && Active(x))
    && (forall a <- seen :: a in heads && Active(heads[a]) ==> heads[a] in records)
    && (forall i, j :: 0 <= i < j < |records| ==> Id(records[i]) != Id(records[j]))
  }

  /** In byte order, and no record of an id that is still to come stands behind. */
  ghost predicate ListedUpTo(records: seq<Record>, ids: seq<string>, n: nat) {
    && (forall i, j :: 0 <= i < j < |records| ==> TextLe(Id(records[i]), Id(records[j])))
    && (forall i, j :: 0 <= i < |records| && n <= j < |ids| ==> TextLe(Id(records[i]), ids[j]))
  }

  lemma ListInOrder(heads: Heads, records: seq<Record>, ids: seq<string>, n: nat)
    requires WellFormed(heads) && SortedBy(ids, TextLe) && n < |ids| && ListedUpTo(records, ids, n)
    ensures ListedUpTo(records, ids, n + 1)
    ensures ids[n] in heads ==> ListedUpTo(records + [heads[ids[n]]], ids, n + 1)
  {
    hide TextLe, ValidRecord, Exclusive;
    forall j | n < j < |ids| ensures TextLe(ids[n], ids[j]) {
    }
  }

  lemma ListNothing(heads: Heads)
    ensures ListsActive(heads, {}, [])
  {
  }

  lemma ListOne(heads: Heads, seen: set<string>, records: seq<Record>, a: string)
    requires WellFormed(heads) && ListsActive(heads, seen, records) && a !in seen
    ensures ListsActive(heads, seen + {a},
      if a in heads && Active(heads[a]) then records + [heads[a]] else records)
  {
    hide ValidRecord;
  }

  lemma ListEverything(heads: Heads, seen: set<string>, records: seq<Record>)
    requires ListsActive(heads, seen, records) && heads.Keys <= seen
    ensures ListsActive(heads, heads.Keys, records)
  {
  }

  lemma ListedAreUnique(heads: Heads, seen: set<string>, records: seq<Record>)
    requires WellFormed(heads) && ListsActive(heads, seen, records)
    ensures forall i, j :: 0 <= i < j < |records| ==>
      && records[i].data.executorId != records[j].data.executorId
      && records[i].data.operationId != records[j].data.operationId
  {
    hide ValidRecord;
    forall i, j | 0 <= i < j < |records|
      ensures records[i].data.executorId != records[j].data.executorId
      ensures records[i].data.operationId != records[j].data.operationId
    {
      assert records[i] in records && records[j] in records;
    }
  }

  /** Whether no two listed records share an executor or an operation. */
  method UniqueActiveRecords(records: seq<Record>) returns (unique: bool)
    ensures unique <==> forall i, j :: 0 <= i < j < |records| ==>
      && records[i].data.executorId != records[j].data.executorId
      && records[i].data.operationId != records[j].data.operationId
  {
    var executors: set<string>, operations: set<string> := {}, {};
    for k := 0 to |records|
      invariant executors == set i | 0 <= i < k :: records[i].data.executorId
      invariant operations == set i | 0 <= i < k :: records[i].data.operationId
      invariant forall i, j :: 0 <= i < j < k ==>
        && records[i].data.executorId != records[j].data.executorId
        && records[i].data.operationId != records[j].data.operationId
    {
      if records[k].data.executorId in executors || records[k].data.operationId in operations {
        return false;
      }
      executors := executors + {records[k].data.executorId};
      operations := operations + {records[k].data.operationId};
    }
    return true;
  }

  lemma OwnFileReads(d: Disk, f: File)
    requires Sound(d, f.id)
    ensures OwnFilesValid(d, f.id) && ReadOf(d, f) == ReadOk(if f in d then Some(d[f]) else None)
  {
    hide ValidRecord;
  }

  /** What a sound activation is on its way to. */
  lemma PendingOrLanded(d: Disk, a: string)
    requires Sound(d, a)
    ensures var next := CommitFile(a, NextGeneration(d, a));
      && (next in d ==> Id(d[next]) == a && Pending(d, d[next]) && Head(d, a) == Some(d[next]))
      && (next !in d && TargetFile(a) in d ==>
            Id(d[TargetFile(a)]) == a && Landed(d, d[TargetFile(a)]) && Head(d, a) == Some(d[TargetFile(a)]))
      && (next !in d && TargetFile(a) !in d ==> TemporaryFile(a) !in d && forall g: int :: CommitFile(a, g) !in d)
  {
    hide ValidRecord, ValidSuccessor;
  }

  lemma SoundFrame(d: Disk, e: Disk, a: string)
    requires (forall b: string :: Sound(d, b)) && OthersSame(d, e, a) && Sound(e, a)
    ensures forall b: string :: Sound(e, b)
  {
    forall b: string ensures Sound(e, b) {
      assert Sound(d, b);
      if b != a {
        OtherActivation(d, e, a, b);
      }
    }
  }

  /** An operation that keeps every head keeps the whole store valid. */
  lemma StoreFrame(d: Disk, e: Disk, a: string)
    requires (forall b: string :: Sound(d, b)) && OthersSame(d, e, a) && Sound(e, a)
    requires Head(e, a) == Head(d, a)
    ensures forall b: string :: Sound(e, b)
    ensures HeadsOf(e) == HeadsOf(d)
  {
    SoundFrame(d, e, a);
    HeadsFrame(d, e, a);
  }

  lemma HeadsAreFiles(d: Disk)
    ensures HeadsOf(d).Keys <= Ids(d)
  {
  }

  lemma NothingPending(d: Disk, a: string, commits: seq<Record>)
    requires Sound(d, a) && CommitsAre(d, a, commits)
    requires commits == [] && TemporaryFile(a) !in d
    ensures Repaired(d, a) && TargetOf(d, a) == Head(d, a)
  {
    assert forall g: int :: CommitFile(a, g) !in d;
    if TargetFile(a) !in d {
      forall f <- d ensures f.id != a {
        assert f == TargetFile(f.id) || f == TemporaryFile(f.id) || exists g :: f == CommitFile(f.id, g);
      }
    }
  }
}
