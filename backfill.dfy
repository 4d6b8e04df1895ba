/**
 * Backfill copy: for every batch, one destination pipeline of EXISTS to
 * find the keys the destination lacks, then one pipeline of plain RESTOREs
 * (no REPLACE) for those keys' snapshots, executed without raising; a
 * result that is a busy-key error is skipped, any other error is raised.
 */
module Backfill {
  import opened Types
  import opened Server
  import opened Scanner
  import opened SnapshotReader
  import opened Passes

  /** The first pipeline: EXISTS k for every key of the batch, in order. */
  function ExistsCommands(keys: seq<Key>): (cmds: seq<Command>)
    ensures |cmds| == |keys|
  {
    seq(|keys|, i requires 0 <= i < |keys| => Exists(keys[i]))
  }

  /** Python truthiness of a reply. */
  predicate Truthy(r: Reply)
  {
    match r
    case Int(n) => n != 0
    case Bulk(bytes) => bytes != []
    case Okay => true
    case Error(_) => true
  }

  /** The keys whose EXISTS reply is falsy, in batch order. */
  function Missing(keys: seq<Key>, replies: seq<Reply>): seq<Key>
    requires |replies| == |keys|
  {
    if keys == [] then []
    else (if Truthy(replies[0]) then [] else [keys[0]]) + Missing(keys[1..], replies[1..])
  }

  /** The keys a store does not hold. */
  function AbsentFrom(store: Store): Key -> bool
  {
    k => k !in store
  }

  /**
   * The EXISTS pipeline leaves the destination as it was, raises nothing,
   * and the keys it reports missing are exactly the batch's keys the
   * destination lacks, in batch order.
   */
  lemma {:induction false} ExistsPipeline(b: Behaviour, store: Store, keys: seq<Key>)
    ensures var e := ExecutePipeline(b, store, ExistsCommands(keys));
            && e.store == store
            && FirstError(e.replies) == None
            && Missing(keys, e.replies) == Keep(AbsentFrom(store), keys)
  {
    if keys != [] {
      var cmds := ExistsCommands(keys);
      assert cmds[0] == Exists(keys[0]);
      assert cmds[1..] == ExistsCommands(keys[1..]);
      ExistsPipeline(b, store, keys[1..]);
      var e := ExecutePipeline(b, store, cmds);
      var rest := ExecutePipeline(b, store, cmds[1..]);
      assert e.replies == [Int(if keys[0] in store then 1 else 0)] + rest.replies;
      assert e.replies[1..] == rest.replies;
    }
  }

  /** The second pipeline: a plain RESTORE (no REPLACE) for every snapshot, in order. */
  function RestoreCommands(snaps: seq<Snapshot>): (cmds: seq<Command>)
    ensures |cmds| == |snaps|
  {
    seq(|snaps|, i requires 0 <= i < |snaps| => Restore(snaps[i].key, snaps[i].pttl, snaps[i].data, false))
  }

  /** `'is busy' in str(result)`: an error whose text contains `is busy`. */
  predicate Busy(message: string)
  {
    Contains(message, "is busy")
  }

  /** The keys a result loop yields and the error it raises, if it does. */
  datatype Outcome = Outcome(yielded: seq<Key>, raised: Option<string>)

  /**
   * The result loop of backfill_copy: result `i` stands for `keys[i]`; a
   * success yields it, a busy-key error is skipped, and any other error is
   * raised, ending the loop.
   */
  function Classify(keys: seq<Key>, results: seq<Reply>): (o: Outcome)
    requires |results| <= |keys|
    ensures |o.yielded| <= |results|
    ensures forall k :: k in o.yielded ==> k in keys[..|results|]
    ensures o.raised.None? <==> forall i :: 0 <= i < |results| && results[i].Error? ==> Busy(results[i].message)
    ensures o.raised.Some? ==> Error(o.raised.value) in results && !Busy(o.raised.value)
  {
    if results == [] then Outcome([], None)
    else
      var rest := Classify(keys[1..], results[1..]);
      assert keys[1..][..|results| - 1] == keys[1..|results|];
      assert forall i :: 1 <= i < |results| ==> results[1..][i - 1] == results[i];
      match results[0]
      case Error(m) => if Busy(m) then rest else Outcome([], Some(m))
      case _ => Outcome([keys[0]] + rest.yielded, rest.raised)
  }

  /** When no result is an error, every key that has a result is yielded, in order. */
  lemma {:induction false} ClassifyNoErrors(keys: seq<Key>, results: seq<Reply>)
    requires |results| <= |keys|
    requires forall i :: 0 <= i < |results| ==> !results[i].Error?
    ensures Classify(keys, results) == Outcome(keys[..|results|], None)
  {
    if results != [] {
      assert forall i :: 0 <= i < |results| - 1 ==> results[1..][i] == results[i + 1];
      ClassifyNoErrors(keys[1..], results[1..]);
      assert keys[..|results|] == [keys[0]] + keys[1..][..|results| - 1];
    }
  }

  /** Each yielded key is the key at the position of a result that is not an error. */
  lemma {:induction false} ClassifyYieldsSuccesses(keys: seq<Key>, results: seq<Reply>)
    requires |results| <= |keys|
    ensures forall k :: k in Classify(keys, results).yielded ==>
              exists i :: 0 <= i < |results| && keys[i] == k && !results[i].Error?
  {
    if results != [] {
      ClassifyYieldsSuccesses(keys[1..], results[1..]);
      var o := Classify(keys, results);
      var rest := Classify(keys[1..], results[1..]);
      forall k | k in o.yielded
        ensures exists i :: 0 <= i < |results| && keys[i] == k && !results[i].Error?
      {
        if !results[0].Error? && k == keys[0] {
          assert keys[0] == k && !results[0].Error?;
        } else {
          assert k in rest.yielded;
          var j :| 0 <= j < |results| - 1 && keys[1..][j] == k && !results[1..][j].Error?;
          assert keys[j + 1] == k && !results[j + 1].Error?;
        }
      }
    }
  }

  /** The position of the first error that is not a busy-key error, or `|results|` if none. */
  function FirstFatal(results: seq<Reply>): (j: nat)
    ensures j <= |results|
    ensures forall i :: 0 <= i < j && results[i].Error? ==> Busy(results[i].message)
    ensures j < |results| ==> results[j].Error? && !Busy(results[j].message)
  {
    if results == [] then 0
    else if results[0].Error? && !Busy(results[0].message) then 0
    else 1 + FirstFatal(results[1..])
  }

  /** The keys at the positions of successful results, in order. */
  function Successes(keys: seq<Key>, results: seq<Reply>): seq<Key>
    requires |results| <= |keys|
  {
    if results == [] then []
    else (if results[0].Error? then [] else [keys[0]]) + Successes(keys[1..], results[1..])
  }

  /**
   * The result loop in full: it yields, in order, the key of every
   * successful result before the first error that is not a busy-key error,
   * and raises that error; with no such error it yields every success and
   * raises nothing.
   */
  lemma {:induction false} ClassifyStopsAtFirstFatal(keys: seq<Key>, results: seq<Reply>)
    requires |results| <= |keys|
    ensures var j := FirstFatal(results);
            Classify(keys, results) ==
              Outcome(Successes(keys[..j], results[..j]), if j < |results| then Some(results[j].message) else None)
  {
    if results != [] {
      var j := FirstFatal(results);
      if results[0].Error? && !Busy(results[0].message) {
        assert keys[..j] == [] && results[..j] == [];
      } else {
        ClassifyStopsAtFirstFatal(keys[1..], results[1..]);
        assert keys[..j][1..] == keys[1..][..j - 1];
        assert results[..j][1..] == results[1..][..j - 1];
      }
    }
  }

  /**
   * The second half of a batch: if no key is missing nothing is read or
   * sent; otherwise the missing keys are read and restored without REPLACE,
   * and result `i` is classified as standing for the `i`-th MISSING key,
   * although a key that vanished from the source has no restore and so no
   * result.
   */
  function MissingRestored(b: Behaviour, src: Store, missing: seq<Key>, store: Store): Pass
  {
    if missing == [] then Pass([], None, store, [])
    else
      var snaps := ReadSnapshots(src, missing);
      var rcmds := RestoreCommands(snaps);
      var e := ExecutePipeline(b, store, rcmds);
      var o := Classify(missing, e.replies);
      Pass(o.yielded, o.raised, e.store, Sent(rcmds))
  }

  /**
   * One batch of backfill_copy: EXISTS for every key, raising on an error
   * reply, then the missing keys restored by `MissingRestored`.
   */
  function BackfillStep(b: Behaviour, src: Store, keys: seq<Key>, store: Store): Pass
  {
    var ecmds := ExistsCommands(keys);
    var e := ExecutePipeline(b, store, ecmds);
    match FirstError(e.replies)
    case Some(err) => Pass([], Some(err), e.store, Sent(ecmds))
    case None =>
      var r := MissingRestored(b, src, Missing(keys, e.replies), e.store);
      Pass(r.yielded, r.raised, r.store, Sent(ecmds) + r.pipelines)
  }

  /**
   * The intended second half of a batch: result `i` is classified as
   * standing for the key of the `i`-th restore actually sent.
   */
  function MissingRestoredIntended(b: Behaviour, src: Store, missing: seq<Key>, store: Store): Pass
  {
    if missing == [] then Pass([], None, store, [])
    else
      var snaps := ReadSnapshots(src, missing);
      var rcmds := RestoreCommands(snaps);
      var e := ExecutePipeline(b, store, rcmds);
      var o := Classify(SnapshotKeys(snaps), e.replies);
      Pass(o.yielded, o.raised, e.store, Sent(rcmds))
  }

  /** The intended batch: as `BackfillStep`, with `MissingRestoredIntended`. */
  function BackfillStepIntended(b: Behaviour, src: Store, keys: seq<Key>, store: Store): Pass
  {
    var ecmds := ExistsCommands(keys);
    var e := ExecutePipeline(b, store, ecmds);
    match FirstError(e.replies)
    case Some(err) => Pass([], Some(err), e.store, Sent(ecmds))
    case None =>
      var r := MissingRestoredIntended(b, src, Missing(keys, e.replies), e.store);
      Pass(r.yielded, r.raised, r.store, Sent(ecmds) + r.pipelines)
  }

  /** The step of one batch, as a function the batch loop applies. */
  function Backfilling(b: Behaviour, src: Store): (seq<Key>, Store) -> Pass
  {
    (keys, store) => BackfillStep(b, src, keys, store)
  }

  /** backfill_copy: the batches in order, ending at the first batch that raises. */
  function BackfillBatches(b: Behaviour, src: Store, batches: seq<seq<Key>>, store: Store): Pass
  {
    Drive(Backfilling(b, src), batches, store)
  }

  /** Every key of `before` is in `after` with the same value. */
  ghost predicate Keeps(before: Store, after: Store)
  {
    forall k :: k in before ==> k in after && after[k] == before[k]
  }

  /** A batch never overwrites or removes a key the destination holds. */
  lemma BackfillStepKeeps(b: Behaviour, src: Store, keys: seq<Key>, store: Store)
    ensures Keeps(store, BackfillStep(b, src, keys, store).store)
  {
    ExistsPipeline(b, store, keys);
    var missing := Keep(AbsentFrom(store), keys);
    if missing != [] {
      var rcmds := RestoreCommands(ReadSnapshots(src, missing));
      NonDestructivePipeline(b, store, rcmds);
    }
  }

  /**
   * The backfill guarantee: a run never overwrites or removes a key the
   * destination held when it started.
   */
  lemma {:induction false} BackfillKeepsExisting(b: Behaviour, src: Store, batches: seq<seq<Key>>, store: Store)
    ensures Keeps(store, BackfillBatches(b, src, batches, store).store)
    decreases |batches|
  {
    if batches != [] {
      var step := Backfilling(b, src)(batches[0], store);
      BackfillStepKeeps(b, src, batches[0], store);
      if step.raised.None? {
        BackfillKeepsExisting(b, src, batches[1..], step.store);
      }
    }
  }

  /** A batch yields only keys the destination lacked. */
  lemma BackfillStepYieldsAbsent(b: Behaviour, src: Store, keys: seq<Key>, store: Store)
    ensures forall k :: k in BackfillStep(b, src, keys, store).yielded ==> k in keys && k !in store
  {
    ExistsPipeline(b, store, keys);
  }

  /** A run yields only keys the destination lacked when the run started. */
  lemma {:induction false} BackfillYieldsOnlyAbsent(b: Behaviour, src: Store, batches: seq<seq<Key>>, store: Store)
    ensures forall k :: k in BackfillBatches(b, src, batches, store).yielded ==> k !in store
    decreases |batches|
  {
    if batches != [] {
      var step := Backfilling(b, src)(batches[0], store);
      BackfillStepYieldsAbsent(b, src, batches[0], store);
      if step.raised.None? {
        BackfillYieldsOnlyAbsent(b, src, batches[1..], step.store);
        BackfillStepKeeps(b, src, batches[0], store);
      }
    }
  }

  /** The EXISTS pipeline of a batch, as sent: not at all for an empty batch. */
  function ExistsSent(keys: seq<Key>): seq<seq<Command>>
  {
    Sent(ExistsCommands(keys))
  }

  /**
   * A batch whose every key the destination already holds yields nothing,
   * raises nothing, changes nothing and sends only its EXISTS pipeline.
   */
  lemma BackfillStepAllPresent(b: Behaviour, src: Store, keys: seq<Key>, store: Store)
    requires Covers(store, keys)
    ensures BackfillStep(b, src, keys, store) == Pass([], None, store, ExistsSent(keys))
  {
    ExistsPipeline(b, store, keys);
    KeepNone(AbsentFrom(store), keys);
  }

  /**
   * When the destination already holds every key of every batch, the run
   * yields nothing, raises nothing, changes nothing and sends only the
   * EXISTS pipelines: no batch reaches its RESTORE pipeline.
   */
  lemma BackfillAllPresent(b: Behaviour, src: Store, batches: seq<seq<Key>>, store: Store)
    requires forall j :: 0 <= j < |batches| ==> Covers(store, batches[j])
    ensures BackfillBatches(b, src, batches, store) == Pass([], None, store, Each(ExistsSent, batches))
  {
    forall j | 0 <= j < |batches|
      ensures Backfilling(b, src)(batches[j], store) == Pass([], None, store, ExistsSent(batches[j]))
    {
      BackfillStepAllPresent(b, src, batches[j], store);
    }
    DriveQuiet(Backfilling(b, src), ExistsSent, batches, store);
  }

  /**
   * Plain restores of snapshots read from `src`, of distinct keys the
   * destination lacks, all succeed and write exactly those keys with the
   * source's values.
   */
  lemma {:induction false} RestorePipelineEffect(b: Behaviour, src: Store, store: Store, snaps: seq<Snapshot>)
    requires Accepted(b, src)
    requires forall i :: 0 <= i < |snaps| ==>
               snaps[i].key in src && snaps[i] == SnapshotOf(src, snaps[i].key) && snaps[i].key !in store
    requires Distinct(SnapshotKeys(snaps))
    ensures var e := ExecutePipeline(b, store, RestoreCommands(snaps));
            FirstError(e.replies) == None && Mirrors(src, store, e.store, SnapshotKeys(snaps))
    decreases |snaps|
  {
    if snaps == [] {
      assert SnapshotKeys(snaps) == [];
    } else {
      var s := snaps[0];
      var cmds := RestoreCommands(snaps);
      assert cmds[0] == Restore(s.key, s.pttl, s.data, false);
      assert cmds[1..] == RestoreCommands(snaps[1..]);
      SnapshotRestoresCopy(src, s.key);
      var first := Apply(b, store, cmds[0]);
      assert first == Step(store[s.key := Copied(src[s.key])], Okay);
      assert Mirrors(src, store, first.store, [s.key]);
      var keys := SnapshotKeys(snaps);
      assert forall i :: 0 <= i < |snaps| - 1 ==> snaps[1..][i] == snaps[i + 1] && keys[i + 1] != keys[0];
      RestorePipelineEffect(b, src, first.store, snaps[1..]);
      var rest := ExecutePipeline(b, first.store, cmds[1..]);
      MirrorsCompose(src, store, first.store, rest.store, [s.key], SnapshotKeys(snaps[1..]));
      FirstErrorAppend([Okay], rest.replies);
    }
  }

  /** Every key of the batch is in the source with a non-empty value: none vanished. */
  ghost predicate AllInSource(src: Store, keys: seq<Key>)
  {
    forall k :: k in keys ==> k in src && |src[k].payload| >= 1
  }

  /**
   * A batch of distinct keys none of which vanished from the source, with
   * payloads the destination accepts: exactly the keys the destination
   * lacked are yielded, in batch order, each now holds the source's value,
   * every other key is untouched, and afterwards every key of the batch is
   * on the destination.
   */
  lemma BackfillStepAligned(b: Behaviour, src: Store, keys: seq<Key>, store: Store)
    requires Accepted(b, src)
    requires AllInSource(src, keys) && Distinct(keys)
    ensures var step := BackfillStep(b, src, keys, store);
            && step.raised == None
            && step.yielded == Keep(AbsentFrom(store), keys)
            && Mirrors(src, store, step.store, step.yielded)
            && Covers(step.store, keys)
  {
    ExistsPipeline(b, store, keys);
    var missing := Keep(AbsentFrom(store), keys);
    if missing != [] {
      KeepDistinct(AbsentFrom(store), keys);
      ReadSnapshotsNoneVanished(src, missing);
      var snaps := ReadSnapshots(src, missing);
      assert SnapshotKeys(snaps) == missing;
      RestorePipelineEffect(b, src, store, snaps);
      var e2 := ExecutePipeline(b, store, RestoreCommands(snaps));
      ClassifyNoErrors(missing, e2.replies);
      assert missing[..|e2.replies|] == missing;
    }
  }

  /** Every batch has distinct keys, none of which vanished from the source. */
  ghost predicate Settled(src: Store, batches: seq<seq<Key>>)
  {
    forall j :: 0 <= j < |batches| ==> AllInSource(src, batches[j]) && Distinct(batches[j])
  }

  /**
   * A run over settled batches with accepted payloads raises nothing; each
   * yielded key holds the source's value, every key not yielded is left as
   * it was, and afterwards the destination holds every key of every batch.
   */
  lemma BackfillRoundTrip(b: Behaviour, src: Store, batches: seq<seq<Key>>, store: Store)
    requires Accepted(b, src) && Settled(src, batches)
    ensures var p := BackfillBatches(b, src, batches, store);
            && p.raised == None
            && Mirrors(src, store, p.store, p.yielded)
            && forall j :: 0 <= j < |batches| ==> Covers(p.store, batches[j])
  {
    forall j, s | 0 <= j < |batches|
      ensures var step := Backfilling(b, src)(batches[j], s);
              && step.raised == None
              && Mirrors(src, s, step.store, step.yielded)
              && Covers(step.store, batches[j])
    {
      BackfillStepAligned(b, src, batches[j], s);
    }
    DriveMirrors(src, Backfilling(b, src), batches, store);
  }

  /**
   * Running backfill a second time over the same batches, with the source
   * unchanged, yields nothing and changes nothing: every key is already
   * there, so only the EXISTS pipelines are sent.
   */
  lemma BackfillIdempotent(b: Behaviour, src: Store, batches: seq<seq<Key>>, store: Store)
    requires Accepted(b, src) && Settled(src, batches)
    ensures var p := BackfillBatches(b, src, batches, store);
            BackfillBatches(b, src, batches, p.store) == Pass([], None, p.store, Each(ExistsSent, batches))
  {
    BackfillRoundTrip(b, src, batches, store);
    var p := BackfillBatches(b, src, batches, store);
    BackfillAllPresent(b, src, batches, p.store);
  }

  /**
   * The misalignment: a batch `[gone, kept]` whose keys the destination both
   * lacks, where `gone` vanished from the source between the scan and the
   * read. backfill_copy yields `gone`, which was not copied, and does not
   * yield `kept`, which was; the intended pairing yields `kept` alone.
   */
  lemma BackfillMisaligned(b: Behaviour, src: Store, gone: Key, kept: Key, store: Store)
    requires gone != kept && gone !in src && gone !in store && kept !in store
    requires kept in src && |src[kept].payload| >= 1 && Accepted(b, src)
    ensures var step := BackfillStep(b, src, [gone, kept], store);
            && step.raised == None
            && step.yielded == [gone]
            && gone !in step.store
            && kept in step.store && step.store[kept] == Copied(src[kept])
    ensures BackfillStepIntended(b, src, [gone, kept], store).yielded == [kept]
  {
    var keys := [gone, kept];
    ExistsPipeline(b, store, keys);
    assert keys[1..] == [kept] && keys[1..][1..] == [];
    assert Keep(AbsentFrom(store), keys) == keys;
    var snaps := [SnapshotOf(src, kept)];
    ReadVanishedThenKept(src, gone, kept);
    RestorePipelineEffect(b, src, store, snaps);
    var e := ExecutePipeline(b, store, RestoreCommands(snaps));
    ClassifyNoErrors(keys, e.replies);
    ClassifyNoErrors(SnapshotKeys(snaps), e.replies);
    assert keys[..1] == [gone];
  }

  /**
   * The two pairings differ only in what they yield: the error raised, the
   * destination afterwards and the pipelines sent are the same, and when no
   * key of the batch vanished from the source they yield the same keys too.
   */
  lemma StepMatchesIntended(b: Behaviour, src: Store, keys: seq<Key>, store: Store)
    ensures var w := BackfillStep(b, src, keys, store);
            var c := BackfillStepIntended(b, src, keys, store);
            && w.raised == c.raised && w.store == c.store && w.pipelines == c.pipelines
            && (AllInSource(src, keys) ==> w == c)
  {
    var e := ExecutePipeline(b, store, ExistsCommands(keys));
    if FirstError(e.replies).None? {
      ExistsPipeline(b, store, keys);
      var missing := Keep(AbsentFrom(store), keys);
      if missing != [] {
        var snaps := ReadSnapshots(src, missing);
        var e2 := ExecutePipeline(b, store, RestoreCommands(snaps));
        ClassifyStopsAtFirstFatal(missing, e2.replies);
        ClassifyStopsAtFirstFatal(SnapshotKeys(snaps), e2.replies);
        if AllInSource(src, keys) {
          ReadSnapshotsNoneVanished(src, missing);
          assert SnapshotKeys(snaps) == missing;
        }
      }
    }
  }

  /** Reading `[gone, kept]` when only `kept` is in the source gives `kept`'s snapshot alone. */
  lemma ReadVanishedThenKept(src: Store, gone: Key, kept: Key)
    requires gone !in src && kept in src && |src[kept].payload| >= 1
    ensures ReadSnapshots(src, [gone, kept]) == [SnapshotOf(src, kept)]
  {
    var keys := [gone, kept];
    assert keys[1..] == [kept];
    assert ExpectedReplies(src, keys) == ExpectedReplies(src, [gone]) + ExpectedReplies(src, [kept]);
    ValidSnapshotsAppend([gone], ExpectedReplies(src, [gone]), [kept], ExpectedReplies(src, [kept]));
    ValidSnapshotsOne(gone, [], -2);
    ValidSnapshotsOne(kept, src[kept].payload, PttlOf(src, kept));
  }

  /** The text of the error RESTORE answers for an existing key, before Redis 3.0 and since. */
  const BusyKeyBefore3: string := "ERR Target key name is busy."
  const BusyKeySince3: string := "BUSYKEY Target key name already exists."

  /** A text without the letter `b` does not contain `is busy`. */
  lemma NotBusyWithoutB(message: string)
    requires 'b' !in message
    ensures !Busy(message)
  {
    assert 'b' in "is busy";
    if Busy(message) {
      ContainsChars(message, "is busy");
    }
  }

  /** The busy-key check matches the text of servers before 3.0 only. */
  lemma BusyMatchesOldServersOnly()
    ensures Busy(BusyKeyBefore3)
    ensures !Busy(BusyKeySince3)
  {
    ContainsAt(BusyKeyBefore3, "is busy", 20);
    assert 'b' !in BusyKeySince3;
    NotBusyWithoutB(BusyKeySince3);
  }

  /**
   * The restores of a key read twice: the first RESTORE writes the key, and
   * the second meets it and answers the busy-key error.
   */
  lemma DuplicateRestoreReplies(b: Behaviour, src: Store, k: Key, store: Store)
    requires k in src && |src[k].payload| >= 1 && src[k].payload !in b.rejected && k !in store
    ensures var e := ExecutePipeline(b, store, RestoreCommands(ReadSnapshots(src, [k, k])));
            && e.replies == [Okay, Error(b.busyMessage)]
            && e.store == store[k := Copied(src[k])]
  {
    var keys := [k, k];
    ReadSnapshotsNoneVanished(src, keys);
    var snaps := ReadSnapshots(src, keys);
    var s := SnapshotOf(src, k);
    assert snaps == [s, s];
    var cmds := RestoreCommands(snaps);
    assert cmds == [Restore(k, s.pttl, s.data, false), Restore(k, s.pttl, s.data, false)];
    SnapshotRestoresCopy(src, k);
    var first := Apply(b, store, cmds[0]);
    assert first == Step(store[k := Copied(src[k])], Okay);
    assert Apply(b, first.store, cmds[1]) == Step(first.store, Error(b.busyMessage));
    assert cmds[1..][1..] == [];
    assert ExecutePipeline(b, first.store, cmds[1..]) == Execution(first.store, [Error(b.busyMessage)]);
  }

  /**
   * A key the scan returned twice in one batch and the destination lacks:
   * both copies are missing and restored, and the second RESTORE meets the
   * key the first one wrote. The batch copies the key, yields it once, and
   * raises the busy-key error exactly when its text lacks `is busy`.
   */
  lemma BackfillDuplicateKey(b: Behaviour, src: Store, k: Key, store: Store)
    requires k in src && |src[k].payload| >= 1 && src[k].payload !in b.rejected && k !in store
    ensures var step := BackfillStep(b, src, [k, k], store);
            && step.yielded == [k]
            && step.raised == (if Busy(b.busyMessage) then None else Some(b.busyMessage))
            && k in step.store && step.store[k] == Copied(src[k])
  {
    var keys := [k, k];
    ExistsPipeline(b, store, keys);
    assert keys[1..] == [k] && keys[1..][1..] == [];
    assert Keep(AbsentFrom(store), keys) == keys;
    DuplicateRestoreReplies(b, src, k, store);
    var r := [Okay, Error(b.busyMessage)];
    assert r[1..][1..] == [];
    assert Classify(keys, r) == Outcome([k], if Busy(b.busyMessage) then None else Some(b.busyMessage));
  }

  /**
   * Backfill on a Redis 3.0 or later destination: a key scanned twice in
   * one batch aborts the run after the batch, with the busy-key error.
   */
  lemma BackfillDuplicateAborts(rejected: set<Bytes>, src: Store, k: Key, store: Store)
    requires k in src && |src[k].payload| >= 1 && src[k].payload !in rejected && k !in store
    ensures BackfillStep(Behaviour(rejected, BusyKeySince3), src, [k, k], store).raised == Some(BusyKeySince3)
  {
    BackfillDuplicateKey(Behaviour(rejected, BusyKeySince3), src, k, store);
    BusyMatchesOldServersOnly();
  }

  /** The evident intent of the busy-key check: the error of a RESTORE onto an existing key, on any server. */
  predicate BusyKeyError(message: string)
  {
    Busy(message) || "BUSYKEY" <= message
  }

  /** The corrected check matches the busy-key text of every server generation. */
  lemma BusyKeyErrorOnBothServers()
    ensures BusyKeyError(BusyKeyBefore3) && BusyKeyError(BusyKeySince3)
  {
    BusyMatchesOldServersOnly();
    assert "BUSYKEY" <= BusyKeySince3;
  }

  /** The result loop with the busy-key check as a parameter. */
  function ClassifyBy(busy: string -> bool, keys: seq<Key>, results: seq<Reply>): (o: Outcome)
    requires |results| <= |keys|
    ensures |o.yielded| <= |results|
    ensures o.raised.None? <==> forall i :: 0 <= i < |results| && results[i].Error? ==> busy(results[i].message)
    ensures o.raised.Some? ==> Error(o.raised.value) in results && !busy(o.raised.value)
  {
    if results == [] then Outcome([], None)
    else
      var rest := ClassifyBy(busy, keys[1..], results[1..]);
      assert forall i :: 1 <= i < |results| ==> results[1..][i - 1] == results[i];
      match results[0]
      case Error(m) => if busy(m) then rest else Outcome([], Some(m))
      case _ => Outcome([keys[0]] + rest.yielded, rest.raised)
  }

  /** With the check as written, the parametric loop is the result loop of backfill_copy. */
  lemma {:induction false} ClassifyByBusy(keys: seq<Key>, results: seq<Reply>)
    requires |results| <= |keys|
    ensures ClassifyBy(Busy, keys, results) == Classify(keys, results)
  {
    if results != [] {
      ClassifyByBusy(keys[1..], results[1..]);
    }
  }

  /**
   * The corrected check: on servers before 3.0 and since, the duplicate key's
   * replies yield the key once and raise nothing.
   */
  lemma DuplicateKeySkipped(b: Behaviour, src: Store, k: Key, store: Store)
    requires b.busyMessage == BusyKeyBefore3 || b.busyMessage == BusyKeySince3
    requires k in src && |src[k].payload| >= 1 && src[k].payload !in b.rejected && k !in store
    ensures var e := ExecutePipeline(b, store, RestoreCommands(ReadSnapshots(src, [k, k])));
            ClassifyBy(BusyKeyError, [k, k], e.replies) == Outcome([k], None)
  {
    DuplicateRestoreReplies(b, src, k, store);
    BusyKeyErrorOnBothServers();
    var r := [Okay, Error(b.busyMessage)];
    assert r[1..][1..] == [];
  }

  /**
   * A plain restore that succeeded keeps its value to the end of the
   * pipeline: every later command is a plain restore, which never replaces
   * an existing key.
   */
  lemma {:induction false} RestoreSuccessPersists(b: Behaviour, store: Store, snaps: seq<Snapshot>, i: nat)
    requires i < |snaps|
    requires !ExecutePipeline(b, store, RestoreCommands(snaps)).replies[i].Error?
    ensures var e := ExecutePipeline(b, store, RestoreCommands(snaps));
            && snaps[i].pttl >= 0
            && snaps[i].key in e.store
            && e.store[snaps[i].key] == Entry(snaps[i].data, ExpiryFor(snaps[i].pttl))
    decreases |snaps|
  {
    var cmds := RestoreCommands(snaps);
    assert cmds[0] == Restore(snaps[0].key, snaps[0].pttl, snaps[0].data, false);
    assert cmds[1..] == RestoreCommands(snaps[1..]);
    var first := Apply(b, store, cmds[0]);
    if i == 0 {
      assert first.reply.Okay?;
      NonDestructivePipeline(b, first.store, cmds[1..]);
    } else {
      assert snaps[1..][i - 1] == snaps[i];
      RestoreSuccessPersists(b, first.store, snaps[1..], i - 1);
    }
  }

  /**
   * The intended meaning of a yielded key, which the intended pairing keeps
   * for every input: every key a batch yields is one of the batch, was
   * absent from the destination, and now holds the source's value.
   */
  lemma BackfillStepYieldsWritten(b: Behaviour, src: Store, keys: seq<Key>, store: Store)
    ensures var step := BackfillStepIntended(b, src, keys, store);
            forall k :: k in step.yielded ==>
              k in keys && k !in store && k in src && k in step.store && step.store[k] == Copied(src[k])
  {
    ExistsPipeline(b, store, keys);
    var missing := Keep(AbsentFrom(store), keys);
    if missing != [] {
      var snaps := ReadSnapshots(src, missing);
      var e2 := ExecutePipeline(b, store, RestoreCommands(snaps));
      var ks := SnapshotKeys(snaps);
      ReadSnapshotsFaithful(src, missing);
      ClassifyYieldsSuccesses(ks, e2.replies);
      forall k | k in Classify(ks, e2.replies).yielded
        ensures k in missing && k in src && k in e2.store && e2.store[k] == Copied(src[k])
      {
        var i :| 0 <= i < |e2.replies| && ks[i] == k && !e2.replies[i].Error?;
        assert snaps[i] in snaps;
        RestoreSuccessPersists(b, store, snaps, i);
        SnapshotRestoresCopy(src, k);
      }
    }
  }

  /**
   * Over a whole run of backfill_copy in which no scanned key vanished from
   * the source, every yielded key was absent from the destination when the
   * run started and ends up holding the source's value.
   */
  lemma {:induction false} BackfillYieldsCopied(b: Behaviour, src: Store, batches: seq<seq<Key>>, store: Store)
    requires forall j :: 0 <= j < |batches| ==> AllInSource(src, batches[j])
    ensures var p := BackfillBatches(b, src, batches, store);
            forall k :: k in p.yielded ==> k !in store && k in src && k in p.store && p.store[k] == Copied(src[k])
    decreases |batches|
  {
    if batches != [] {
      var step := Backfilling(b, src)(batches[0], store);
      StepMatchesIntended(b, src, batches[0], store);
      BackfillStepYieldsWritten(b, src, batches[0], store);
      if step.raised.None? {
        BackfillStepKeeps(b, src, batches[0], store);
        assert forall j :: 0 <= j < |batches| - 1 ==> batches[1..][j] == batches[j + 1];
        BackfillYieldsCopied(b, src, batches[1..], step.store);
        BackfillKeepsExisting(b, src, batches[1..], step.store);
      }
    }
  }

  lemma {:induction false} MissingAppend(k1: seq<Key>, r1: seq<Reply>, k2: seq<Key>, r2: seq<Reply>)
    requires |r1| == |k1| && |r2| == |k2|
    ensures Missing(k1 + k2, r1 + r2) == Missing(k1, r1) + Missing(k2, r2)
  {
    if k1 == [] {
      assert k1 + k2 == k2 && r1 + r2 == r2;
    } else {
      assert (k1 + k2)[1..] == k1[1..] + k2 && (r1 + r2)[1..] == r1[1..] + r2;
      MissingAppend(k1[1..], r1[1..], k2, r2);
    }
  }

  /** The result loop of backfill_copy, over the keys the results stand for. */
  method ClassifyResults(keys: seq<Key>, results: seq<Reply>) returns (yielded: seq<Key>, raised: Option<string>)
    requires |results| <= |keys|
    ensures Outcome(yielded, raised) == Classify(keys, results)
  {
    yielded := [];
    for i := 0 to |results|
      invariant var o := Classify(keys[i..], results[i..]);
                Classify(keys, results) == Outcome(yielded + o.yielded, o.raised)
    {
      assert keys[i..][1..] == keys[i + 1..] && results[i..][1..] == results[i + 1..];
      if !results[i].Error? {
        assert Classify(keys[i..], results[i..]).yielded == [keys[i]] + Classify(keys[i + 1..], results[i + 1..]).yielded;
        yielded := yielded + [keys[i]];
        continue;
      }
      if Busy(results[i].message) {
        continue;
      }
      assert yielded + [] == yielded;
      return yielded, Some(results[i].message);
    }
    assert yielded + [] == yielded;
    raised := None;
  }

  /** The loop queueing one EXISTS per key of the batch. */
  method QueueExists(keys: seq<Key>) returns (cmds: seq<Command>)
    ensures cmds == ExistsCommands(keys)
  {
    cmds := [];
    for i := 0 to |keys|
      invariant |cmds| == i && forall j :: 0 <= j < i ==> cmds[j] == Exists(keys[j])
    {
      cmds := cmds + [Exists(keys[i])];
    }
  }

  /** The comprehension keeping the keys whose EXISTS reply is falsy. */
  method CollectMissing(keys: seq<Key>, replies: seq<Reply>) returns (missing: seq<Key>)
    requires |replies| == |keys|
    ensures missing == Missing(keys, replies)
  {
    missing := [];
    for i := 0 to |keys|
      invariant missing == Missing(keys[..i], replies[..i])
    {
      MissingAppend(keys[..i], replies[..i], [keys[i]], [replies[i]]);
      assert keys[..i + 1] == keys[..i] + [keys[i]] && replies[..i + 1] == replies[..i] + [replies[i]];
      if !Truthy(replies[i]) {
        missing := missing + [keys[i]];
      }
    }
    assert keys[..|keys|] == keys && replies[..|keys|] == replies;
  }

  /** The loop queueing one plain RESTORE per snapshot. */
  method QueueRestores(snaps: seq<Snapshot>) returns (cmds: seq<Command>)
    ensures cmds == RestoreCommands(snaps)
  {
    cmds := [];
    for j := 0 to |snaps|
      invariant |cmds| == j && forall l :: 0 <= l < j ==> cmds[l] == Restore(snaps[l].key, snaps[l].pttl, snaps[l].data, false)
    {
      cmds := cmds + [Restore(snaps[j].key, snaps[j].pttl, snaps[j].data, false)];
    }
  }

  /**
   * The second half of a batch of backfill_copy: reads the missing keys,
   * executes their RESTORE pipeline without raising and classifies result
   * `i` against the `i`-th missing key.
   */
  method RestoreMissing(src: Store, missing: seq<Key>, dst: Destination)
    returns (ys: seq<Key>, raised: Option<string>, rcmds: seq<Command>)
    modifies dst
    ensures Pass(ys, raised, dst.store, Sent(rcmds)) == MissingRestored(dst.behaviour, src, missing, old(dst.store))
    ensures dst.log == old(dst.log) + Sent(rcmds)
  {
    if missing == [] {
      return [], None, [];
    }
    var snaps := ReadDataAndPttl(src, missing);
    rcmds := QueueRestores(snaps);
    var results := dst.Execute(rcmds);
    ys, raised := ClassifyResults(missing, results);
  }

  /**
   * One batch of backfill_copy against the destination: the EXISTS
   * pipeline, which raises on an error reply, the list of keys it found
   * missing, then `RestoreMissing`. Proved against any `step` that agrees
   * with `BackfillStep`.
   */
  method BackfillBatch(src: Store, keys: seq<Key>, dst: Destination, ghost step: (seq<Key>, Store) -> Pass)
    returns (ys: seq<Key>, raised: Option<string>, cmds: seq<seq<Command>>)
    requires forall keys, store {:trigger BackfillStep(dst.behaviour, src, keys, store)} ::
               step(keys, store) == BackfillStep(dst.behaviour, src, keys, store)
    modifies dst
    ensures Pass(ys, raised, dst.store, cmds) == step(keys, old(dst.store))
    ensures dst.log == old(dst.log) + cmds
  {
    ghost var p := BackfillStep(dst.behaviour, src, keys, dst.store);
    var ecmds := QueueExists(keys);
    var replies := dst.Execute(ecmds);
    raised := FirstError(replies);
    if raised.Some? {
      return [], raised, Sent(ecmds);
    }
    var missing := CollectMissing(keys, replies);
    var rcmds;
    ys, raised, rcmds := RestoreMissing(src, missing, dst);
    cmds := Sent(ecmds) + Sent(rcmds);
  }

  /**
   * The batch loop of backfill_copy, stopping at the first batch that
   * raises. The loop is proved against `Drive` for any `step` that agrees
   * with `BackfillStep`.
   */
  method BackfillAll(src: Store, batches: seq<seq<Key>>, dst: Destination, ghost step: (seq<Key>, Store) -> Pass)
    returns (yielded: seq<Key>, raised: Option<string>)
    requires forall keys, store {:trigger BackfillStep(dst.behaviour, src, keys, store)} ::
               step(keys, store) == BackfillStep(dst.behaviour, src, keys, store)
    modifies dst
    ensures var p := Drive(step, batches, old(dst.store));
            && yielded == p.yielded && raised == p.raised
            && dst.store == p.store && dst.log == old(dst.log) + p.pipelines
  {
    ghost var whole := Drive(step, batches, dst.store);
    ghost var pipes: seq<seq<Command>> := [];
    yielded, raised := [], None;
    var i := 0;
    assert batches[0..] == batches;
    while i < |batches|
      invariant 0 <= i <= |batches|
      invariant raised == None
      invariant dst.log == old(dst.log) + pipes
      invariant Prepend(yielded, pipes, Drive(step, batches[i..], dst.store)) == whole
    {
      ghost var before := dst.store;
      var ys, err, cmds := BackfillBatch(src, batches[i], dst, step);
      DriveStep(step, batches, i, before, yielded, pipes, whole, Pass(ys, err, dst.store, cmds));
      yielded := yielded + ys;
      pipes := pipes + cmds;
      if err.Some? {
        raised := err;
        return;
      }
      i := i + 1;
    }
    assert batches[i..] == [];
  }

  /** backfill_copy: for every scanned batch, copies the keys the destination lacks. */
  method BackfillCopy(src: Store, scan: seq<ScanReply>, pattern: Option<string>,
                      matcher: (string, Key) -> bool, dst: Destination)
    returns (yielded: seq<Key>, raised: Option<string>)
    requires ScanEnds(scan)
    modifies dst
    ensures var p := BackfillBatches(dst.behaviour, src, Batches(ParseFilter(pattern), matcher, scan), old(dst.store));
            && yielded == p.yielded && raised == p.raised
            && dst.store == p.store && dst.log == old(dst.log) + p.pipelines
  {
    var batches, calls := ReadKeys(scan, DefaultBatchSize, pattern, matcher);
    yielded, raised := BackfillAll(src, batches, dst, Backfilling(dst.behaviour, src));
  }
}
