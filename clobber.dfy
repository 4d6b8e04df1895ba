/**
 * Clobber copy: for every batch, one destination pipeline holding one
 * restore-handler application per valid snapshot, executed fail-fast.
 * Every key is yielded as its commands are queued, before the batch's
 * pipeline runs.
 */
module Clobber {
  import opened Types
  import opened Server
  import opened Scanner
  import opened SnapshotReader
  import opened Restore
  import opened Passes

  /** The batch's pipeline: the handler's commands for each snapshot, in order. */
  function ClobberCommands(st: Strategy, snaps: seq<Snapshot>): seq<Command>
  {
    if snaps == [] then []
    else ClobberCommands(st, snaps[..|snaps| - 1]) + HandlerCommands(st, snaps[|snaps| - 1])
  }

  /** With REPLACE, command `i` restores snapshot `i` over whatever is there. */
  lemma {:induction false} ReplaceLayout(snaps: seq<Snapshot>)
    ensures var cmds := ClobberCommands(ReplaceRestore, snaps);
            && |cmds| == |snaps|
            && forall i :: 0 <= i < |snaps| ==>
                 cmds[i] == Restore(snaps[i].key, snaps[i].pttl, snaps[i].data, true)
  {
    if snaps != [] {
      var init := snaps[..|snaps| - 1];
      ReplaceLayout(init);
      var head := ClobberCommands(ReplaceRestore, init);
      var cmds := ClobberCommands(ReplaceRestore, snaps);
      assert cmds == head + HandlerCommands(ReplaceRestore, snaps[|snaps| - 1]);
      forall i | 0 <= i < |init|
        ensures cmds[i] == Restore(snaps[i].key, snaps[i].pttl, snaps[i].data, true)
      {
        assert cmds[i] == head[i];
      }
    }
  }

  /** Without REPLACE, commands `2i` and `2i + 1` delete and then restore snapshot `i`. */
  lemma {:induction false} DeleteLayout(snaps: seq<Snapshot>)
    ensures var cmds := ClobberCommands(DeleteRestore, snaps);
            && |cmds| == 2 * |snaps|
            && forall i :: 0 <= i < |snaps| ==>
                 && cmds[2 * i] == Del(snaps[i].key)
                 && cmds[2 * i + 1] == Restore(snaps[i].key, snaps[i].pttl, snaps[i].data, false)
  {
    if snaps != [] {
      var init := snaps[..|snaps| - 1];
      DeleteLayout(init);
      var head := ClobberCommands(DeleteRestore, init);
      var cmds := ClobberCommands(DeleteRestore, snaps);
      assert cmds == head + HandlerCommands(DeleteRestore, snaps[|snaps| - 1]);
      forall i | 0 <= i < |init|
        ensures cmds[2 * i] == Del(snaps[i].key)
        ensures cmds[2 * i + 1] == Restore(snaps[i].key, snaps[i].pttl, snaps[i].data, false)
      {
        assert cmds[2 * i] == head[2 * i];
        assert cmds[2 * i + 1] == head[2 * i + 1];
      }
    }
  }

  /** One batch: read its snapshots, queue their commands, execute once. */
  function ClobberStep(b: Behaviour, src: Store, st: Strategy, keys: seq<Key>, store: Store): Pass
  {
    var snaps := ReadSnapshots(src, keys);
    var cmds := ClobberCommands(st, snaps);
    var e := ExecutePipeline(b, store, cmds);
    Pass(SnapshotKeys(snaps), FirstError(e.replies), e.store, Sent(cmds))
  }

  /** The step of one batch, as a function the batch loop applies. */
  function Clobbering(b: Behaviour, src: Store, st: Strategy): (seq<Key>, Store) -> Pass
  {
    (keys, store) => ClobberStep(b, src, st, keys, store)
  }

  /** The batches in order, ending at the first pipeline that raises. */
  function ClobberBatches(b: Behaviour, src: Store, st: Strategy, batches: seq<seq<Key>>, store: Store): Pass
  {
    Drive(Clobbering(b, src, st), batches, store)
  }

  /** clobber_copy: the handler is chosen once, before the first batch. */
  function ClobberRun(b: Behaviour, version: Option<string>, src: Store, batches: seq<seq<Key>>,
                      store: Store): Pass
  {
    match GetRestoreHandler(version)
    case Err(e) => Pass([], Some(e), store, [])
    case Ok(st) => ClobberBatches(b, src, st, batches, store)
  }

  /** The keys of all valid snapshots, batch after batch. */
  function ValidKeys(src: Store, batches: seq<seq<Key>>): seq<Key>
  {
    if batches == [] then []
    else SnapshotKeys(ReadSnapshots(src, batches[0])) + ValidKeys(src, batches[1..])
  }

  /** One handler application writes its snapshot's key with the source's value. */
  lemma HandlerMirrors(b: Behaviour, src: Store, st: Strategy, store: Store, s: Snapshot)
    requires Accepted(b, src)
    requires s.key in src && s == SnapshotOf(src, s.key)
    ensures var e := ExecutePipeline(b, store, HandlerCommands(st, s));
            FirstError(e.replies) == None && Mirrors(src, store, e.store, [s.key])
  {
    SnapshotRestoresCopy(src, s.key);
    HandlerOverwrites(b, store, st, s);
  }

  /**
   * Executing a batch's pipeline writes every snapshot's key with the
   * source's value, replacing what was there, and touches nothing else.
   */
  lemma {:induction false} ClobberCommandsEffect(b: Behaviour, src: Store, st: Strategy, store: Store,
                                                 snaps: seq<Snapshot>)
    requires Accepted(b, src)
    requires forall s :: s in snaps ==> s.key in src && s == SnapshotOf(src, s.key)
    ensures var e := ExecutePipeline(b, store, ClobberCommands(st, snaps));
            FirstError(e.replies) == None && Mirrors(src, store, e.store, SnapshotKeys(snaps))
  {
    if snaps == [] {
      assert SnapshotKeys(snaps) == [];
    } else {
      var init, last := snaps[..|snaps| - 1], snaps[|snaps| - 1];
      assert snaps == init + [last];
      ClobberCommandsEffect(b, src, st, store, init);
      var c1, c2 := ClobberCommands(st, init), HandlerCommands(st, last);
      assert ClobberCommands(st, snaps) == c1 + c2;
      ExecuteAppend(b, store, c1, c2);
      var e1 := ExecutePipeline(b, store, c1);
      var e2 := ExecutePipeline(b, e1.store, c2);
      assert ExecutePipeline(b, store, c1 + c2) == Execution(e2.store, e1.replies + e2.replies);
      HandlerMirrors(b, src, st, e1.store, last);
      MirrorsCompose(src, store, e1.store, e2.store, SnapshotKeys(init), [last.key]);
      SnapshotKeysAppend(init, [last]);
      FirstErrorAppend(e1.replies, e2.replies);
    }
  }

  /** One batch whose payloads are all accepted raises nothing and mirrors its valid keys. */
  lemma ClobberStepAccepted(b: Behaviour, src: Store, st: Strategy, keys: seq<Key>, store: Store)
    requires Accepted(b, src)
    ensures var step := ClobberStep(b, src, st, keys, store);
            && step.raised == None
            && step.yielded == SnapshotKeys(ReadSnapshots(src, keys))
            && Mirrors(src, store, step.store, step.yielded)
  {
    ReadSnapshotsFaithful(src, keys);
    ClobberCommandsEffect(b, src, st, store, ReadSnapshots(src, keys));
  }

  /**
   * Round trip, first half: when the destination accepts every payload, the
   * run raises nothing and yields the keys of all valid snapshots in order.
   */
  lemma {:induction false} ClobberYieldsValidKeys(b: Behaviour, src: Store, st: Strategy,
                                                  batches: seq<seq<Key>>, store: Store)
    requires Accepted(b, src)
    ensures var p := ClobberBatches(b, src, st, batches, store);
            p.raised == None && p.yielded == ValidKeys(src, batches)
    decreases |batches|
  {
    if batches != [] {
      var step := Clobbering(b, src, st)(batches[0], store);
      ClobberStepAccepted(b, src, st, batches[0], store);
      ClobberYieldsValidKeys(b, src, st, batches[1..], step.store);
      var rest := ClobberBatches(b, src, st, batches[1..], step.store);
      assert ClobberBatches(b, src, st, batches, store) == Prepend(step.yielded, step.pipelines, rest);
    }
  }

  /**
   * One pipeline per batch: the handler commands of that batch's valid
   * snapshots, sent unless the batch has none.
   */
  function PipelinePerBatch(st: Strategy, src: Store, batches: seq<seq<Key>>): (r: seq<seq<Command>>)
    ensures |r| <= |batches|
  {
    if batches == [] then []
    else Sent(ClobberCommands(st, ReadSnapshots(src, batches[0]))) + PipelinePerBatch(st, src, batches[1..])
  }

  /**
   * ... and executes, batch after batch, exactly the pipeline of each
   * batch's snapshots, whatever the destination holds.
   */
  lemma {:induction false} ClobberOnePipelinePerBatch(b: Behaviour, src: Store, st: Strategy,
                                                      batches: seq<seq<Key>>, store: Store)
    requires Accepted(b, src)
    ensures ClobberBatches(b, src, st, batches, store).pipelines == PipelinePerBatch(st, src, batches)
    decreases |batches|
  {
    if batches != [] {
      var step := Clobbering(b, src, st)(batches[0], store);
      ClobberStepAccepted(b, src, st, batches[0], store);
      ClobberOnePipelinePerBatch(b, src, st, batches[1..], step.store);
      var rest := ClobberBatches(b, src, st, batches[1..], step.store);
      assert ClobberBatches(b, src, st, batches, store) == Prepend(step.yielded, step.pipelines, rest);
    }
  }

  /**
   * Round trip, second half: afterwards each yielded key holds the source's
   * value, whatever the destination held before, and every other key is as
   * it was.
   */
  lemma {:induction false} ClobberRoundTrip(b: Behaviour, src: Store, st: Strategy, batches: seq<seq<Key>>,
                                            store: Store)
    requires Accepted(b, src)
    ensures var p := ClobberBatches(b, src, st, batches, store);
            Mirrors(src, store, p.store, p.yielded)
    decreases |batches|
  {
    if batches != [] {
      var step := Clobbering(b, src, st)(batches[0], store);
      ClobberStepAccepted(b, src, st, batches[0], store);
      ClobberRoundTrip(b, src, st, batches[1..], step.store);
      var rest := ClobberBatches(b, src, st, batches[1..], step.store);
      MirrorsCompose(src, store, step.store, rest.store, step.yielded, rest.yielded);
      assert ClobberBatches(b, src, st, batches, store) == Prepend(step.yielded, step.pipelines, rest);
    }
  }

  /**
   * Keys are yielded before their batch's pipeline executes: a batch whose
   * only key has a payload the destination rejects still yields that key,
   * then raises, and the key is not on the destination.
   */
  lemma ClobberYieldsBeforeWrite(b: Behaviour, src: Store, k: Key, store: Store)
    requires k in src && |src[k].payload| >= 1 && src[k].payload in b.rejected
    requires k !in store
    ensures var p := ClobberBatches(b, src, ReplaceRestore, [[k]], store);
            p.yielded == [k] && p.raised == Some(BadPayloadMessage) && k !in p.store
  {
    ReadSnapshotsNoneVanished(src, [k]);
    var snaps := ReadSnapshots(src, [k]);
    assert snaps == [SnapshotOf(src, k)];
    assert snaps[..0] == [];
    assert ClobberCommands(ReplaceRestore, snaps) == HandlerCommands(ReplaceRestore, snaps[0]);
    HandlerRejected(b, store, ReplaceRestore, snaps[0]);
    assert SnapshotKeys(snaps) == [k];
  }

  lemma ClobberCommandsSnoc(st: Strategy, snaps: seq<Snapshot>, j: nat)
    requires j < |snaps|
    ensures ClobberCommands(st, snaps[..j + 1]) == ClobberCommands(st, snaps[..j]) + HandlerCommands(st, snaps[j])
    ensures SnapshotKeys(snaps[..j + 1]) == SnapshotKeys(snaps[..j]) + [snaps[j].key]
  {
    assert snaps[..j + 1][..j] == snaps[..j];
    assert snaps[..j + 1] == snaps[..j] + [snaps[j]];
    SnapshotKeysAppend(snaps[..j], [snaps[j]]);
  }

  /** The loop body of clobber_copy for one batch. */
  method ClobberBatch(src: Store, st: Strategy, keys: seq<Key>, dst: Destination, ghost step: (seq<Key>, Store) -> Pass)
    returns (ys: seq<Key>, raised: Option<string>, cmds: seq<Command>)
    requires forall keys, store {:trigger ClobberStep(dst.behaviour, src, st, keys, store)} ::
               step(keys, store) == ClobberStep(dst.behaviour, src, st, keys, store)
    modifies dst
    ensures Pass(ys, raised, dst.store, Sent(cmds)) == step(keys, old(dst.store))
    ensures dst.log == old(dst.log) + Sent(cmds)
  {
    var snaps := ReadDataAndPttl(src, keys);
    cmds := [];
    ys := [];
    for j := 0 to |snaps|
      invariant cmds == ClobberCommands(st, snaps[..j])
      invariant ys == SnapshotKeys(snaps[..j])
      invariant unchanged(dst)
    {
      ClobberCommandsSnoc(st, snaps, j);
      cmds := cmds + HandlerCommands(st, snaps[j]);
      ys := ys + [snaps[j].key];
    }
    assert snaps[..|snaps|] == snaps;
    ghost var p := ClobberStep(dst.behaviour, src, st, keys, dst.store);
    assert p.pipelines == Sent(cmds) && p.yielded == ys;
    var replies := dst.Execute(cmds);
    raised := FirstError(replies);
  }

  /**
   * The batch loop of clobber_copy, stopping at the first pipeline that
   * raises. The loop is proved against `Drive` for any `step` that agrees
   * with `ClobberStep`.
   */
  method ClobberAll(src: Store, st: Strategy, batches: seq<seq<Key>>, dst: Destination,
                    ghost step: (seq<Key>, Store) -> Pass)
    returns (yielded: seq<Key>, raised: Option<string>)
    requires forall keys, store {:trigger ClobberStep(dst.behaviour, src, st, keys, store)} ::
               step(keys, store) == ClobberStep(dst.behaviour, src, st, keys, store)
    modifies dst
    ensures var p := Drive(step, batches, old(dst.store));
            && yielded == p.yielded && raised == p.raised
            && dst.store == p.store && dst.log == old(dst.log) + p.pipelines
  {
    ghost var whole := Drive(step, batches, dst.store);
    ghost var pipes: seq<seq<Command>> := [];
    yielded, raised := [], None;
    var i := 0;
    assert batches[0..] == batches;
    while i < |batches|
      invariant 0 <= i <= |batches|
      invariant raised == None
      invariant dst.log == old(dst.log) + pipes
      invariant Prepend(yielded, pipes, Drive(step, batches[i..], dst.store)) == whole
    {
      ghost var before := dst.store;
      var ys, err, cmds := ClobberBatch(src, st, batches[i], dst, step);
      DriveStep(step, batches, i, before, yielded, pipes, whole, Pass(ys, err, dst.store, Sent(cmds)));
      yielded := yielded + ys;
      pipes := pipes + Sent(cmds);
      if err.Some? {
        raised := err;
        return;
      }
      i := i + 1;
    }
    assert batches[i..] == [];
  }

  /**
   * clobber_copy once its handler is chosen: for every scanned batch, queues
   * and executes one pipeline, yielding each valid key.
   */
  method ClobberScanned(src: Store, st: Strategy, scan: seq<ScanReply>, pattern: Option<string>,
                        matcher: (string, Key) -> bool, dst: Destination)
    returns (yielded: seq<Key>, raised: Option<string>)
    requires ScanEnds(scan)
    modifies dst
    ensures var p := ClobberBatches(dst.behaviour, src, st, Batches(ParseFilter(pattern), matcher, scan), old(dst.store));
            && yielded == p.yielded && raised == p.raised
            && dst.store == p.store && dst.log == old(dst.log) + p.pipelines
  {
    var batches, calls := ReadKeys(scan, DefaultBatchSize, pattern, matcher);
    yielded, raised := ClobberAll(src, st, batches, dst, Clobbering(dst.behaviour, src, st));
  }

  /**
   * clobber_copy: picks the restore handler, raising before any batch when
   * it cannot, then copies every scanned batch with it.
   */
  method ClobberCopy(src: Store, scan: seq<ScanReply>, pattern: Option<string>,
                     matcher: (string, Key) -> bool, dst: Destination)
    returns (yielded: seq<Key>, raised: Option<string>)
    requires ScanEnds(scan)
    modifies dst
    ensures var p := ClobberRun(dst.behaviour, dst.version, src,
                                Batches(ParseFilter(pattern), matcher, scan), old(dst.store));
            && yielded == p.yielded && raised == p.raised
            && dst.store == p.store && dst.log == old(dst.log) + p.pipelines
  {
    var handler := GetRestoreHandler(dst.version);
    if handler.Err? {
      return [], Some(handler.error);
    }
    yielded, raised := ClobberScanned(src, handler.value, scan, pattern, matcher, dst);
  }
}
