/**
 * What a copy generator's whole run amounts to: the keys it yielded, the
 * error it raised if it ended that way, the destination afterwards and the
 * pipelines it executed there.
 */
module Passes {
  import opened Types
  import opened Server
  import opened SnapshotReader

  datatype Pass = Pass(yielded: seq<Key>, raised: Option<string>, store: Store, pipelines: seq<seq<Command>>)

  /** One batch's work followed by the rest of the run. */
  function Prepend(keys: seq<Key>, pipes: seq<seq<Command>>, p: Pass): Pass
  {
    Pass(keys + p.yielded, p.raised, p.store, pipes + p.pipelines)
  }

  lemma PrependPrepend(a: seq<Key>, pa: seq<seq<Command>>, b: seq<Key>, pb: seq<seq<Command>>, p: Pass)
    ensures Prepend(a, pa, Prepend(b, pb, p)) == Prepend(a + b, pa + pb, p)
  {
    assert a + (b + p.yielded) == (a + b) + p.yielded;
    assert pa + (pb + p.pipelines) == (pa + pb) + p.pipelines;
  }

  /**
   * A copy generator's batch loop: `step` handles one batch against the
   * destination as it stands, and the run stops after the first batch that
   * raises.
   */
  function Drive(step: (seq<Key>, Store) -> Pass, batches: seq<seq<Key>>, store: Store): Pass
    decreases |batches|
  {
    if batches == [] then Pass([], None, store, [])
    else
      var p := step(batches[0], store);
      if p.raised.Some? then p
      else Prepend(p.yielded, p.pipelines, Drive(step, batches[1..], p.store))
  }

  /** What handling `batches[i]` adds to a run that has handled `batches[..i]`. */
  lemma DriveStep(step: (seq<Key>, Store) -> Pass, batches: seq<seq<Key>>, i: nat, store: Store,
                  yielded: seq<Key>, pipes: seq<seq<Command>>, whole: Pass, p: Pass)
    requires i < |batches|
    requires Prepend(yielded, pipes, Drive(step, batches[i..], store)) == whole
    requires p == step(batches[i], store)
    ensures if p.raised.Some?
            then whole == Pass(yielded + p.yielded, p.raised, p.store, pipes + p.pipelines)
            else Prepend(yielded + p.yielded, pipes + p.pipelines, Drive(step, batches[i + 1..], p.store)) == whole
  {
    assert batches[i..][0] == batches[i];
    assert batches[i..][1..] == batches[i + 1..];
    PrependPrepend(yielded, pipes, p.yielded, p.pipelines, Drive(step, batches[i + 1..], p.store));
  }

  /**
   * The destination entry a copied key ends up with: the source's value, and
   * its expiry unless the key had 0 ms left (RESTORE with ttl 0 means none).
   */
  function Copied(e: Entry): Entry
  {
    Entry(e.payload, if e.ttl == Some(0) then None else e.ttl)
  }

  /** Restoring a snapshot read from `src` writes exactly `Copied` of the source entry. */
  lemma SnapshotRestoresCopy(src: Store, k: Key)
    requires k in src
    ensures var s := SnapshotOf(src, k);
            s.pttl >= 0 && Entry(s.data, ExpiryFor(s.pttl)) == Copied(src[k])
  {
  }

  /** No payload of the source is one the destination rejects. */
  ghost predicate Accepted(b: Behaviour, src: Store)
  {
    forall k :: k in src ==> src[k].payload !in b.rejected
  }

  /**
   * `after` holds `Copied` of the source entry for every key of `ks` and
   * agrees with `before` on every other key.
   */
  ghost predicate Mirrors(src: Store, before: Store, after: Store, ks: seq<Key>)
  {
    && (forall k :: k in ks ==> k in src && k in after && after[k] == Copied(src[k]))
    && (forall k :: k !in ks ==> (k in after <==> k in before))
    && (forall k :: k !in ks && k in before ==> after[k] == before[k])
  }

  lemma MirrorsCompose(src: Store, s0: Store, s1: Store, s2: Store, ks1: seq<Key>, ks2: seq<Key>)
    requires Mirrors(src, s0, s1, ks1) && Mirrors(src, s1, s2, ks2)
    ensures Mirrors(src, s0, s2, ks1 + ks2)
  {
  }

  /** Every key of `keys` is in `store`. */
  ghost predicate Covers(store: Store, keys: seq<Key>)
  {
    forall k :: k in keys ==> k in store
  }

  /**
   * A run whose every batch raises nothing, mirrors the source on the keys
   * it yields and leaves the destination holding the batch's keys, does all
   * of that as a whole.
   */
  lemma {:induction false} DriveMirrors(src: Store, step: (seq<Key>, Store) -> Pass, batches: seq<seq<Key>>, store: Store)
    requires forall j, s :: 0 <= j < |batches| ==>
               && step(batches[j], s).raised == None
               && Mirrors(src, s, step(batches[j], s).store, step(batches[j], s).yielded)
               && Covers(step(batches[j], s).store, batches[j])
    ensures var p := Drive(step, batches, store);
            && p.raised == None
            && Mirrors(src, store, p.store, p.yielded)
            && forall j :: 0 <= j < |batches| ==> Covers(p.store, batches[j])
    decreases |batches|
  {
    if batches == [] {
      assert Mirrors(src, store, store, []);
    } else {
      var first := step(batches[0], store);
      assert forall j :: 0 <= j < |batches| - 1 ==> batches[1..][j] == batches[j + 1];
      DriveMirrors(src, step, batches[1..], first.store);
      var rest := Drive(step, batches[1..], first.store);
      MirrorsCompose(src, store, first.store, rest.store, first.yielded, rest.yielded);
    }
  }

  /** The pipelines `sent` gives for each batch, in batch order. */
  function Each(sent: seq<Key> -> seq<seq<Command>>, batches: seq<seq<Key>>): seq<seq<Command>>
  {
    if batches == [] then [] else sent(batches[0]) + Each(sent, batches[1..])
  }

  /**
   * A run whose every batch yields nothing, raises nothing and leaves the
   * destination as it was, sending `sent` of the batch, does the same as a
   * whole.
   */
  lemma {:induction false} DriveQuiet(step: (seq<Key>, Store) -> Pass, sent: seq<Key> -> seq<seq<Command>>,
                                      batches: seq<seq<Key>>, store: Store)
    requires forall j :: 0 <= j < |batches| ==> step(batches[j], store) == Pass([], None, store, sent(batches[j]))
    ensures Drive(step, batches, store) == Pass([], None, store, Each(sent, batches))
    decreases |batches|
  {
    if batches != [] {
      assert forall j :: 0 <= j < |batches| - 1 ==> batches[1..][j] == batches[j + 1];
      DriveQuiet(step, sent, batches[1..], store);
    }
  }
}
