/**
 * The snapshot reader: one source pipeline of DUMP and PTTL per key, read
 * back by position, dropping keys whose dump is empty and clamping ttls.
 * The source shard is a read-only store value.
 */
module SnapshotReader {
  import opened Types
  import opened Server

  /** The pipeline read_data_and_pttl sends: DUMP k, PTTL k for every key in order. */
  function DumpPttlCommands(keys: seq<Key>): seq<Command>
  {
    if keys == [] then [] else [Dump(keys[0]), Pttl(keys[0])] + DumpPttlCommands(keys[1..])
  }

  /** Pipeline result `2i` answers the DUMP of key `i`, result `2i + 1` its PTTL. */
  lemma {:induction false} DumpPttlPairing(keys: seq<Key>)
    ensures var cmds := DumpPttlCommands(keys);
            && |cmds| == 2 * |keys|
            && forall i :: 0 <= i < |keys| ==> cmds[2 * i] == Dump(keys[i]) && cmds[2 * i + 1] == Pttl(keys[i])
  {
    if keys != [] {
      DumpPttlPairing(keys[1..]);
      var cmds := DumpPttlCommands(keys);
      forall i | 1 <= i < |keys|
        ensures cmds[2 * i] == Dump(keys[i]) && cmds[2 * i + 1] == Pttl(keys[i])
      {
        assert cmds[2 * i] == DumpPttlCommands(keys[1..])[2 * (i - 1)];
        assert cmds[2 * i + 1] == DumpPttlCommands(keys[1..])[2 * (i - 1) + 1];
      }
    }
  }

  lemma {:induction false} DumpPttlCommandsAppend(keys: seq<Key>, k: Key)
    ensures DumpPttlCommands(keys + [k]) == DumpPttlCommands(keys) + [Dump(k), Pttl(k)]
  {
    if keys == [] {
      assert keys + [k] == [k];
    } else {
      assert (keys + [k])[1..] == keys[1..] + [k];
      DumpPttlCommandsAppend(keys[1..], k);
    }
  }

  /** Replies that alternate a bulk reply (a dump) and an integer (a pttl). */
  predicate Paired(res: seq<Reply>)
  {
    if res == [] then true
    else |res| >= 2 && res[0].Bulk? && res[1].Int? && Paired(res[2..])
  }

  /** Every even-length prefix of paired replies is paired, and the next pair is a bulk and an integer. */
  lemma {:induction false} PairedPrefix(res: seq<Reply>, i: nat)
    requires Paired(res) && 2 * i <= |res|
    ensures Paired(res[..2 * i])
    ensures 2 * i < |res| ==> 2 * i + 2 <= |res| && res[2 * i].Bulk? && res[2 * i + 1].Int?
  {
    if i > 0 {
      PairedPrefix(res[2..], i - 1);
      assert res[..2 * i][2..] == res[2..][..2 * (i - 1)];
      if 2 * i < |res| {
        assert res[2 * i] == res[2..][2 * (i - 1)] && res[2 * i + 1] == res[2..][2 * (i - 1) + 1];
      }
    }
  }

  /** One turn of the reply loop: the prefix grows by the snapshot of key `i`, if its dump is non-empty. */
  lemma ReplyStep(keys: seq<Key>, res: seq<Reply>, i: nat)
    requires Paired(res) && |res| == 2 * |keys| && i < |keys|
    ensures res[2 * i].Bulk? && res[2 * i + 1].Int? && Paired(res[..2 * i]) && Paired(res[..2 * (i + 1)])
    ensures ValidSnapshots(keys[..i + 1], res[..2 * (i + 1)]) ==
              ValidSnapshots(keys[..i], res[..2 * i]) +
              if |res[2 * i].bytes| < 1 then []
              else [Snapshot(keys[i], res[2 * i].bytes, ClampTtl(res[2 * i + 1].n))]
  {
    PairedPrefix(res, i);
    PairedPrefix(res, i + 1);
    var data, pttl := res[2 * i].bytes, res[2 * i + 1].n;
    PrefixGrows(keys, res, i);
    ValidSnapshotsAppend(keys[..i], res[..2 * i], [keys[i]], [Bulk(data), Int(pttl)]);
    ValidSnapshotsOne(keys[i], data, pttl);
  }

  /** Prefixes of the keys and of their paired replies grow one key, and one pair, at a time. */
  lemma PrefixGrows(keys: seq<Key>, res: seq<Reply>, i: nat)
    requires |res| == 2 * |keys| && i < |keys| && res[2 * i].Bulk? && res[2 * i + 1].Int?
    ensures keys[..i + 1] == keys[..i] + [keys[i]]
    ensures res[..2 * (i + 1)] == res[..2 * i] + [Bulk(res[2 * i].bytes), Int(res[2 * i + 1].n)]
  {
    assert res[..2 * (i + 1)] == res[..2 * i] + [res[2 * i], res[2 * i + 1]];
  }

  /** A pttl below 1 (no expiry, missing key) is sent to RESTORE as 0. */
  function ClampTtl(pttl: int): (t: nat)
  {
    if pttl < 1 then 0 else pttl
  }

  /** The filter-map over the replies: one snapshot per key whose dump is non-empty. */
  function ValidSnapshots(keys: seq<Key>, res: seq<Reply>): (r: seq<Snapshot>)
    requires Paired(res) && |res| == 2 * |keys|
    ensures |r| <= |keys|
    ensures forall s :: s in r ==> |s.data| >= 1 && s.pttl >= 0 && s.key in keys
  {
    if keys == [] then []
    else
      var rest := ValidSnapshots(keys[1..], res[2..]);
      if |res[0].bytes| < 1 then rest
      else [Snapshot(keys[0], res[0].bytes, ClampTtl(res[1].n))] + rest
  }

  lemma {:induction false} PairedAppend(r1: seq<Reply>, r2: seq<Reply>)
    requires Paired(r1) && Paired(r2)
    ensures Paired(r1 + r2)
  {
    if r1 != [] {
      assert (r1 + r2)[2..] == r1[2..] + r2;
      PairedAppend(r1[2..], r2);
    } else {
      assert r1 + r2 == r2;
    }
  }

  /**
   * Each key is decided by its own pair of replies alone, and the output
   * keeps input order: reading a concatenation reads each part.
   */
  lemma {:induction false} ValidSnapshotsAppend(k1: seq<Key>, r1: seq<Reply>, k2: seq<Key>, r2: seq<Reply>)
    requires Paired(r1) && |r1| == 2 * |k1|
    requires Paired(r2) && |r2| == 2 * |k2|
    ensures Paired(r1 + r2)
    ensures ValidSnapshots(k1 + k2, r1 + r2) == ValidSnapshots(k1, r1) + ValidSnapshots(k2, r2)
  {
    PairedAppend(r1, r2);
    if k1 == [] {
      assert k1 + k2 == k2 && r1 + r2 == r2;
    } else {
      var k, r := k1 + k2, r1 + r2;
      assert k[1..] == k1[1..] + k2;
      assert r[2..] == r1[2..] + r2;
      assert k[0] == k1[0] && r[0] == r1[0] && r[1] == r1[1];
      ValidSnapshotsAppend(k1[1..], r1[2..], k2, r2);
      var head := if |r1[0].bytes| < 1 then [] else [Snapshot(k1[0], r1[0].bytes, ClampTtl(r1[1].n))];
      var rest := ValidSnapshots(k1[1..], r1[2..]);
      assert ValidSnapshots(k, r) == head + ValidSnapshots(k[1..], r[2..]);
      assert ValidSnapshots(k1, r1) == head + rest;
      AppendAssoc(head, rest, ValidSnapshots(k2, r2));
    }
  }

  /** A single key: dropped exactly when its dump is empty, its pttl clamped at 0. */
  lemma ValidSnapshotsOne(k: Key, data: Bytes, pttl: int)
    ensures Paired([Bulk(data), Int(pttl)])
    ensures ValidSnapshots([k], [Bulk(data), Int(pttl)]) ==
              if |data| < 1 then []
              else [Snapshot(k, data, if pttl < 1 then 0 else pttl)]
  {
    assert [Bulk(data), Int(pttl)][2..] == [];
  }

  /** The keys read are the input keys with some left out, in input order. */
  lemma {:induction false} ValidSnapshotsKeepOrder(keys: seq<Key>, res: seq<Reply>)
    requires Paired(res) && |res| == 2 * |keys|
    ensures IsSubsequence(SnapshotKeys(ValidSnapshots(keys, res)), keys)
  {
    if keys != [] {
      ValidSnapshotsKeepOrder(keys[1..], res[2..]);
      var rest := ValidSnapshots(keys[1..], res[2..]);
      if |res[0].bytes| < 1 {
        SubsequenceOfTail(SnapshotKeys(rest), keys);
      } else {
        var r := ValidSnapshots(keys, res);
        assert SnapshotKeys(r)[1..] == SnapshotKeys(rest);
      }
    }
  }

  /** The payload DUMP returns: the stored value, empty for a missing key. */
  function PayloadOf(src: Store, k: Key): Bytes
  {
    if k in src then src[k].payload else []
  }

  /** The replies a source store gives to the DUMP/PTTL pipeline of `keys`. */
  function ExpectedReplies(src: Store, keys: seq<Key>): (res: seq<Reply>)
    ensures Paired(res) && |res| == 2 * |keys|
  {
    if keys == [] then []
    else [Bulk(PayloadOf(src, keys[0])), Int(PttlOf(src, keys[0]))] + ExpectedReplies(src, keys[1..])
  }

  /** The source is only read, so its behaviour on writes is irrelevant here. */
  const SourceBehaviour: Behaviour := Behaviour({}, "")

  lemma {:induction false} SourcePipelineReplies(src: Store, keys: seq<Key>)
    ensures ExecutePipeline(SourceBehaviour, src, DumpPttlCommands(keys)).replies == ExpectedReplies(src, keys)
  {
    if keys != [] {
      var head := [Dump(keys[0]), Pttl(keys[0])];
      ExecuteAppend(SourceBehaviour, src, head, DumpPttlCommands(keys[1..]));
      assert head[1..][1..] == [];
      SourcePipelineReplies(src, keys[1..]);
    }
  }

  /** What reading key `k` from `src` gives when the key is there. */
  function SnapshotOf(src: Store, k: Key): Snapshot
    requires k in src
  {
    Snapshot(k, src[k].payload, ClampTtl(PttlOf(src, k)))
  }

  /** The snapshots of a batch as read from a source store. */
  function ReadSnapshots(src: Store, keys: seq<Key>): seq<Snapshot>
  {
    ValidSnapshots(keys, ExpectedReplies(src, keys))
  }

  /**
   * Every snapshot read is the current value of a key of the batch that
   * exists in the source: a key missing from the source (it vanished after
   * the scan) is never part of the result.
   */
  lemma {:induction false} ReadSnapshotsFaithful(src: Store, keys: seq<Key>)
    ensures forall s :: s in ReadSnapshots(src, keys) ==> s.key in src && s == SnapshotOf(src, s.key)
  {
    if keys != [] {
      ReadSnapshotsFaithful(src, keys[1..]);
      assert ExpectedReplies(src, keys)[2..] == ExpectedReplies(src, keys[1..]);
    }
  }

  /**
   * When every key of the batch is in the source with a non-empty value,
   * nothing is dropped: snapshot `i` is the value of key `i`.
   */
  lemma {:induction false} ReadSnapshotsNoneVanished(src: Store, keys: seq<Key>)
    requires forall k :: k in keys ==> k in src && |src[k].payload| >= 1
    ensures var snaps := ReadSnapshots(src, keys);
            && |snaps| == |keys|
            && forall i :: 0 <= i < |keys| ==> snaps[i] == SnapshotOf(src, keys[i])
  {
    if keys != [] {
      ReadSnapshotsNoneVanished(src, keys[1..]);
      assert ExpectedReplies(src, keys)[2..] == ExpectedReplies(src, keys[1..]);
      var snaps := ReadSnapshots(src, keys);
      forall i | 1 <= i < |keys| ensures snaps[i] == SnapshotOf(src, keys[i]) {
        assert snaps[i] == ReadSnapshots(src, keys[1..])[i - 1];
      }
    }
  }

  /**
   * read_data_and_pttl: builds the DUMP/PTTL pipeline key by key, executes
   * it on the source and keeps, in order, the keys whose dump is non-empty.
   */
  method ReadDataAndPttl(src: Store, keys: seq<Key>) returns (snaps: seq<Snapshot>)
    ensures snaps == ReadSnapshots(src, keys)
    ensures IsSubsequence(SnapshotKeys(snaps), keys)
    ensures forall s :: s in snaps ==> |s.data| >= 1 && s.pttl >= 0
  {
    var cmds := [];
    for i := 0 to |keys|
      invariant cmds == DumpPttlCommands(keys[..i])
    {
      DumpPttlCommandsAppend(keys[..i], keys[i]);
      assert keys[..i + 1] == keys[..i] + [keys[i]];
      cmds := cmds + [Dump(keys[i]), Pttl(keys[i])];
    }
    assert keys[..|keys|] == keys;
    var res := ExecutePipeline(SourceBehaviour, src, cmds).replies;
    assert Paired(res) && |res| == 2 * |keys| by {
      SourcePipelineReplies(src, keys);
    }
    snaps := [];
    for i := 0 to |keys|
      invariant Paired(res) && |res| == 2 * |keys|
      invariant Paired(res[..2 * i])
      invariant snaps == ValidSnapshots(keys[..i], res[..2 * i])
    {
      ReplyStep(keys, res, i);
      var data := res[2 * i].bytes;
      var pttl := res[2 * i + 1].n;
      if |data| < 1 {
        continue;
      }
      if pttl < 1 {
        pttl := 0;
      }
      snaps := snaps + [Snapshot(keys[i], data, pttl)];
    }
    assert keys[..|keys|] == keys && res[..2 * |keys|] == res;
    SourcePipelineReplies(src, keys);
    ValidSnapshotsKeepOrder(keys, res);
  }
}
