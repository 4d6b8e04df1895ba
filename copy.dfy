/**
 * The entry point: a copy is a backfill copy or a clobber copy of the same
 * scan of the source.
 */
module Copy {
  import opened Types
  import opened Server
  import opened Scanner
  import opened Passes
  import opened Clobber
  import opened Backfill
  import opened Restore

  /** What a copy of `batches` amounts to, by mode. */
  function CopyRun(b: Behaviour, version: Option<string>, src: Store, batches: seq<seq<Key>>,
                   store: Store, backfill: bool): Pass
  {
    if backfill then BackfillBatches(b, src, batches, store) else ClobberRun(b, version, src, batches, store)
  }

  /**
   * The two modes' guarantees side by side: a backfill copy never
   * overwrites or removes a key the destination held; a clobber copy whose
   * payloads the destination accepts leaves every yielded key holding the
   * source's value and every other key as it was.
   */
  lemma CopyModes(b: Behaviour, version: Option<string>, src: Store, batches: seq<seq<Key>>,
                  store: Store, backfill: bool)
    ensures var p := CopyRun(b, version, src, batches, store, backfill);
            && (backfill ==> Keeps(store, p.store))
            && (!backfill && Accepted(b, src) ==> Mirrors(src, store, p.store, p.yielded))
  {
    if backfill {
      BackfillKeepsExisting(b, src, batches, store);
    } else if Accepted(b, src) {
      match GetRestoreHandler(version)
      case Err(_) =>
        assert Mirrors(src, store, store, []);
      case Ok(st) =>
        ClobberRoundTrip(b, src, st, batches, store);
    }
  }

  /** copy: dispatches on `backfill` to backfill_copy or clobber_copy. */
  method Copy(src: Store, scan: seq<ScanReply>, pattern: Option<string>, matcher: (string, Key) -> bool,
              dst: Destination, backfill: bool)
    returns (yielded: seq<Key>, raised: Option<string>)
    requires ScanEnds(scan)
    modifies dst
    ensures var p := CopyRun(dst.behaviour, dst.version, src, Batches(ParseFilter(pattern), matcher, scan),
                             old(dst.store), backfill);
            && yielded == p.yielded && raised == p.raised
            && dst.store == p.store && dst.log == old(dst.log) + p.pipelines
  {
    if backfill {
      yielded, raised := BackfillCopy(src, scan, pattern, matcher, dst);
    } else {
      yielded, raised := ClobberCopy(src, scan, pattern, matcher, dst);
    }
  }
}
