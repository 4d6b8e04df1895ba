/**
 * The key scanner: walks the source keyspace with a cursor and produces the
 * batches of key names the copy modes work on. The server's SCAN replies are
 * an oracle: the n-th call receives the n-th reply.
 */
module Scanner {
  import opened Types

  /** The batch size read_keys asks SCAN for when the caller gives none. */
  const DefaultBatchSize: nat := 500

  /**
   * How keys are selected: `glob` goes to SCAN as its MATCH argument
   * (server side); `regex` filters each reply on the client.
   */
  datatype Filter = Filter(glob: Option<string>, regex: Option<string>)

  /** What SCAN answers: the next cursor and a batch of key names. */
  datatype ScanReply = ScanReply(cursor: nat, keys: seq<Key>)

  /** The arguments of one SCAN call. */
  datatype ScanCall = ScanCall(cursor: nat, count: nat, glob: Option<string>)

  /** A pattern written as `/.../`: it starts and ends with a slash. */
  predicate IsRegexPattern(p: string)
  {
    |p| >= 1 && p[0] == '/' && p[|p| - 1] == '/'
  }

  /** The text between the slashes (empty for the one-character pattern "/"). */
  function RegexBody(p: string): string
  {
    if |p| >= 2 then p[1..|p| - 1] else []
  }

  /** Decides once, before scanning, between server- and client-side filtering. */
  function ParseFilter(pattern: Option<string>): (f: Filter)
    ensures f.glob.Some? ==> f.regex.None?
    ensures f.regex.Some? <==> pattern.Some? && IsRegexPattern(pattern.value)
    ensures f.regex.None? ==> f.glob == pattern
  {
    if pattern.Some? && IsRegexPattern(pattern.value) then
      Filter(None, Some(RegexBody(pattern.value)))
    else
      Filter(pattern, None)
  }

  /** A client-side regex is the pattern with its two enclosing slashes removed. */
  lemma RegexBetweenSlashes(pattern: string)
    requires IsRegexPattern(pattern)
    ensures var f := ParseFilter(Some(pattern));
            f.glob.None? && f.regex.Some? &&
            (pattern == ['/'] + f.regex.value + ['/'] || (pattern == "/" && f.regex.value == ""))
  {
    if |pattern| >= 2 {
      assert pattern == [pattern[0]] + pattern[1..|pattern| - 1] + [pattern[|pattern| - 1]];
    }
  }

  /**
   * The keys of one non-empty reply that are passed on: all of them when the
   * filter is server side, those the regex matches when it is client side.
   * `matcher(re, key)` stands for `re.compile(re).match(key)`.
   */
  function Matching(f: Filter, matcher: (string, Key) -> bool, keys: seq<Key>): seq<Key>
  {
    match f.regex
    case None => keys
    case Some(re) => Keep(MatchedBy(matcher, re), keys)
  }

  /** The keys a compiled regex matches. */
  function MatchedBy(matcher: (string, Key) -> bool, re: string): Key -> bool
  {
    k => matcher(re, k)
  }

  /** The oracle holds a reply whose cursor is 0: the scan terminates. */
  predicate ScanEnds(replies: seq<ScanReply>)
  {
    exists i :: 0 <= i < |replies| && replies[i].cursor == 0
  }

  /** The index of the first reply whose cursor is 0 (or |replies| if none). */
  function FirstZero(replies: seq<ScanReply>): (n: nat)
    ensures n <= |replies|
    ensures forall i :: 0 <= i < n ==> replies[i].cursor != 0
    ensures n < |replies| ==> replies[n].cursor == 0
  {
    if replies == [] then 0
    else if replies[0].cursor == 0 then 0
    else 1 + FirstZero(replies[1..])
  }

  /** The replies the scan loop reads: up to and including the first with cursor 0. */
  function Consumed(replies: seq<ScanReply>): seq<ScanReply>
    requires ScanEnds(replies)
  {
    replies[..FirstZero(replies) + 1]
  }

  /** The batches read_keys yields for a sequence of replies. */
  function Batches(f: Filter, matcher: (string, Key) -> bool, replies: seq<ScanReply>): seq<seq<Key>>
    decreases |replies|
  {
    if replies == [] then []
    else
      var here := BatchOf(f, matcher, replies[0]);
      if replies[0].cursor == 0 then here else here + Batches(f, matcher, replies[1..])
  }

  /** The SCAN calls read_keys makes, the first one with cursor `cursor`. */
  function Calls(f: Filter, count: nat, replies: seq<ScanReply>, cursor: nat): seq<ScanCall>
    decreases |replies|
  {
    if replies == [] then []
    else
      [ScanCall(cursor, count, f.glob)] +
      (if replies[0].cursor == 0 then [] else Calls(f, count, replies[1..], replies[0].cursor))
  }

  /** What reply `r` contributes to the batches. */
  function BatchOf(f: Filter, matcher: (string, Key) -> bool, r: ScanReply): seq<seq<Key>>
  {
    if r.keys == [] then [] else [Matching(f, matcher, r.keys)]
  }

  /** The scan loop's invariant on batches carries over from reply `i` to reply `i + 1`. */
  lemma BatchesStep(f: Filter, matcher: (string, Key) -> bool, replies: seq<ScanReply>, i: nat,
                    acc: seq<seq<Key>>)
    requires i < |replies|
    requires acc + Batches(f, matcher, replies[i..]) == Batches(f, matcher, replies)
    ensures replies[i].cursor == 0 ==> acc + BatchOf(f, matcher, replies[i]) == Batches(f, matcher, replies)
    ensures replies[i].cursor != 0 ==>
              (acc + BatchOf(f, matcher, replies[i])) + Batches(f, matcher, replies[i + 1..]) ==
              Batches(f, matcher, replies)
  {
    var rs := replies[i..];
    assert rs[0] == replies[i] && rs[1..] == replies[i + 1..];
    var here := BatchOf(f, matcher, rs[0]);
    if rs[0].cursor != 0 {
      assert Batches(f, matcher, rs) == here + Batches(f, matcher, rs[1..]);
      AppendAssoc(acc, here, Batches(f, matcher, rs[1..]));
    }
  }

  /** The scan loop's invariant on calls carries over from reply `i` to reply `i + 1`. */
  lemma CallsStep(f: Filter, count: nat, replies: seq<ScanReply>, i: nat, cursor: nat,
                  acc: seq<ScanCall>)
    requires i < |replies|
    requires acc + Calls(f, count, replies[i..], cursor) == Calls(f, count, replies, 0)
    ensures replies[i].cursor == 0 ==> acc + [ScanCall(cursor, count, f.glob)] == Calls(f, count, replies, 0)
    ensures replies[i].cursor != 0 ==>
              (acc + [ScanCall(cursor, count, f.glob)]) + Calls(f, count, replies[i + 1..], replies[i].cursor) ==
              Calls(f, count, replies, 0)
  {
    var rs := replies[i..];
    assert rs[1..] == replies[i + 1..];
    var call := [ScanCall(cursor, count, f.glob)];
    var tail := if rs[0].cursor == 0 then [] else Calls(f, count, rs[1..], rs[0].cursor);
    assert Calls(f, count, rs, cursor) == call + tail;
    AppendAssoc(acc, call, tail);
  }

  /** One reply of the scan loop: no batch for an empty reply, else its matching keys. */
  method FilterReply(f: Filter, matcher: (string, Key) -> bool, reply: ScanReply) returns (batch: seq<seq<Key>>)
    ensures batch == BatchOf(f, matcher, reply)
  {
    if reply.keys == [] {
      return [];
    }
    var keys := reply.keys;
    if f.regex.Some? {
      keys := Keep(MatchedBy(matcher, f.regex.value), keys);
    }
    batch := [keys];
  }

  /**
   * read_keys: scans from cursor 0, each call with the cursor the previous
   * reply returned, until a reply carries cursor 0; every non-empty reply
   * gives one batch.
   */
  method ReadKeys(replies: seq<ScanReply>, batchSize: nat, pattern: Option<string>,
                  matcher: (string, Key) -> bool)
    returns (batches: seq<seq<Key>>, calls: seq<ScanCall>)
    requires ScanEnds(replies)
    ensures batches == Batches(ParseFilter(pattern), matcher, replies)
    ensures calls == Calls(ParseFilter(pattern), batchSize, replies, 0)
  {
    var f := ParseFilter(pattern);
    batches, calls := Scan(replies, batchSize, f, matcher);
  }

  /** The scan loop of read_keys, once the filter is decided. */
  method Scan(replies: seq<ScanReply>, batchSize: nat, f: Filter, matcher: (string, Key) -> bool)
    returns (batches: seq<seq<Key>>, calls: seq<ScanCall>)
    requires ScanEnds(replies)
    ensures batches == Batches(f, matcher, replies)
    ensures calls == Calls(f, batchSize, replies, 0)
  {
    ghost var z :| 0 <= z < |replies| && replies[z].cursor == 0;
    var cursor: nat := 0;
    var i := 0;
    batches, calls := [], [];
    while true
      invariant 0 <= i <= z
      invariant batches + Batches(f, matcher, replies[i..]) == Batches(f, matcher, replies)
      invariant calls + Calls(f, batchSize, replies[i..], cursor) == Calls(f, batchSize, replies, 0)
      decreases z - i
    {
      BatchesStep(f, matcher, replies, i, batches);
      CallsStep(f, batchSize, replies, i, cursor, calls);
      var reply := replies[i];
      calls := calls + [ScanCall(cursor, batchSize, f.glob)];
      cursor := reply.cursor;
      var batch := FilterReply(f, matcher, reply);
      batches := batches + batch;
      if cursor == 0 {
        break;
      }
      i := i + 1;
    }
  }

  /** Every key the replies carry, in order. */
  function AllKeys(replies: seq<ScanReply>): seq<Key>
  {
    if replies == [] then [] else replies[0].keys + AllKeys(replies[1..])
  }

  /**
   * The scan calls: the first uses `cursor`, every later one the cursor of
   * the reply before it, all with the same count and MATCH argument, and
   * the last is the one answered by the first reply with cursor 0.
   */
  lemma {:induction false} CallsFollowCursors(f: Filter, count: nat, replies: seq<ScanReply>, cursor: nat)
    requires ScanEnds(replies)
    ensures var calls := Calls(f, count, replies, cursor);
            && |calls| == FirstZero(replies) + 1
            && calls[0].cursor == cursor
            && (forall i :: 1 <= i < |calls| ==> calls[i].cursor == replies[i - 1].cursor)
            && (forall i :: 0 <= i < |calls| ==> calls[i].count == count && calls[i].glob == f.glob)
    decreases |replies|
  {
    if replies[0].cursor != 0 {
      assert replies[1..][FirstZero(replies) - 1].cursor == 0;
      CallsFollowCursors(f, count, replies[1..], replies[0].cursor);
    }
  }

  /**
   * What the batches hold: the keys of the replies read, up to and including
   * the one with cursor 0, in order, filtered by the regex when there is one
   * and unfiltered otherwise.
   */
  lemma {:induction false} BatchesAreMatchingKeys(f: Filter, matcher: (string, Key) -> bool,
                                                  replies: seq<ScanReply>)
    requires ScanEnds(replies)
    ensures Flatten(Batches(f, matcher, replies)) == Matching(f, matcher, AllKeys(Consumed(replies)))
    decreases |replies|
  {
    var r := replies[0];
    var c := Consumed(replies);
    assert c[0] == r;
    assert Flatten(BatchOf(f, matcher, r)) == Matching(f, matcher, r.keys) by {
      if r.keys != [] {
        assert Flatten([Matching(f, matcher, r.keys)]) == Matching(f, matcher, r.keys) + [];
      }
    }
    if r.cursor == 0 {
      assert c == [r];
      assert AllKeys(c) == r.keys + AllKeys([]) == r.keys;
      assert Batches(f, matcher, replies) == BatchOf(f, matcher, r);
    } else {
      var rest := replies[1..];
      assert rest[FirstZero(replies) - 1].cursor == 0;
      BatchesAreMatchingKeys(f, matcher, rest);
      assert c[1..] == Consumed(rest);
      FlattenAppend(BatchOf(f, matcher, r), Batches(f, matcher, rest));
      MatchingAppend(f, matcher, r.keys, AllKeys(Consumed(rest)));
    }
  }

  lemma {:induction false} MatchingAppend(f: Filter, matcher: (string, Key) -> bool, a: seq<Key>, b: seq<Key>)
    ensures Matching(f, matcher, a + b) == Matching(f, matcher, a) + Matching(f, matcher, b)
  {
    if f.regex.Some? {
      KeepAppend(MatchedBy(matcher, f.regex.value), a, b);
    }
  }

  /** An empty reply gives no batch; every non-empty one gives exactly one. */
  lemma {:induction false} OneBatchPerNonEmptyReply(f: Filter, matcher: (string, Key) -> bool,
                                                    replies: seq<ScanReply>)
    requires ScanEnds(replies)
    ensures |Batches(f, matcher, replies)| == |Keep((r: ScanReply) => r.keys != [], Consumed(replies))|
    decreases |replies|
  {
    var r := replies[0];
    var c := Consumed(replies);
    assert c[0] == r;
    if r.cursor == 0 {
      assert c == [r];
      assert c[1..] == [];
    } else {
      var rest := replies[1..];
      assert rest[FirstZero(replies) - 1].cursor == 0;
      OneBatchPerNonEmptyReply(f, matcher, rest);
      assert c[1..] == Consumed(rest);
    }
  }
}
