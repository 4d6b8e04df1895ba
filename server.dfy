/**
 * The store primitives the copy engine relies on, as a model of what a
 * server does with each command of a non-transactional pipeline, and the
 * destination connection whose contents the engine changes.
 */
module Server {
  import opened Types

  /**
   * What the model leaves to the server beyond its contents: the payloads
   * it rejects as corrupt, and the text of the error RESTORE answers when
   * the target key already exists and REPLACE was not given.
   */
  datatype Behaviour = Behaviour(rejected: set<Bytes>, busyMessage: string)

  const InvalidTtlMessage: string := "ERR Invalid TTL value, must be >= 0"
  const BadPayloadMessage: string := "ERR DUMP payload version or checksum are wrong"

  /** PTTL: -2 for a missing key, -1 for a key without expiry, else the ms left. */
  function PttlOf(store: Store, k: Key): (p: int)
    ensures p >= -2
    ensures p == -2 <==> k !in store
    ensures p == -1 <==> k in store && store[k].ttl == None
  {
    if k !in store then -2
    else match store[k].ttl
      case None => -1
      case Some(n) => n
  }

  /** RESTORE with a ttl of 0 creates a key without expiry. */
  function ExpiryFor(pttl: nat): Option<nat>
  {
    if pttl == 0 then None else Some(pttl)
  }

  datatype Step = Step(store: Store, reply: Reply)

  /** One command applied to a store: its reply and the store afterwards. */
  function Apply(b: Behaviour, store: Store, cmd: Command): (s: Step)
    ensures cmd.Restore? && s.reply.Okay? ==>
              cmd.pttl >= 0 && s.store == store[cmd.key := Entry(cmd.data, ExpiryFor(cmd.pttl))]
    ensures !cmd.Del? && !s.reply.Okay? ==> s.store == store
  {
    match cmd
    case Dump(k) => Step(store, Bulk(if k in store then store[k].payload else []))
    case Pttl(k) => Step(store, Int(PttlOf(store, k)))
    case Exists(k) => Step(store, Int(if k in store then 1 else 0))
    case Del(k) => Step(store - {k}, Int(if k in store then 1 else 0))
    case Restore(k, p, d, replace) =>
      if p < 0 then Step(store, Error(InvalidTtlMessage))
      else if !replace && k in store then Step(store, Error(b.busyMessage))
      else if d in b.rejected then Step(store, Error(BadPayloadMessage))
      else Step(store[k := Entry(d, ExpiryFor(p))], Okay)
  }

  datatype Execution = Execution(store: Store, replies: seq<Reply>)

  /** A pipeline: every command in order, one reply per command. */
  function ExecutePipeline(b: Behaviour, store: Store, cmds: seq<Command>): (e: Execution)
    ensures |e.replies| == |cmds|
    decreases cmds
  {
    if cmds == [] then Execution(store, [])
    else
      var s := Apply(b, store, cmds[0]);
      var rest := ExecutePipeline(b, s.store, cmds[1..]);
      Execution(rest.store, [s.reply] + rest.replies)
  }

  /** The error a fail-fast pipeline execution raises: its first error reply. */
  function FirstError(replies: seq<Reply>): (r: Option<string>)
    ensures r.None? <==> forall i :: 0 <= i < |replies| ==> !replies[i].Error?
    ensures r.Some? ==> Error(r.value) in replies
  {
    if replies == [] then None
    else if replies[0].Error? then Some(replies[0].message)
    else FirstError(replies[1..])
  }

  /** `execute()` raises the error of the first error reply, whatever follows it. */
  lemma {:induction false} FirstErrorIsFirst(replies: seq<Reply>, i: nat)
    requires i < |replies| && replies[i].Error?
    requires forall j :: 0 <= j < i ==> !replies[j].Error?
    ensures FirstError(replies) == Some(replies[i].message)
    decreases i
  {
    if i > 0 {
      assert replies[1..][i - 1] == replies[i];
      assert forall j :: 0 <= j < i - 1 ==> replies[1..][j] == replies[j + 1];
      FirstErrorIsFirst(replies[1..], i - 1);
    }
  }

  /** A concatenation of replies holds an error exactly when one of its parts does. */
  lemma FirstErrorAppend(r1: seq<Reply>, r2: seq<Reply>)
    ensures FirstError(r1 + r2).None? <==> FirstError(r1).None? && FirstError(r2).None?
  {
    var all := r1 + r2;
    if FirstError(r1).None? && FirstError(r2).None? {
      forall i | 0 <= i < |all| ensures !all[i].Error? {
        if i >= |r1| {
          assert all[i] == r2[i - |r1|];
        }
      }
    }
    if FirstError(all).None? {
      forall i | 0 <= i < |r1| ensures !r1[i].Error? {
        assert r1[i] == all[i];
      }
      forall i | 0 <= i < |r2| ensures !r2[i].Error? {
        assert r2[i] == all[|r1| + i];
      }
    }
  }

  /** Running two pipelines back to back is running their concatenation. */
  lemma {:induction false} ExecuteAppend(b: Behaviour, store: Store, c1: seq<Command>, c2: seq<Command>)
    ensures var e1 := ExecutePipeline(b, store, c1);
            var e2 := ExecutePipeline(b, e1.store, c2);
            ExecutePipeline(b, store, c1 + c2) == Execution(e2.store, e1.replies + e2.replies)
    decreases c1
  {
    if c1 == [] {
      assert c1 + c2 == c2;
    } else {
      assert (c1 + c2)[1..] == c1[1..] + c2;
      ExecuteAppend(b, Apply(b, store, c1[0]).store, c1[1..], c2);
    }
  }

  predicate ReadOnly(cmd: Command)
  {
    cmd.Dump? || cmd.Pttl? || cmd.Exists?
  }

  /** Commands that never remove or replace a key that is already there. */
  predicate NonDestructive(cmd: Command)
  {
    ReadOnly(cmd) || (cmd.Restore? && !cmd.replace)
  }

  /** Plain restores and reads keep every key that exists, with its value. */
  lemma {:induction false} NonDestructivePipeline(b: Behaviour, store: Store, cmds: seq<Command>)
    requires forall i :: 0 <= i < |cmds| ==> NonDestructive(cmds[i])
    ensures var after := ExecutePipeline(b, store, cmds).store;
            store.Keys <= after.Keys && forall k :: k in store ==> after[k] == store[k]
    decreases cmds
  {
    if cmds != [] {
      var s := Apply(b, store, cmds[0]);
      NonDestructivePipeline(b, s.store, cmds[1..]);
    }
  }

  /** The round trips a pipeline costs: none when it holds no commands. */
  function Sent(cmds: seq<Command>): seq<seq<Command>>
  {
    if cmds == [] then [] else [cmds]
  }

  /**
   * A destination connection. `store` is the keyspace the engine writes to;
   * `log` records every pipeline executed on it, in order.
   */
  class Destination {
    const behaviour: Behaviour
    /** The `redis_version` field of INFO, if the server reports one. */
    const version: Option<string>
    var store: Store
    ghost var log: seq<seq<Command>>

    constructor (behaviour: Behaviour, version: Option<string>, store: Store)
      ensures this.behaviour == behaviour && this.version == version
      ensures this.store == store && log == []
    {
      this.behaviour := behaviour;
      this.version := version;
      this.store := store;
      log := [];
    }

    /**
     * Executes one pipeline and returns one reply per command. A pipeline
     * with no commands is not sent at all.
     */
    method Execute(cmds: seq<Command>) returns (replies: seq<Reply>)
      modifies this
      ensures var e := ExecutePipeline(behaviour, old(store), cmds);
              store == e.store && replies == e.replies
      ensures |replies| == |cmds|
      ensures log == old(log) + Sent(cmds)
    {
      if cmds == [] {
        return [];
      }
      var e := ExecutePipeline(behaviour, store, cmds);
      store, replies := e.store, e.replies;
      log := log + [cmds];
    }
  }
}
