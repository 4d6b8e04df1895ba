/**
 * The restore strategy: chosen once per destination from its reported
 * version, it turns one snapshot into the commands that write it.
 */
module Restore {
  import opened Types
  import opened Server
  import opened Version

  /** The first version whose RESTORE accepts the REPLACE modifier. */
  const MinReplaceVersion: string := "3.0.0"

  /** `_replace_restore` or `_delete_restore`. */
  datatype Strategy = ReplaceRestore | DeleteRestore

  /**
   * `_supports_replace`: a missing or empty version means no; otherwise the
   * version is compared with 3.0.0, and a malformed one raises.
   */
  function SupportsReplace(version: Option<string>): (r: Result<bool>)
    ensures version.None? || version == Some("") ==> r == Ok(false)
  {
    match version
    case None => Ok(false)
    case Some(v) =>
      if v == "" then Ok(false)
      else
        match CompareVersion(v, MinReplaceVersion)
        case Err(e) => Err(e)
        case Ok(c) => Ok(c >= 0)
  }

  /** `_supports_replace` raises exactly when it is given a non-empty malformed version. */
  lemma SupportsReplaceRaises(version: Option<string>)
    ensures SupportsReplace(version).Err? <==>
              version.Some? && version.value != "" && Normalize(version.value).Err?
  {
    ThreeZeroZeroIsThree();
  }

  /** `_get_restore_handler`. */
  function GetRestoreHandler(version: Option<string>): (r: Result<Strategy>)
  {
    match SupportsReplace(version)
    case Err(e) => Err(e)
    case Ok(yes) => Ok(if yes then ReplaceRestore else DeleteRestore)
  }

  /**
   * `_get_restore_handler` by version: DEL + RESTORE when the server reports
   * no version, RESTORE ... REPLACE exactly for a well-formed version at
   * least 3 (trailing zero segments aside), DEL + RESTORE for an older one,
   * and an error for a malformed one.
   */
  lemma RestoreHandlerByVersion(version: Option<string>)
    ensures version.None? || version == Some("") ==> GetRestoreHandler(version) == Ok(DeleteRestore)
    ensures GetRestoreHandler(version).Err? <==>
              version.Some? && version.value != "" && Normalize(version.value).Err?
    ensures version.Some? && version.value != "" && Normalize(version.value).Ok? ==>
              GetRestoreHandler(version) ==
                Ok(if CompareLists(Normalize(version.value).value, [3]) >= 0 then ReplaceRestore else DeleteRestore)
  {
    SupportsReplaceRaises(version);
    if version.Some? && version.value != "" && Normalize(version.value).Ok? {
      SupportsReplaceAtLeastThree(version.value);
    }
  }

  /** The commands one handler application adds to the pipeline. */
  function HandlerCommands(st: Strategy, s: Snapshot): (cmds: seq<Command>)
    ensures 1 <= |cmds| <= 2
    ensures cmds[|cmds| - 1] == Restore(s.key, s.pttl, s.data, st == ReplaceRestore)
  {
    match st
    case ReplaceRestore => [Restore(s.key, s.pttl, s.data, true)]
    case DeleteRestore => [Del(s.key), Restore(s.key, s.pttl, s.data, false)]
  }

  /**
   * A non-empty, well-formed version selects REPLACE exactly when it is at
   * least 3 (trailing zero segments aside).
   */
  lemma SupportsReplaceAtLeastThree(v: string)
    requires v != "" && Normalize(v).Ok?
    ensures SupportsReplace(Some(v)) == Ok(CompareLists(Normalize(v).value, [3]) >= 0)
  {
    ThreeZeroZeroIsThree();
  }

  /** A newer version than one that supports REPLACE supports it too. */
  lemma SupportsReplaceMonotone(v1: string, v2: string)
    requires SupportsReplace(Some(v1)) == Ok(true)
    requires v2 != "" && Normalize(v2).Ok?
    requires CompareVersion(v1, v2).Ok? && CompareVersion(v1, v2).value <= 0
    ensures SupportsReplace(Some(v2)) == Ok(true)
  {
    assert v1 != "";
    assert Normalize(v1).Ok?;
    var n1, n2 := Normalize(v1).value, Normalize(v2).value;
    SupportsReplaceAtLeastThree(v1);
    SupportsReplaceAtLeastThree(v2);
    CompareVersionOf(v1, v2, n1, n2);
    CompareListsAntisymmetric([3], n1);
    CompareListsTransitive([3], n1, n2);
    CompareListsAntisymmetric([3], n2);
  }

  /** A 2.8 server gets DEL + RESTORE. */
  lemma HandlerForOldServer()
    ensures GetRestoreHandler(Some("2.8.19")) == Ok(DeleteRestore)
  {
    TwoEightNineteen();
    SupportsReplaceAtLeastThree("2.8.19");
  }

  /** A 3.0.0 server gets RESTORE ... REPLACE. */
  lemma HandlerForThree()
    ensures GetRestoreHandler(Some("3.0.0")) == Ok(ReplaceRestore)
  {
    ThreeZeroZeroIsThree();
    SupportsReplaceAtLeastThree("3.0.0");
  }

  /**
   * Both strategies have the same effect on a payload the server accepts:
   * the key holds the snapshot afterwards, whether or not it existed, every
   * other key is untouched and no reply is an error.
   */
  lemma HandlerOverwrites(b: Behaviour, store: Store, st: Strategy, s: Snapshot)
    requires s.pttl >= 0 && s.data !in b.rejected
    ensures var e := ExecutePipeline(b, store, HandlerCommands(st, s));
            && e.store == store[s.key := Entry(s.data, ExpiryFor(s.pttl))]
            && FirstError(e.replies) == None
  {
    var cmds := HandlerCommands(st, s);
    if st == DeleteRestore {
      var afterDel := store - {s.key};
      assert Apply(b, store, cmds[0]).store == afterDel;
      var written := Apply(b, afterDel, cmds[1]);
      assert written.store == afterDel[s.key := Entry(s.data, ExpiryFor(s.pttl))];
      assert cmds[1..] == [cmds[1]] && cmds[1..][1..] == [];
      assert ExecutePipeline(b, afterDel, cmds[1..]) == Execution(written.store, [Okay]);
      assert afterDel[s.key := Entry(s.data, ExpiryFor(s.pttl))] == store[s.key := Entry(s.data, ExpiryFor(s.pttl))];
    } else {
      assert cmds[1..] == [];
    }
  }

  /**
   * Where they differ: for a payload the server rejects, REPLACE leaves the
   * old value in place, while DEL + RESTORE has already removed the key.
   */
  lemma HandlerRejected(b: Behaviour, store: Store, st: Strategy, s: Snapshot)
    requires s.pttl >= 0 && s.data in b.rejected
    ensures var e := ExecutePipeline(b, store, HandlerCommands(st, s));
            && FirstError(e.replies) == Some(BadPayloadMessage)
            && e.store == (if st == ReplaceRestore then store else store - {s.key})
  {
    var cmds := HandlerCommands(st, s);
    if st == DeleteRestore {
      var afterDel := store - {s.key};
      assert Apply(b, store, cmds[0]).store == afterDel;
      assert cmds[1..] == [cmds[1]] && cmds[1..][1..] == [];
      assert ExecutePipeline(b, afterDel, cmds[1..]) == Execution(afterDel, [Error(BadPayloadMessage)]);
    } else {
      assert cmds[1..] == [];
    }
  }
}
