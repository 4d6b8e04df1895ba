/**
 * Values shared by every part of the copy engine: keys, opaque payloads,
 * the commands a pipeline carries and the replies a server sends back.
 */
module Types {

  datatype Option<+T> = None | Some(value: T)

  /** The outcome of a step that may raise: `Err` carries the error text. */
  datatype Result<+T> = Ok(value: T) | Err(error: string)

  /** Key names are opaque strings; payloads are the bytes DUMP produces. */
  type Key = string
  type Bytes = seq<bv8>

  /**
   * A stored key: its serialized value and its remaining time to live in
   * milliseconds (`None` for a key that never expires).
   */
  datatype Entry = Entry(payload: Bytes, ttl: Option<nat>)

  type Store = map<Key, Entry>

  /** The store commands the engine puts into pipelines. */
  datatype Command =
    | Dump(key: Key)
    | Pttl(key: Key)
    | Exists(key: Key)
    | Del(key: Key)
    | Restore(key: Key, pttl: int, data: Bytes, replace: bool)

  /** One reply of an executed pipeline. */
  datatype Reply =
    | Bulk(bytes: Bytes)
    | Int(n: int)
    | Okay
    | Error(message: string)

  /** A key read from the source: `(key, serialized value, ttl in ms)`. */
  datatype Snapshot = Snapshot(key: Key, data: Bytes, pttl: int)

  function SnapshotKeys(snaps: seq<Snapshot>): (ks: seq<Key>)
    ensures |ks| == |snaps|
    ensures forall i :: 0 <= i < |snaps| ==> ks[i] == snaps[i].key
  {
    if snaps == [] then [] else [snaps[0].key] + SnapshotKeys(snaps[1..])
  }

  lemma SnapshotKeysAppend(a: seq<Snapshot>, b: seq<Snapshot>)
    ensures SnapshotKeys(a + b) == SnapshotKeys(a) + SnapshotKeys(b)
  {
    var l, r := SnapshotKeys(a + b), SnapshotKeys(a) + SnapshotKeys(b);
    assert |l| == |r|;
    forall i | 0 <= i < |l| ensures l[i] == r[i] {
      if i < |a| {
        assert (a + b)[i] == a[i];
      } else {
        assert (a + b)[i] == b[i - |a|];
      }
    }
  }

  /** `a` is `b` with some elements left out and the rest kept in order. */
  predicate IsSubsequence<T(==)>(a: seq<T>, b: seq<T>)
    decreases |b|
  {
    if a == [] then true
    else if b == [] then false
    else if a[0] == b[0] then IsSubsequence(a[1..], b[1..])
    else IsSubsequence(a, b[1..])
  }

  /** The in-order sub-list of `s` whose elements satisfy `p`. */
  function Keep<T>(p: T -> bool, s: seq<T>): (r: seq<T>)
    ensures |r| <= |s|
    ensures forall x :: x in r ==> x in s && p(x)
    ensures forall x :: x in s && p(x) ==> x in r
  {
    if s == [] then []
    else if p(s[0]) then [s[0]] + Keep(p, s[1..])
    else Keep(p, s[1..])
  }

  lemma {:induction false} KeepNone<T>(p: T -> bool, s: seq<T>)
    requires forall x :: x in s ==> !p(x)
    ensures Keep(p, s) == []
  {
    if s != [] {
      KeepNone(p, s[1..]);
    }
  }

  /** No element occurs twice. */
  predicate Distinct<T(==)>(s: seq<T>)
  {
    forall i, j :: 0 <= i < j < |s| ==> s[i] != s[j]
  }

  lemma {:induction false} KeepDistinct<T>(p: T -> bool, s: seq<T>)
    requires Distinct(s)
    ensures Distinct(Keep(p, s))
  {
    if s != [] {
      assert forall i, j :: 0 <= i < j < |s| - 1 ==> s[1..][i] == s[i + 1] && s[1..][j] == s[j + 1];
      KeepDistinct(p, s[1..]);
      assert s[0] !in s[1..];
    }
  }

  /** Dropping the first element of the longer sequence keeps the relation. */
  lemma {:induction false} SubsequenceOfTail<T>(a: seq<T>, b: seq<T>)
    requires b != [] && IsSubsequence(a, b[1..])
    ensures IsSubsequence(a, b)
    decreases |b|, 0
  {
    if a != [] && a[0] == b[0] {
      SubsequenceDropHead(a, b[1..]);
    }
  }

  /** Dropping the first element of the shorter sequence keeps the relation. */
  lemma {:induction false} SubsequenceDropHead<T>(a: seq<T>, b: seq<T>)
    requires a != [] && IsSubsequence(a, b)
    ensures IsSubsequence(a[1..], b)
    decreases |b|, 1
  {
    if a[0] == b[0] {
      SubsequenceOfTail(a[1..], b);
    } else {
      SubsequenceDropHead(a, b[1..]);
      SubsequenceOfTail(a[1..], b);
    }
  }

  lemma {:induction false} KeepAppend<T>(p: T -> bool, a: seq<T>, b: seq<T>)
    ensures Keep(p, a + b) == Keep(p, a) + Keep(p, b)
  {
    if a == [] {
      assert a + b == b;
    } else {
      assert (a + b)[1..] == a[1..] + b;
      KeepAppend(p, a[1..], b);
    }
  }

  lemma InitLast<T>(s: seq<T>)
    requires |s| >= 1
    ensures s == s[..|s| - 1] + [s[|s| - 1]]
  {
  }

  lemma AppendAssoc<T>(a: seq<T>, b: seq<T>, c: seq<T>)
    ensures (a + b) + c == a + (b + c)
  {
  }

  /** The concatenation of a sequence of sequences. */
  function Flatten<T>(ss: seq<seq<T>>): seq<T>
  {
    if ss == [] then [] else ss[0] + Flatten(ss[1..])
  }

  lemma {:induction false} FlattenAppend<T>(a: seq<seq<T>>, b: seq<seq<T>>)
    ensures Flatten(a + b) == Flatten(a) + Flatten(b)
  {
    if a == [] {
      assert a + b == b;
    } else {
      assert (a + b)[1..] == a[1..] + b;
      FlattenAppend(a[1..], b);
    }
  }

  /** Does `needle` occur as a contiguous part of `hay` (Python's `in` on strings)? */
  predicate Contains(hay: string, needle: string)
  {
    needle <= hay || (hay != [] && Contains(hay[1..], needle))
  }

  /** A needle that starts at position `i` of the haystack is contained in it. */
  lemma {:induction false} ContainsAt(hay: string, needle: string, i: nat)
    requires i <= |hay| && needle <= hay[i..]
    ensures Contains(hay, needle)
  {
    if i > 0 {
      assert hay[1..][i - 1..] == hay[i..];
      ContainsAt(hay[1..], needle, i - 1);
    }
  }

  /** Every character of a contained needle occurs in the haystack. */
  lemma {:induction false} ContainsChars(hay: string, needle: string)
    requires Contains(hay, needle)
    ensures forall c :: c in needle ==> c in hay
  {
    if !(needle <= hay) {
      ContainsChars(hay[1..], needle);
    } else {
      forall c | c in needle ensures c in hay {
        var j :| 0 <= j < |needle| && needle[j] == c;
        assert hay[j] == c;
      }
    }
  }
}
