/** The chain-scoping migration: every legacy task, user and history key gains the chain
    id as its second segment, one atomic move at a time. */
module KeyScoping {
  import opened Strings
  import opened KeySweep

  // ---------------------------------------------------------------- the code's decisions

  datatype Bucket = TaskBucket(status: string) | UserBucket | HistoryBucket

  /** Enabled, disabled, running, completed, failed, then user and history keys. */
  const BUCKETS: seq<Bucket> :=
    [TaskBucket("a"), TaskBucket("i"), TaskBucket("x"), TaskBucket("c"), TaskBucket("f"), UserBucket, HistoryBucket]

  function Prefix(b: Bucket): string {
    match b
    case TaskBucket(status) => "t:" + status + ":"
    case UserBucket => "u:"
    case HistoryBucket => "history:"
  }

  predicate IsChainScopedTaskKey(k: string) {
    HasPrefix(k, "t:") && Colons(k) >= 3
  }

  predicate IsChainScopedUserKey(k: string) {
    HasPrefix(k, "u:") && Colons(k) >= 4
  }

  predicate IsChainScopedExecutionKey(k: string) {
    HasPrefix(k, "history:") && Colons(k) >= 3
  }

  function TaskVerdict(chainID: int, status: string, k: string): Verdict {
    if IsChainScopedTaskKey(k) then Skip
    else
      var parts := SplitN(k, 3);
      if |parts| != 3 then Malformed
      else Rename(Join(["t", DecimalInt(chainID), status, parts[2]]))
  }

  function UserVerdict(chainID: int, k: string): Verdict {
    if IsChainScopedUserKey(k) then Skip
    else
      var parts := Split(k);
      if |parts| != 4 then Malformed
      else Rename(Join(["u", DecimalInt(chainID), parts[1], parts[2], parts[3]]))
  }

  function HistoryVerdict(chainID: int, k: string): Verdict {
    if IsChainScopedExecutionKey(k) then Skip
    else
      var parts := SplitN(k, 3);
      if |parts| != 3 then Malformed
      else Rename(Join(["history", DecimalInt(chainID), parts[1], parts[2]]))
  }

  function VerdictOf(b: Bucket, chainID: int, k: string): Verdict {
    match b
    case TaskBucket(status) => TaskVerdict(chainID, status, k)
    case UserBucket => UserVerdict(chainID, k)
    case HistoryBucket => HistoryVerdict(chainID, k)
  }

  // ---------------------------------------------------------------- what they mean

  /** Colons in a legacy key of the bucket. */
  function Width(b: Bucket): nat {
    if b == UserBucket then 3 else 2
  }

  predicate LegacyIn(b: Bucket, k: string) {
    HasPrefix(k, Prefix(b)) && Colons(k) == Width(b)
  }

  predicate MalformedIn(b: Bucket, k: string) {
    HasPrefix(k, Prefix(b)) && Colons(k) < Width(b)
  }

  predicate Legacy(k: string) {
    exists b :: b in BUCKETS && LegacyIn(b, k)
  }

  /** The chain id becomes the second segment. */
  function ScopedKey(chainID: int, k: string): string {
    var i := FirstColon(k);
    if i == |k| then k else k[..i] + ":" + (DecimalInt(chainID) + ":" + k[i + 1..])
  }

  /** The second segment is dropped. */
  function UnscopedKey(k: string): string {
    var i := FirstColon(k);
    if i == |k| then k
    else
      var rest := k[i + 1..];
      var j := FirstColon(rest);
      if j == |rest| then k else k[..i] + ":" + rest[j + 1..]
  }

  lemma ScopedSegments(head: string, dec: string, tail: string)
    requires ColonFree(head) && ColonFree(dec)
    ensures var d := head + ":" + (dec + ":" + tail);
            UnscopedKey(d) == head + ":" + tail && Colons(d) == Colons(head + ":" + tail) + 1
  {
    var rest := dec + ":" + tail;
    var d := head + ":" + rest;
    ColonsAround(head, tail);
    ColonsAround(dec, tail);
    ColonsAround(head, rest);
    FirstColonAt(head, rest);
    FirstColonAt(dec, tail);
    assert d[..|head|] == head && d[|head| + 1..] == rest;
    assert rest[|dec| + 1..] == tail;
  }

  /** Scoping adds one colon and can be undone. */
  lemma ScopedKeyInverse(chainID: int, k: string)
    requires Colons(k) >= 1
    ensures UnscopedKey(ScopedKey(chainID, k)) == k
    ensures Colons(ScopedKey(chainID, k)) == Colons(k) + 1
  {
    var i := FirstColon(k);
    ColonFreeCount(k);
    assert k[..|k|] == k;
    assert k == k[..i] + ":" + k[i + 1..];
    DecimalColonFree(chainID);
    ScopedSegments(k[..i], DecimalInt(chainID), k[i + 1..]);
  }

  /** The first segment of every key of the bucket. */
  function Namespace(b: Bucket): string {
    match b
    case TaskBucket(_) => "t"
    case UserBucket => "u"
    case HistoryBucket => "history"
  }

  /** A key under a bucket's prefix starts with its namespace segment. */
  lemma BucketHead(b: Bucket, k: string)
    requires HasPrefix(k, Prefix(b))
    ensures ColonFree(Namespace(b)) && HasPrefix(k, Namespace(b) + ":")
    ensures FirstColon(k) == |Namespace(b)| < |k|
    ensures k[..|Namespace(b)|] == Namespace(b)
  {
    PrefixRest(k, Prefix(b));
    match b
    case TaskBucket(_) => assert k[0] == 't' && k[1] == ':'; HeadSegment("t", k);
    case UserBucket => HeadSegment("u", k);
    case HistoryBucket => HeadSegment("history", k);
  }

  /** Splitting a bucket's key, inserting the chain id and joining again is ScopedKey. */
  lemma InsertSegment(chainID: int, n: string, k: string, parts: seq<string>)
    requires ColonFree(n) && HasPrefix(k, n + ":")
    requires |parts| >= 1 && Join(parts) == k[|n| + 1..]
    ensures Join([n, DecimalInt(chainID)] + parts) == ScopedKey(chainID, k)
  {
    HeadSegment(n, k);
    JoinCons(DecimalInt(chainID), parts);
    JoinCons(n, [DecimalInt(chainID)] + parts);
    assert [n, DecimalInt(chainID)] + parts == [n] + ([DecimalInt(chainID)] + parts);
  }

  /** A split key is its namespace followed by the split rest. */
  lemma SplitBucketKey(n: string, k: string)
    requires ColonFree(n) && HasPrefix(k, n + ":")
    ensures Split(k) == [n] + Split(k[|n| + 1..]) && SplitN(k, 3) == [n] + SplitN(k[|n| + 1..], 2)
    ensures |Split(k)| == Colons(k) + 1 && |SplitN(k, 3)| == if Colons(k) < 2 then Colons(k) + 1 else 3
    ensures Join(Split(k[|n| + 1..])) == Join(SplitN(k[|n| + 1..], 2)) == k[|n| + 1..]
  {
    HeadSegment(n, k);
    SplitHead(n, k[|n| + 1..]);
    JoinSplit(k);
    JoinSplitN(k, 3);
    JoinSplit(k[|n| + 1..]);
    JoinSplitN(k[|n| + 1..], 2);
  }

  lemma TaskText(status: string, k: string)
    requires HasPrefix(k, "t:" + status + ":")
    ensures |k| >= |status| + 3 && k == "t" + ":" + (status + ":" + k[|status| + 3..])
    ensures k[2..] == status + ":" + k[|status| + 3..]
  {
  }

  lemma TaskParts(status: string, k: string)
    requires ColonFree(status) && HasPrefix(k, "t:" + status + ":")
    ensures |k| >= |status| + 3 && SplitN(k, 3) == ["t", status, k[|status| + 3..]]
    ensures Join([status, k[|status| + 3..]]) == k[2..]
    ensures HasPrefix(k, "t:") && Colons(k) >= 2
  {
    TaskText(status, k);
    ThreeSegments("t", status, k[|status| + 3..]);
    ThreeSegmentColons("t", status, k[|status| + 3..]);
  }

  lemma TaskVerdictMeaning(chainID: int, status: string, k: string)
    requires ColonFree(status)
    requires HasPrefix(k, Prefix(TaskBucket(status)))
    ensures TaskVerdict(chainID, status, k) == if Colons(k) == 2 then Rename(ScopedKey(chainID, k)) else Skip
    ensures Colons(k) >= 2
  {
    TaskParts(status, k);
    var parts := [status, k[|status| + 3..]];
    InsertSegment(chainID, "t", k, parts);
    assert ["t", DecimalInt(chainID)] + parts == ["t", DecimalInt(chainID), status, SplitN(k, 3)[2]];
  }

  lemma UserVerdictMeaning(chainID: int, k: string)
    requires HasPrefix(k, Prefix(UserBucket))
    ensures UserVerdict(chainID, k) ==
            if Colons(k) >= 4 then Skip else if Colons(k) == 3 then Rename(ScopedKey(chainID, k)) else Malformed
  {
    BucketHead(UserBucket, k);
    SplitBucketKey("u", k);
    var parts, dec := Split(k[2..]), DecimalInt(chainID);
    InsertSegment(chainID, "u", k, parts);
    if Colons(k) == 3 {
      assert ["u", dec] + parts == ["u", dec, Split(k)[1], Split(k)[2], Split(k)[3]];
    }
  }

  lemma HistoryVerdictMeaning(chainID: int, k: string)
    requires HasPrefix(k, Prefix(HistoryBucket))
    ensures HistoryVerdict(chainID, k) ==
            if Colons(k) >= 3 then Skip else if Colons(k) == 2 then Rename(ScopedKey(chainID, k)) else Malformed
  {
    BucketHead(HistoryBucket, k);
    SplitBucketKey("history", k);
    var parts, dec := SplitN(k[8..], 2), DecimalInt(chainID);
    InsertSegment(chainID, "history", k, parts);
    if Colons(k) == 2 {
      assert ["history", dec] + parts == ["history", dec, SplitN(k, 3)[1], SplitN(k, 3)[2]];
    }
  }

  /** Each mover renames exactly the legacy keys of its bucket, and always to the key with
      the chain id inserted. */
  lemma VerdictMeaning(b: Bucket, chainID: int, k: string)
    requires b in BUCKETS && HasPrefix(k, Prefix(b))
    ensures VerdictOf(b, chainID, k) ==
            if LegacyIn(b, k) then Rename(ScopedKey(chainID, k)) else if MalformedIn(b, k) then Malformed else Skip
  {
    match b
    case TaskBucket(status) => TaskVerdictMeaning(chainID, status, k);
    case UserBucket => UserVerdictMeaning(chainID, k);
    case HistoryBucket => HistoryVerdictMeaning(chainID, k);
  }

  lemma ScopedKeyWider(chainID: int, k: string, c: Bucket, b: Bucket)
    requires LegacyIn(c, k) && HasPrefix(ScopedKey(chainID, k), Prefix(b))
    ensures Colons(ScopedKey(chainID, k)) > Width(b)
  {
    var d, n := ScopedKey(chainID, k), Namespace(c);
    BucketHead(c, k);
    ScopedKeyInverse(chainID, k);
    BucketHead(b, d);
    FirstColonAt(n, DecimalInt(chainID) + ":" + k[|n| + 1..]);
    assert d[..|n|] == n;
    assert Namespace(b) == n;
    assert "t"[0] != "u"[0] && "t"[0] != "history"[0] && "u"[0] != "history"[0];
  }

  /** A destination is outside every bucket's reach: never legacy, never malformed. */
  lemma ScopedKeySettled(chainID: int, k: string, b: Bucket)
    requires Legacy(k)
    ensures !LegacyIn(b, ScopedKey(chainID, k)) && !MalformedIn(b, ScopedKey(chainID, k))
  {
    var c :| c in BUCKETS && LegacyIn(c, k);
    if HasPrefix(ScopedKey(chainID, k), Prefix(b)) { ScopedKeyWider(chainID, k, c, b); }
  }

  /** A key belongs to one bucket at most. */
  lemma BucketsDisjoint(i: nat, j: nat, k: string)
    requires i < j < |BUCKETS|
    requires HasPrefix(k, Prefix(BUCKETS[i]))
    ensures !HasPrefix(k, Prefix(BUCKETS[j]))
  {
    if j < 5 {
      assert Prefix(BUCKETS[i])[2] == k[2];
      assert Prefix(BUCKETS[i])[2] != Prefix(BUCKETS[j])[2];
    } else {
      assert Prefix(BUCKETS[i])[0] == k[0];
      assert Prefix(BUCKETS[i])[0] != Prefix(BUCKETS[j])[0];
    }
  }
}
