/** Task ids and the request ids that the operator derives from them. */
module TriggerIds {
  import opened HexAddress
  import opened Strings

  // ---------------------------------------------------------------- task ids

  predicate UlidChar(c: char) {
    '0' <= c <= '9' || ('A' <= c <= 'Z' && c != 'I' && c != 'L' && c != 'O' && c != 'U')
  }

  predicate WordChar(c: char) {
    'a' <= c <= 'z' || 'A' <= c <= 'Z' || '0' <= c <= '9' || c == '_' || c == '-'
  }

  predicate UlidPattern(id: string) {
    |id| == 26 && forall i :: 0 <= i < |id| ==> UlidChar(id[i])
  }

  /** Hex groups of 8, 4, 4, 4 and 12 joined by hyphens. */
  predicate UuidPattern(id: string) {
    |id| == 36 && forall i :: 0 <= i < |id| ==> if i == 8 || i == 13 || i == 18 ||
      i == 23 then id[i] == '-' else HexDigit(id[i])
  }

  predicate WordPattern(id: string) {
    |id| >= 8 && forall i :: 0 <= i < |id| ==> WordChar(id[i])
  }

  predicate IsValidTaskIDFormat(id: string) {
    id != "" && (UlidPattern(id) || UuidPattern(id) || WordPattern(id))
  }

  /** The three patterns together accept what the last one accepts, all of it colon-free. */
  lemma ValidTaskIDs(id: string)
    ensures IsValidTaskIDFormat(id) <==> |id| >= 8 && forall i :: 0 <= i < |id| ==> WordChar(id[i])
    ensures IsValidTaskIDFormat(id) ==> ColonFree(id)
  {
  }

  // ---------------------------------------------------------------- request ids

  /** Time and block ids: task id and tick, or task id and block number. */
  function MarkerID(task: string, marker: int): string {
    task + ":" + DecimalInt(marker)
  }

  /** Event ids: task id, transaction and the log index. */
  function EventID(task: string, tx: string, log: nat): string {
    task + ":" + tx + ":" + DecimalInt(log)
  }

  /** The marker is whatever follows the last colon, so these ids are injective for every
      task id, colons included. */
  lemma MarkerIDInjective(t: string, m: int, u: string, n: int)
    requires MarkerID(t, m) == MarkerID(u, n)
    ensures t == u && m == n
  {
    DecimalColonFree(m);
    DecimalColonFree(n);
    LastUnique(t, DecimalInt(m), u, DecimalInt(n));
    DecimalIntInjective(m, n);
  }

  /** Injective whenever the transaction hashes are colon-free, whatever task ids are used. */
  lemma EventIDInjective(t: string, x: string, i: nat, u: string, y: string, j: nat)
    requires ColonFree(x) && ColonFree(y) && EventID(t, x, i) == EventID(u, y, j)
    ensures t == u && x == y && i == j
  {
    DecimalColonFree(i);
    DecimalColonFree(j);
    LastUnique(t + ":" + x, DecimalInt(i), u + ":" + y, DecimalInt(j));
    DecimalIntInjective(i, j);
    LastUnique(t, x, u, y);
  }

  /** Exactly when an event id reads as a time or block id: the second task id must contain
      the first one, a colon and the transaction. */
  lemma EventMeetsMarker(t: string, x: string, i: nat, u: string, n: int)
    ensures EventID(t, x, i) == MarkerID(u, n) <==> u == t + ":" + x && n == i
  {
    if EventID(t, x, i) == MarkerID(u, n) {
      DecimalColonFree(i);
      DecimalColonFree(n);
      LastUnique(t + ":" + x, DecimalInt(i), u, DecimalInt(n));
      DecimalIntInjective(i, n);
    }
  }

  /** For colon-free task ids, and so for every accepted one, the two kinds never meet. */
  lemma EventNeverMarker(t: string, x: string, i: nat, u: string, n: int)
    requires IsValidTaskIDFormat(u)
    ensures EventID(t, x, i) != MarkerID(u, n)
  {
    ValidTaskIDs(u);
    EventMeetsMarker(t, x, i, u, n);
    assert (t + ":" + x)[|t|] == ':';
  }

  /** Colon-free hashes are needed: without them two different events share an id. */
  lemma EventIDNeedsColonFree(t: string, x: string, y: string, i: nat)
    requires ColonFree(y)
    ensures EventID(t + ":" + x, y, i) == EventID(t, x + ":" + y, i)
  {
  }
}
