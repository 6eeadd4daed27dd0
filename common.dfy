/** Shared value types of the pomodoro app: an Option wrapper, the log entry
    record and the session event the timer emits. */
module Common {

  datatype Option<+T> = None | Some(value: T) {
    function GetOr(default: T): T {
      match this
      case Some(v) => v
      case None => default
    }
  }

  /** Entry ids are UUIDs; only their equality matters here. */
  type Uuid = string

  /** The entry type is an open tag: "focus", "meeting" or any user label. */
  type EntryType = string

  const FocusType: EntryType := "focus"

  /** One completed (or manually logged) interval. Times are whole seconds
      since the epoch; `duration` is in seconds. */
  datatype Entry = Entry(
    id: Uuid,
    startedAt: int,
    duration: int,
    notes: string,
    entryType: EntryType,
    manual: bool)

  /** What the timer reports when an interval runs out. A completed focus
      interval carries its start time, its length in seconds and its type. */
  datatype TimerEvent =
    | FocusCompleted(startedAt: int, duration: int, entryType: EntryType)
    | BreakCompleted

  // Small facts about sequences, kept apart so that proofs using them do
  // not have to rediscover them in a large context.

  lemma AppendTail<T>(a: seq<T>, b: seq<T>)
    requires a != []
    ensures (a + b)[0] == a[0] && (a + b)[1..] == a[1..] + b
  {
  }

  lemma ConsAssoc<T>(x: T, a: seq<T>, b: seq<T>)
    ensures ([x] + a) + b == [x] + (a + b)
  {
  }

  lemma SnocAssoc<T>(a: seq<T>, b: seq<T>, x: T)
    ensures (a + b) + [x] == a + (b + [x])
  {
  }

  lemma PrefixStep<T>(s: seq<T>, j: int)
    requires 0 <= j < |s|
    ensures s[..j + 1] == s[..j] + [s[j]]
  {
  }

  lemma IndexLeft<T>(a: seq<T>, b: seq<T>, k: int)
    requires 0 <= k < |a|
    ensures k < |a + b| && (a + b)[k] == a[k]
  {
  }

  lemma IndexRight<T>(a: seq<T>, b: seq<T>, base: int, j: int)
    requires base == |a| && 0 <= j < |b|
    ensures base + j < |a + b| && (a + b)[base + j] == b[j]
  {
  }
}
