/** Writing one file atomically: a temporary file is written and synced, then replaces the
    target, retrying only a denied replacement. */
module AtomicFile {
  import opened Wrappers

  newtype Byte = b: int | 0 <= b < 256
  type Bytes = seq<Byte>

  type Positive = n: nat | n > 0 witness 1

  datatype File = Missing | Holding(content: Bytes)

  datatype ReplaceFate = Replaced | Denied | Failed

  /** How the file system treats one write: after how many bytes the temporary file fails,
      if it does; how each replacement attempt ends; whether clean-up can unlink. */
  datatype WriteFate = WriteFate(breaksAfter: Option<nat>, replacing: nat -> ReplaceFate, unlinks: bool)

  /** Some attempt replaces, and every attempt before it was merely denied. */
  predicate Replaces(fate: WriteFate, attempts: nat) {
    exists i: nat :: i < attempts && fate.replacing(i) == Replaced && forall j: nat :: j < i ==> fate.replacing(j) == Denied
  }

  predicate Persists(fate: WriteFate, attempts: nat) { fate.breaksAfter.None? && Replaces(fate, attempts) }

  class FilePair {
    var target: File
    var temporary: File
    /** The target after every change to either file: what a crash there would leave. */
    ghost var history: seq<File>

    constructor (target: File)
      ensures this.target == target && temporary == Missing && history == [target]
    {
      this.target, temporary, history := target, Missing, [target];
    }

    /** Every state a crash since `before` could expose shows the old content or the whole payload. */
    ghost predicate CrashSafe(before: seq<File>, held: File, payload: Bytes)
      reads this
    {
      before <= history
      && forall i :: |before| <= i < |history| ==> history[i] == held || history[i] == Holding(payload)
    }

    method SetTemporary(f: File)
      modifies this
      ensures temporary == f && target == old(target) && history == old(history) + [target]
    {
      temporary := f;
      history := history + [target];
    }

    method Unlink(works: bool)
      modifies this
      ensures target == old(target) && temporary == (if works then Missing else old(temporary))
      ensures history == old(history) + [target]
    {
      if works { temporary := Missing; }
      history := history + [target];
    }

    /** Writes the temporary file byte by byte and syncs it, unless the file system breaks off. */
    method WriteTemporary(payload: Bytes, fate: WriteFate) returns (synced: bool)
      modifies this
      ensures synced <==> fate.breaksAfter.None?
      ensures synced ==> temporary == Holding(payload)
      ensures target == old(target) && CrashSafe(old(history), target, payload)
    {
      SetTemporary(Holding([]));
      for n := 0 to |payload|
        invariant target == old(target) && temporary == Holding(payload[..n])
        invariant CrashSafe(old(history), target, payload)
      {
        if fate.breaksAfter == Some(n) { return false; }
        SetTemporary(Holding(payload[..n + 1]));
      }
      assert payload[..|payload|] == payload;
      synced := fate.breaksAfter.None?;
    }

    /** Replaces the target by the payload, or leaves it and reports the failure. */
    method AtomicWrite(payload: Bytes, attempts: Positive, fate: WriteFate) returns (ok: bool)
      modifies this
      ensures CrashSafe(old(history), old(target), payload)
      ensures ok <==> Persists(fate, attempts)
      ensures target == if ok then Holding(payload) else old(target)
      ensures ok || fate.unlinks ==> temporary == Missing
    {
      var synced := WriteTemporary(payload, fate);
      if !synced {
        Unlink(fate.unlinks);
        return false;
      }
      for attempt := 0 to attempts
        invariant target == old(target) && temporary == Holding(payload)
        invariant CrashSafe(old(history), old(target), payload)
        invariant forall j: nat :: j < attempt ==> fate.replacing(j) == Denied
        invariant attempt < attempts
      {
        match fate.replacing(attempt)
        case Replaced =>
          target, temporary := temporary, Missing;
          history := history + [target];
          return true;
        case Denied =>
          if attempt + 1 == attempts {
            Unlink(fate.unlinks);
            return false;
          }
        case Failed =>
          Unlink(fate.unlinks);
          return false;
      }
      assert false;
    }
  }
}
