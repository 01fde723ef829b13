/** Loop detection over the planning loop's tool history: repeated paths, repeated cached
    queries, and the checkpoint form of the state. */
module LoopProtection {
  import opened Wrappers

  /** JSON kept for a failed plan is opaque here. */
  type Json = string

  datatype Snapshot = Snapshot(
    turnIndex: int,
    history: seq<string>,
    cacheHits: map<string, int>,
    errors: int,
    tokens: int,
    lastWarning: Option<string>,
    detectedLoop: Option<string>,
    elapsed: real,
    truncated: bool,
    lastError: Option<string>,
    lastFailedPlan: Option<Json>)

  function Floor(n: int): int { if n > 0 then n else 0 }

  /** An empty text is restored as no text. */
  function NonEmpty(s: Option<string>): Option<string> { if s == Some("") then None else s }

  /** What restoring a checkpoint yields: counters clamped at zero, empty texts dropped. */
  function Restored(cp: Snapshot): Snapshot {
    cp.(turnIndex := Floor(cp.turnIndex),
        cacheHits := map k | k in cp.cacheHits :: Floor(cp.cacheHits[k]),
        errors := Floor(cp.errors),
        tokens := Floor(cp.tokens),
        lastWarning := NonEmpty(cp.lastWarning),
        detectedLoop := NonEmpty(cp.detectedLoop),
        elapsed := if cp.elapsed > 0.0 then cp.elapsed else 0.0,
        lastError := NonEmpty(cp.lastError))
  }

  predicate Regular(s: Snapshot) {
    && s.turnIndex >= 0 && s.errors >= 0 && s.tokens >= 0 && s.elapsed >= 0.0
    && (forall k :: k in s.cacheHits ==> s.cacheHits[k] >= 0)
    && s.lastWarning != Some("") && s.detectedLoop != Some("") && s.lastError != Some("")
  }

  /** Saving and restoring is the identity exactly on states with nonnegative counters and no
      empty texts; it always yields such a state, so restoring twice changes nothing more. */
  lemma RestoreIsIdentityExactlyWhenRegular(s: Snapshot)
    ensures Restored(s) == s <==> Regular(s)
    ensures Regular(Restored(s)) && Restored(Restored(s)) == Restored(s)
  {
    if Restored(s) == s {
      forall k | k in s.cacheHits ensures s.cacheHits[k] >= 0 {
        assert Restored(s).cacheHits[k] == Floor(s.cacheHits[k]);
      }
    }
    if Regular(s) {
      assert Restored(s).cacheHits == s.cacheHits;
    }
    var r := Restored(s);
    assert Restored(r).cacheHits == r.cacheHits;
  }

  // ------------------------------------------------------------------- repeated paths

  /** The history ends in the same block of `n` calls twice. */
  predicate RepeatsBlock(history: seq<string>, n: nat) {
    2 * n <= |history| && history[|history| - 2 * n..|history| - n] == history[|history| - n..]
  }

  function Block(history: seq<string>, n: nat): seq<string>
    requires 2 * n <= |history|
  {
    history[|history| - 2 * n..|history| - n]
  }

  /** `"→".join`. */
  function Arrowed(calls: seq<string>): string {
    if calls == [] then "" else if |calls| == 1 then calls[0] else calls[0] + ['\U{2192}'] + Arrowed(calls[1..])
  }

  /** A history repeats a block exactly when it ends in that block written twice. */
  lemma RepeatsExactly(history: seq<string>, n: nat)
    ensures RepeatsBlock(history, n) ==>
              |Block(history, n)| == n && history == history[..|history| - 2 * n] + Block(history, n) + Block(history, n)
    ensures forall before, block :: |block| == n && history == before + block + block ==> RepeatsBlock(history, n) && Block(history, n) == block
  {
    forall before, block | |block| == n && history == before + block + block
      ensures RepeatsBlock(history, n) && Block(history, n) == block
    {
      assert history[|before|..|before| + n] == block && history[|before| + n..] == block;
    }
  }

  /** A pattern names the calls of its block in order, with arrows between them. */
  lemma {:induction false} ArrowsBetween(first: seq<string>, second: seq<string>)
    requires first != [] && second != []
    ensures Arrowed([first[0]]) == first[0]
    ensures Arrowed(first + second) == Arrowed(first) + ['\U{2192}'] + Arrowed(second)
  {
    var calls := first + second;
    if |first| > 1 {
      ArrowsBetween(first[1..], second);
      assert calls[1..] == first[1..] + second;
    } else {
      assert calls[1..] == second;
    }
  }

  /** The least block length from 2 to `max` that repeats. */
  ghost predicate LeastRepeat(history: seq<string>, max: int, n: nat) {
    2 <= n <= max && RepeatsBlock(history, n) && forall m :: 2 <= m < n ==> !RepeatsBlock(history, m)
  }

  ghost predicate NoRepeat(history: seq<string>, max: int) {
    forall m :: 2 <= m <= max ==> !RepeatsBlock(history, m)
  }

  // ---------------------------------------------------------------- repeated queries

  function Hits(counts: map<string, int>, key: string): int { if key in counts then counts[key] else 0 }

  /** One cached query: the new counts, and whether it is the one that warns. */
  function Count(counts: map<string, int>, key: Option<string>, threshold: int): (map<string, int>, bool) {
    match key
    case None => (counts, false)
    case Some(k) => (counts[k := Hits(counts, k) + 1], Hits(counts, k) + 1 == threshold)
  }

  function CountsAfter(start: map<string, int>, keys: seq<Option<string>>, threshold: int): map<string, int> {
    if keys == [] then start
    else Count(CountsAfter(start, keys[..|keys| - 1], threshold), keys[|keys| - 1], threshold).0
  }

  /** Call `i` of the sequence warns. */
  predicate Warns(start: map<string, int>, keys: seq<Option<string>>, threshold: int, i: nat)
    requires i < |keys|
  {
    Count(CountsAfter(start, keys[..i], threshold), keys[i], threshold).1
  }

  function Occurrences(keys: seq<Option<string>>, key: string): nat {
    if keys == [] then 0
    else Occurrences(keys[..|keys| - 1], key) + (if keys[|keys| - 1] == Some(key) then 1 else 0)
  }

  lemma {:induction false} CountsAreOccurrences(start: map<string, int>, keys: seq<Option<string>>, threshold: int, key: string)
    ensures Hits(CountsAfter(start, keys, threshold), key) == Hits(start, key) + Occurrences(keys, key)
  {
    if keys != [] {
      CountsAreOccurrences(start, keys[..|keys| - 1], threshold, key);
    }
  }

  /** A call warns exactly when it is the hit of its own key that reaches the threshold. */
  lemma WarnsAtTheThreshold(start: map<string, int>, keys: seq<Option<string>>, threshold: int, i: nat)
    requires i < |keys|
    ensures Warns(start, keys, threshold, i) <==>
              keys[i].Some? && Hits(start, keys[i].value) + Occurrences(keys[..i], keys[i].value) + 1 == threshold
  {
    if keys[i].Some? {
      CountsAreOccurrences(start, keys[..i], threshold, keys[i].value);
    }
  }

  lemma {:induction false} OccurrencesGrow(keys: seq<Option<string>>, key: string, i: nat, j: nat)
    requires i <= j <= |keys|
    ensures Occurrences(keys[..i], key) <= Occurrences(keys[..j], key)
    ensures i < j && keys[i] == Some(key) ==> Occurrences(keys[..i], key) < Occurrences(keys[..j], key)
    decreases j - i
  {
    if i < j {
      OccurrencesGrow(keys, key, i, j - 1);
      assert keys[..j][..j - 1] == keys[..j - 1];
    }
  }

  /** The hit that brings the key's count to `count`. */
  lemma {:induction false} HitReaching(keys: seq<Option<string>>, key: string, count: nat) returns (i: nat)
    requires 1 <= count <= Occurrences(keys, key)
    ensures i < |keys| && keys[i] == Some(key) && Occurrences(keys[..i], key) + 1 == count
  {
    var n := |keys| - 1;
    if Occurrences(keys[..n], key) >= count {
      i := HitReaching(keys[..n], key, count);
      assert keys[..n][..i] == keys[..i];
    } else {
      i := n;
    }
  }

  /** Over any sequence of cached queries each key warns at most once, and it does so exactly
      when its hits go from below the threshold to at least the threshold. */
  lemma EachKeyWarnsOnce(start: map<string, int>, keys: seq<Option<string>>, threshold: int, key: string)
    ensures (exists i :: 0 <= i < |keys| && keys[i] == Some(key) && Warns(start, keys, threshold, i))
            <==> Hits(start, key) < threshold <= Hits(start, key) + Occurrences(keys, key)
    ensures forall i, j :: 0 <= i < j < |keys| && keys[i] == Some(key) && keys[j] == Some(key) ==>
              !Warns(start, keys, threshold, i) || !Warns(start, keys, threshold, j)
  {
    hide Warns;
    assert keys[..|keys|] == keys;
    forall i: nat | i < |keys| && keys[i] == Some(key)
      ensures Warns(start, keys, threshold, i) <==> Hits(start, key) + Occurrences(keys[..i], key) + 1 == threshold
      ensures Occurrences(keys[..i], key) + 1 <= Occurrences(keys, key)
    {
      WarnsAtTheThreshold(start, keys, threshold, i);
      OccurrencesGrow(keys, key, i, |keys|);
    }
    forall i: nat, j: nat | i < j < |keys| && keys[i] == Some(key)
      ensures Occurrences(keys[..i], key) < Occurrences(keys[..j], key)
    {
      OccurrencesGrow(keys, key, i, j);
    }
    if Hits(start, key) < threshold <= Hits(start, key) + Occurrences(keys, key) {
      var i := HitReaching(keys, key, threshold - Hits(start, key));
      assert Warns(start, keys, threshold, i);
    }
  }

  // ------------------------------------------------------------------ the loop state

  class LoopState {
    var turnIndex: int
    var toolCallHistory: seq<string>
    var cacheHitCounts: map<string, int>
    var consecutiveErrors: int
    var totalTokens: int
    var lastWarning: Option<string>
    var detectedPathLoop: Option<string>
    var elapsedTime: real
    var encounteredTruncation: bool
    var lastErrorMessage: Option<string>
    var lastFailedPlan: Option<Json>

    function ToCheckpoint(): Snapshot
      reads this
    {
      Snapshot(turnIndex, toolCallHistory, cacheHitCounts, consecutiveErrors, totalTokens, lastWarning,
               detectedPathLoop, elapsedTime, encounteredTruncation, lastErrorMessage, lastFailedPlan)
    }

    constructor FromCheckpoint(cp: Snapshot)
      ensures ToCheckpoint() == Restored(cp)
    {
      turnIndex := Floor(cp.turnIndex);
      toolCallHistory := cp.history;
      cacheHitCounts := map k | k in cp.cacheHits :: Floor(cp.cacheHits[k]);
      consecutiveErrors := Floor(cp.errors);
      totalTokens := Floor(cp.tokens);
      lastWarning := NonEmpty(cp.lastWarning);
      detectedPathLoop := NonEmpty(cp.detectedLoop);
      elapsedTime := if cp.elapsed > 0.0 then cp.elapsed else 0.0;
      encounteredTruncation := cp.truncated;
      lastErrorMessage := NonEmpty(cp.lastError);
      lastFailedPlan := cp.lastFailedPlan;
    }

    /** Looks for the least repeated block and reports it unless it was the last one reported. */
    method DetectPathLoop(maxLoopLength: int) returns (reported: Option<string>)
      modifies this`detectedPathLoop
      ensures NoRepeat(toolCallHistory, maxLoopLength) ==> reported == None && detectedPathLoop == old(detectedPathLoop)
      ensures forall n: nat :: LeastRepeat(toolCallHistory, maxLoopLength, n) ==>
                var pattern := Arrowed(Block(toolCallHistory, n));
                detectedPathLoop == Some(pattern)
                && reported == (if old(detectedPathLoop) == Some(pattern) then None else Some(pattern))
    {
      var loopLength := 2;
      while loopLength <= maxLoopLength
        invariant 2 <= loopLength && detectedPathLoop == old(detectedPathLoop)
        invariant forall m :: 2 <= m < loopLength ==> !RepeatsBlock(toolCallHistory, m)
      {
        if RepeatsBlock(toolCallHistory, loopLength) {
          var pattern := Arrowed(Block(toolCallHistory, loopLength));
          assert LeastRepeat(toolCallHistory, maxLoopLength, loopLength);
          if detectedPathLoop == Some(pattern) { return None; }
          detectedPathLoop := Some(pattern);
          return Some(pattern);
        }
        loopLength := loopLength + 1;
      }
      reported := None;
    }

    /** Counts a cache hit; reports the hit number at the threshold. */
    method DetectActionConflict(cacheKey: Option<string>, maxCacheHitsPerQuery: int) returns (reported: Option<int>)
      modifies this`cacheHitCounts, this`lastWarning
      ensures (cacheHitCounts, reported.Some?) == Count(old(cacheHitCounts), cacheKey, maxCacheHitsPerQuery)
      ensures reported.Some? ==> reported.value == maxCacheHitsPerQuery && lastWarning.Some?
      ensures reported.None? ==> lastWarning == old(lastWarning)
    {
      if cacheKey.None? { return None; }
      var key := cacheKey.value;
      cacheHitCounts := cacheHitCounts[key := Hits(cacheHitCounts, key) + 1];
      var hitCount := cacheHitCounts[key];
      if hitCount == maxCacheHitsPerQuery {
        lastWarning := Some("repeated query");
        return Some(hitCount);
      }
      reported := None;
    }

    method Update(toolName: Option<string>, errorOccurred: bool)
      modifies this`turnIndex, this`toolCallHistory, this`consecutiveErrors
      ensures turnIndex == old(turnIndex) + 1
      ensures toolCallHistory == old(toolCallHistory) + (if toolName.Some? then [toolName.value] else [])
      ensures consecutiveErrors == if errorOccurred then old(consecutiveErrors) + 1 else 0
    {
      turnIndex := turnIndex + 1;
      if toolName.Some? { toolCallHistory := toolCallHistory + [toolName.value]; }
      consecutiveErrors := if errorOccurred then consecutiveErrors + 1 else 0;
    }
  }
}
