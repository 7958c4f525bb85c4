/** The resumable build scheduler: the stage codes, the time budget
    answered by `StillHaveTime`, the cursor a stage loop stops at, and
    the transition `TriggerNextIteration` makes after every tick. */
module Schedule {

  /** `errorValue` and `sectionComplete`. */
  const ERROR: int := -2
  const COMPLETE: int := -1

  /** The last stage (`SetupNodes`); any other state finishes the load. */
  const LAST_STAGE: int := 8

  /** The clock is an oracle: the k-th call to `StillHaveTime` since the
      component was created answers `clock(k)`. */
  type Oracle = nat -> bool

  function Answer(clock: Oracle, k: nat): bool
  {
    clock(k)
  }

  /** Every question numbered lo .. hi - 1 is answered "yes". */
  predicate AllYes(clock: Oracle, lo: nat, hi: nat)
  {
    forall j: nat :: lo <= j < hi ==> Answer(clock, j)
  }

  /** A stage loop over [start, n) asks for time at every index (the
      test is a non-short-circuit `&`), the first one included, but only
      acts on the answer at an index other than `start`.  With `at`
      questions asked before it, index i asks question at + (i - start).
      `StopFrom` is the first index from i on whose answer is "no", and n
      when there is none. */
  function StopFrom(clock: Oracle, at: nat, start: nat, i: int, n: int): (stop: int)
    requires start < i
    ensures stop == n || i <= stop < n
    decreases n - i
  {
    if i >= n then n
    else if !Answer(clock, at + (i - start)) then i
    else StopFrom(clock, at, start, i + 1, n)
  }

  /** The code a stage loop resumed at `start` over n items returns:
      COMPLETE when it runs to the end, otherwise the index it yields at. */
  function LoopCode(clock: Oracle, at: nat, start: nat, n: nat): int
  {
    if start >= n then COMPLETE
    else
      var stop := StopFrom(clock, at, start, start + 1, n);
      if stop >= n then COMPLETE else stop
  }

  /** The indices that loop processes: [start, Reach), which is empty
      when it is resumed at or past the end. */
  function Reach(clock: Oracle, at: nat, start: nat, n: nat): (r: nat)
    ensures r <= n && (start < n ==> start < r)
  {
    if start >= n then n else StopFrom(clock, at, start, start + 1, n)
  }

  /** How many questions that loop asks: one per index it visits, the
      one it yields at included. */
  function Asked(clock: Oracle, at: nat, start: nat, n: nat): nat
  {
    if start >= n then 0
    else
      var stop := StopFrom(clock, at, start, start + 1, n);
      if stop >= n then n - start else stop - start + 1
  }

  /** The stop index is the first refusal: every question after the
      ignored first one was answered "yes" up to it, and a stop before n
      follows a "no". */
  lemma {:induction false} StopFromSpec(clock: Oracle, at: nat, start: nat, i: int, n: int)
    requires start < i <= n
    requires AllYes(clock, at + 1, at + (i - start))
    ensures i <= StopFrom(clock, at, start, i, n) <= n
    ensures AllYes(clock, at + 1, at + (StopFrom(clock, at, start, i, n) - start))
    ensures StopFrom(clock, at, start, i, n) < n ==> !Answer(clock, at + (StopFrom(clock, at, start, i, n) - start))
    decreases n - i
  {
    if i < n && Answer(clock, at + (i - start)) {
      assert AllYes(clock, at + 1, at + (i + 1 - start));
      StopFromSpec(clock, at, start, i + 1, n);
    }
  }

  /** The converse: an index reached with every answer "yes" and refused
      (or the end) is where the search stops. */
  lemma {:induction false} StopFromIs(clock: Oracle, at: nat, start: nat, j: int, i: int, n: int)
    requires start < j <= i <= n
    requires AllYes(clock, at + 1, at + (i - start))
    requires i < n ==> !Answer(clock, at + (i - start))
    ensures StopFrom(clock, at, start, j, n) == i
    decreases i - j
  {
    if j < i {
      assert Answer(clock, at + (j - start));
      StopFromIs(clock, at, start, j + 1, i, n);
    }
  }

  /** What a loop that stopped at i (yielding there, or at the end) has
      returned, processed and asked. */
  lemma StoppedAt(clock: Oracle, at: nat, start: nat, i: nat, n: nat)
    requires start < i <= n
    requires AllYes(clock, at + 1, at + (i - start))
    requires i < n ==> !Answer(clock, at + (i - start))
    ensures LoopCode(clock, at, start, n) == (if i == n then COMPLETE else i)
    ensures Reach(clock, at, start, n) == i
    ensures Asked(clock, at, start, n) == (if i == n then n - start else i - start + 1)
  {
    StopFromIs(clock, at, start, start + 1, i, n);
  }

  /** A loop leaving its `for` at i (the end, or its own start when
      resumed past the end) completes, having asked once per visited
      index. */
  lemma Completed(clock: Oracle, at: nat, start: nat, i: nat, n: nat)
    requires start <= i && n <= i && (i == n || i == start)
    requires AllYes(clock, at + 1, at + (i - start))
    ensures LoopCode(clock, at, start, n) == COMPLETE
    ensures Reach(clock, at, start, n) == n
    ensures Asked(clock, at, start, n) == i - start
  {
    if start < n {
      StoppedAt(clock, at, start, n, n);
    }
  }

  /** One more "yes" extends the run. */
  lemma AllYesStep(clock: Oracle, lo: nat, hi: nat)
    requires lo <= hi + 1 && AllYes(clock, lo, hi) && (hi < lo || Answer(clock, hi))
    ensures AllYes(clock, lo, hi + 1)
  {
  }

  /** A loop that was given time up to index k processes at least
      [start, k). */
  lemma ReachAtLeast(clock: Oracle, at: nat, start: nat, k: nat, n: nat)
    requires start < k <= n
    requires AllYes(clock, at + 1, at + (k - start))
    ensures Reach(clock, at, start, n) >= k
  {
    StopFromSpec(clock, at, start, start + 1, n);
  }

  /** A stage loop never returns its own start cursor: it completes, or
      yields a cursor strictly past the one it was resumed at, which is
      where it stopped. */
  lemma LoopCodeProgress(clock: Oracle, at: nat, start: nat, n: nat)
    ensures LoopCode(clock, at, start, n) == COMPLETE || start < LoopCode(clock, at, start, n) < n
    ensures LoopCode(clock, at, start, n) == COMPLETE <==> Reach(clock, at, start, n) == n
    ensures LoopCode(clock, at, start, n) != COMPLETE ==> Reach(clock, at, start, n) == LoopCode(clock, at, start, n)
  {
    if start < n {
      StopFromSpec(clock, at, start, start + 1, n);
    }
  }

  /** With time left for every question the loop completes; when the
      second question is refused it yields right after its start. */
  lemma LoopCodeExtremes(clock: Oracle, at: nat, start: nat, n: nat)
    ensures start <= n && AllYes(clock, at + 1, at + (n - start)) ==> LoopCode(clock, at, start, n) == COMPLETE
    ensures start + 1 < n && !Answer(clock, at + 1) ==> LoopCode(clock, at, start, n) == start + 1
  {
    if start < n {
      StopFromSpec(clock, at, start, start + 1, n);
    }
  }

  // ---------------------------------------------------------------------
  // The mesh loop, which asks for time after filling a slot.

  /** How many of the indices [lo, hi) are flagged. */
  function AskedCount(asks: seq<bool>, lo: nat, hi: nat): nat
    requires hi <= |asks|
    decreases hi
  {
    if hi <= lo then 0 else AskedCount(asks, lo, hi - 1) + (if asks[hi - 1] then 1 else 0)
  }

  /** A loop that asks for time only at the flagged indices, after it has
      processed them, and acts on a "no" at any index but its start:
      the index it stops at, searched from i with question k next, and
      |asks| when it runs to the end. */
  function LateStop(clock: Oracle, asks: seq<bool>, start: nat, i: nat, k: nat): (stop: int)
    ensures stop == |asks| || (i <= stop < |asks| && stop != start && asks[stop])
    decreases |asks| - i
  {
    if i >= |asks| then |asks|
    else if asks[i] && i != start && !Answer(clock, k) then i
    else LateStop(clock, asks, start, i + 1, if asks[i] then k + 1 else k)
  }

  /** The code that loop returns, with `at` questions asked before it:
      the index of the slot it filled last when it yields there. */
  function LateCode(clock: Oracle, at: nat, asks: seq<bool>, start: nat): int
  {
    var stop := LateStop(clock, asks, start, start, at);
    if stop >= |asks| then COMPLETE else stop
  }

  /** The indices it processes: [start, LateEnd), the yielding index
      included. */
  function LateEnd(clock: Oracle, at: nat, asks: seq<bool>, start: nat): (e: int)
    ensures 0 <= e <= |asks|
  {
    var stop := LateStop(clock, asks, start, start, at);
    if stop >= |asks| then |asks| else stop + 1
  }

  /** The mesh loop also never returns its start cursor, and when it
      yields the index it returns was both flagged and processed. */
  lemma LateCodeProgress(clock: Oracle, at: nat, asks: seq<bool>, start: nat)
    ensures LateCode(clock, at, asks, start) == COMPLETE ||
      (start < LateCode(clock, at, asks, start) < |asks| &&
       asks[LateCode(clock, at, asks, start)] && LateEnd(clock, at, asks, start) == LateCode(clock, at, asks, start) + 1)
  {
  }

  /** The mesh loop's books at index m, with `asked` questions asked so
      far: one question per flagged index visited, and the stop still
      ahead. */
  predicate LateAt(clock: Oracle, at: nat, asks: seq<bool>, start: nat, m: nat, asked: nat)
  {
    && start <= m <= |asks|
    && asked == at + AskedCount(asks, start, m)
    && LateStop(clock, asks, start, start, at) == LateStop(clock, asks, start, m, asked)
  }

  lemma LateBegins(clock: Oracle, at: nat, asks: seq<bool>, start: nat)
    requires start <= |asks|
    ensures LateAt(clock, at, asks, start, start, at)
  {
  }

  /** An index that is not flagged is passed without a question. */
  lemma LateSkips(clock: Oracle, at: nat, asks: seq<bool>, start: nat, m: nat, asked: nat)
    requires LateAt(clock, at, asks, start, m, asked) && m < |asks| && !asks[m]
    ensures LateAt(clock, at, asks, start, m + 1, asked)
  {
  }

  /** A flagged index asks once; the loop goes on when the answer is
      "yes" or when it is the first index. */
  lemma LateGoesOn(clock: Oracle, at: nat, asks: seq<bool>, start: nat, m: nat, asked: nat)
    requires LateAt(clock, at, asks, start, m, asked) && m < |asks| && asks[m]
    requires m == start || Answer(clock, asked)
    ensures LateAt(clock, at, asks, start, m + 1, asked + 1)
  {
  }

  /** A "no" at a flagged index other than the first is where it stops:
      the code is that index, which was processed, and its question was
      asked. */
  lemma LateYields(clock: Oracle, at: nat, asks: seq<bool>, start: nat, m: nat, asked: nat)
    requires LateAt(clock, at, asks, start, m, asked) && m < |asks| && asks[m]
    requires m != start && !Answer(clock, asked)
    ensures LateCode(clock, at, asks, start) == m
    ensures LateEnd(clock, at, asks, start) == m + 1
    ensures asked + 1 == at + AskedCount(asks, start, m + 1)
  {
  }

  /** Reaching the end completes. */
  lemma LateEnds(clock: Oracle, at: nat, asks: seq<bool>, start: nat, asked: nat)
    requires LateAt(clock, at, asks, start, |asks|, asked)
    ensures LateCode(clock, at, asks, start) == COMPLETE
    ensures LateEnd(clock, at, asks, start) == |asks|
    ensures asked == at + AskedCount(asks, start, |asks|)
  {
  }

  /** A loop resumed past the end completes at once, asking nothing. */
  lemma LatePastEnd(clock: Oracle, at: nat, asks: seq<bool>, start: nat)
    requires |asks| < start
    ensures LateCode(clock, at, asks, start) == COMPLETE
    ensures LateEnd(clock, at, asks, start) == |asks|
    ensures AskedCount(asks, start, |asks|) == 0
  {
  }

  // ---------------------------------------------------------------------
  // The transition after a tick.

  datatype Signal = NoSignal | ParseErrorSignal | SceneLoadedSignal

  datatype Transition = Transition(state: int, index: int, signal: Signal, enabled: bool)

  /** `TriggerNextIteration`: a finished load signals `SceneLoaded`, an
      error code signals `ParseError` (both disable the loader); a
      completed stage moves to the next state at cursor 0; a yielded
      cursor leaves the state as it is. */
  function Next(state: int, index: int, finished: bool): (t: Transition)
    ensures finished ==> t.signal == SceneLoadedSignal && !t.enabled
    ensures !finished && index == ERROR ==> t.signal == ParseErrorSignal && !t.enabled
    ensures !finished && index == COMPLETE ==> t == Transition(state + 1, 0, NoSignal, true)
    ensures !finished && index != ERROR && index != COMPLETE ==> t == Transition(state, index, NoSignal, true)
  {
    if finished then Transition(state, index, SceneLoadedSignal, false)
    else if index == ERROR then Transition(state, index, ParseErrorSignal, false)
    else if index == COMPLETE then Transition(state + 1, 0, NoSignal, true)
    else Transition(state, index, NoSignal, true)
  }

  /** The progress measure of a running load: the state, then the cursor. */
  predicate Before(s1: int, i1: int, s2: int, i2: int)
  {
    s1 < s2 || (s1 == s2 && i1 < i2)
  }

  /** Every tick that leaves the loader running moves it strictly forward:
      given a stage code that is an error, a completion or a cursor past
      the resume point, the next (state, cursor) pair comes after the
      current one. */
  lemma NextProgress(state: int, index: int, code: int)
    requires code == ERROR || code == COMPLETE || code > index
    ensures var t := Next(state, code, false);
      t.enabled ==> Before(state, index, t.state, t.index)
  {
  }
}
