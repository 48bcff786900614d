/**
 * The transcription orchestrator of src/components/transcription/hooks/useTranscription.ts.
 * The hook holds one state record; each change of `videoId`/`language` re-runs an
 * effect that starts a fetch cycle (estimate, then transcript, then vocabulary and
 * summary in the background) and leaves a cleanup behind. Every asynchronous
 * completion is an event here that names the cycle ("run") it belongs to; runs
 * are never discarded, so a superseded run's late answers still land, as in the code.
 */
module Transcription {
  import opened Wrappers
  import opened TranscriptionTypes

  /** The record the hook keeps with `useState`, under the hook's own field names. */
  datatype HookState = HookState(
    segments: seq<Segment>,
    currentSegment: int,
    loading: bool,
    error: Option<string>,
    estimationData: Option<EstimateResponse>,
    elapsed: real,
    keyVocabulary: Option<seq<seq<KeyVocab>>>,
    summaryText: Option<string>,
    summaryLoading: bool,
    summaryError: Option<string>)

  const InitialState := HookState([], 0, false, None, None, 0.0, None, None, false, None)

  /** The await a fetch cycle is suspended at. */
  datatype Stage = AwaitingEstimate | AwaitingTranscript | Settled

  /**
   * One fetch cycle: its arguments, where it stands, its progress timer (and the
   * estimate it counts up to), and which background requests are still out.
   */
  datatype Run = Run(
    videoId: string, language: string, stage: Stage,
    timerOn: bool, target: real, vocabPending: bool, summaryPending: bool)

  /** Translation keys of the fallback messages; their texts depend on the UI language. */
  const FetchErrorKey := "error_fetch"
  const SummaryUnexpectedKey := "error_summary_unexpected"
  const SummaryFetchErrorKey := "error_summary_fetch"

  /** A rejection's `message`, or the fallback when it is empty or missing. */
  function OrFallback(message: string, fallback: string): string
  {
    if |message| > 0 then message else fallback
  }

  /** The progress timer after one tick: the new elapsed time and whether it keeps running. */
  datatype TickResult = TickResult(elapsed: real, running: bool)

  /** One tick of the interval: count one second, or land on the estimate and stop. */
  function TickStep(elapsed: real, target: real): (t: TickResult)
    ensures t.elapsed <= target
    ensures t.running <==> elapsed + 1.0 < target
    ensures t.elapsed == if t.running then elapsed + 1.0 else target
  {
    if elapsed + 1.0 >= target then TickResult(target, false) else TickResult(elapsed + 1.0, true)
  }

  /** The timer after `k` interval callbacks from the reset value 0; a stopped timer stays put. */
  function Ticks(target: real, k: nat): TickResult
  {
    if k == 0 then TickResult(0.0, true)
    else
      var prev := Ticks(target, k - 1);
      if prev.running then TickStep(prev.elapsed, target) else prev
  }

  /** From 0, `k` ticks give `min(k, target)`, and the timer runs exactly while `k < target`. */
  lemma {:induction false} TicksFromZero(target: real, k: nat)
    requires target > 0.0
    ensures Ticks(target, k) == if (k as real) < target then TickResult(k as real, true) else TickResult(target, false)
  {
    if k > 0 {
      TicksFromZero(target, k - 1);
    }
  }

  /** Elapsed time never passes the estimate, however many ticks arrive. */
  lemma TicksBounded(target: real, k: nat)
    requires target > 0.0
    ensures 0.0 <= Ticks(target, k).elapsed <= target
    ensures Ticks(target, k).elapsed <= k as real
  {
    TicksFromZero(target, k);
  }

  /** The timer stops by the tick that reaches the estimate, and no later. */
  lemma TimerStops(target: real, k: nat)
    requires target > 0.0 && (k as real) >= target
    ensures !Ticks(target, k).running && Ticks(target, k).elapsed == target
  {
    TicksFromZero(target, k);
  }

  class TranscriptionHook {
    var state: HookState
    var runs: seq<Run>
    /** The run whose cleanup the current effect instance left behind. */
    var activeRun: Option<nat>

    /** Timers run only while a run awaits its transcript; background requests only after it settled. */
    ghost predicate Valid()
      reads this
    {
      && (activeRun.Some? ==> activeRun.value < |runs|)
      && forall r :: 0 <= r < |runs| ==>
           && (runs[r].timerOn ==> runs[r].stage == AwaitingTranscript && runs[r].target > 0.0)
           && (runs[r].vocabPending || runs[r].summaryPending ==> runs[r].stage == Settled)
    }

    constructor ()
      ensures state == InitialState && runs == [] && activeRun == None
      ensures Valid()
    {
      state := InitialState;
      runs := [];
      activeRun := None;
    }

    /** The previous effect instance's cleanup: it clears that run's timer, if one is set. */
    method Cleanup()
      modifies this`runs, this`activeRun
      ensures old(activeRun).None? ==> runs == old(runs)
      ensures old(activeRun).Some? && old(activeRun).value < |old(runs)| ==>
        runs == old(runs)[old(activeRun).value := old(runs)[old(activeRun).value].(timerOn := false)]
      ensures old(activeRun).Some? && old(activeRun).value >= |old(runs)| ==> runs == old(runs)
      ensures activeRun == None && state == old(state)
      ensures old(Valid()) ==> Valid()
    {
      if activeRun.Some? && activeRun.value < |runs| {
        var r := activeRun.value;
        runs := runs[r := runs[r].(timerOn := false)];
      }
      activeRun := None;
    }

    /**
     * The effect for new `videoId`/`language`: after the previous cleanup, a
     * missing or empty id only clears `loading`; any other id resets the record
     * (except `currentSegment` and `summaryLoading`) and starts a new run.
     * Only the previously active run loses its timer; every other run is untouched.
     */
    method Start(videoId: Option<string>, language: string)
      modifies this
      ensures videoId.None? || |videoId.value| == 0 ==>
        state == old(state).(loading := false) && |runs| == |old(runs)| && activeRun == None
      ensures videoId.Some? && |videoId.value| > 0 ==>
        && state == old(state).(loading := true, error := None, segments := [], elapsed := 0.0,
                                estimationData := None, keyVocabulary := None, summaryText := None,
                                summaryError := None)
        && |runs| == |old(runs)| + 1
        && runs[|runs| - 1] == Run(videoId.value, language, AwaitingEstimate, false, 0.0, false, false)
        && activeRun == Some(|runs| - 1)
      ensures forall r :: 0 <= r < |old(runs)| ==>
        runs[r] == if old(activeRun) == Some(r) then old(runs)[r].(timerOn := false) else old(runs)[r]
      ensures old(Valid()) ==> Valid()
    {
      Cleanup();
      if videoId.None? || |videoId.value| == 0 {
        state := state.(loading := false);
      } else {
        state := state.(loading := true, error := None, segments := [], elapsed := 0.0,
                        estimationData := None, keyVocabulary := None, summaryText := None,
                        summaryError := None);
        runs := runs + [Run(videoId.value, language, AwaitingEstimate, false, 0.0, false, false)];
        activeRun := Some(|runs| - 1);
      }
    }

    /** Run `r`'s estimate arrives: it is stored, and a positive estimate starts the timer. */
    method EstimateArrived(r: nat, data: Option<EstimateResponse>)
      requires r < |runs| && runs[r].stage == AwaitingEstimate
      modifies this`state, this`runs
      ensures state == old(state).(estimationData := data)
      ensures var starts := data.Some? && data.value.estimatedTranscriptTimeSec > 0.0;
        runs == old(runs)[r := old(runs)[r].(stage := AwaitingTranscript, timerOn := starts,
                                             target := if starts then data.value.estimatedTranscriptTimeSec else 0.0)]
      ensures old(Valid()) ==> Valid()
    {
      state := state.(estimationData := data);
      var starts := data.Some? && data.value.estimatedTranscriptTimeSec > 0.0;
      var target := if starts then data.value.estimatedTranscriptTimeSec else 0.0;
      runs := runs[r := runs[r].(stage := AwaitingTranscript, timerOn := starts, target := target)];
    }

    /** One interval callback of run `r`'s timer. */
    method TimerTick(r: nat)
      requires r < |runs| && runs[r].timerOn
      modifies this`state, this`runs
      ensures state == old(state).(elapsed := TickStep(old(state).elapsed, old(runs)[r].target).elapsed)
      ensures runs == old(runs)[r := old(runs)[r].(timerOn := TickStep(old(state).elapsed, old(runs)[r].target).running)]
      ensures state.elapsed <= runs[r].target
      ensures old(Valid()) ==> Valid()
    {
      var t := TickStep(state.elapsed, runs[r].target);
      state := state.(elapsed := t.elapsed);
      runs := runs[r := runs[r].(timerOn := t.running)];
    }

    /**
     * Run `r`'s transcript arrives (`data` is `result.data`, `None` when absent):
     * the segments are stored, the vocabulary request goes out, the summary
     * request goes out when there are segments, and the `finally` block clears
     * the timer and `loading`.
     */
    method TranscriptArrived(r: nat, data: Option<seq<Segment>>)
      requires r < |runs| && runs[r].stage == AwaitingTranscript
      modifies this`state, this`runs
      ensures var segs := data.GetOr([]);
        state == if |segs| > 0
                 then old(state).(segments := segs, summaryLoading := true, summaryError := None, loading := false)
                 else old(state).(segments := segs, loading := false)
      ensures runs == old(runs)[r := old(runs)[r].(stage := Settled, timerOn := false, vocabPending := true,
                                                   summaryPending := |data.GetOr([])| > 0)]
      ensures old(Valid()) ==> Valid()
    {
      var segs := data.GetOr([]);
      state := state.(segments := segs);
      if |segs| > 0 {
        state := state.(summaryLoading := true, summaryError := None);
      }
      runs := runs[r := runs[r].(stage := Settled, timerOn := false, vocabPending := true, summaryPending := |segs| > 0)];
      state := state.(loading := false);
    }

    /**
     * The estimate or transcript request of run `r` rejects: the error is set
     * (the rejection's message or the fallback), no later stage starts, the
     * timer is cleared and `loading` drops.
     */
    method FetchFailed(r: nat, message: string)
      requires r < |runs| && runs[r].stage in {AwaitingEstimate, AwaitingTranscript}
      modifies this`state, this`runs
      ensures state == old(state).(error := Some(OrFallback(message, FetchErrorKey)), loading := false)
      ensures runs == old(runs)[r := old(runs)[r].(stage := Settled, timerOn := false)]
      ensures old(Valid()) ==> Valid()
    {
      state := state.(error := Some(OrFallback(message, FetchErrorKey)));
      runs := runs[r := runs[r].(stage := Settled, timerOn := false)];
      state := state.(loading := false);
    }

    /** Run `r`'s vocabulary answer: only an array (`Some`) is stored; nothing else changes. */
    method VocabArrived(r: nat, data: Option<seq<seq<KeyVocab>>>)
      requires r < |runs| && runs[r].vocabPending
      modifies this`state, this`runs
      ensures state == if data.Some? then old(state).(keyVocabulary := data) else old(state)
      ensures runs == old(runs)[r := old(runs)[r].(vocabPending := false)]
      ensures old(Valid()) ==> Valid()
    {
      if data.Some? {
        state := state.(keyVocabulary := data);
      }
      runs := runs[r := runs[r].(vocabPending := false)];
    }

    /** Run `r`'s vocabulary request rejects: it is only logged. */
    method VocabFailed(r: nat)
      requires r < |runs| && runs[r].vocabPending
      modifies this`runs
      ensures runs == old(runs)[r := old(runs)[r].(vocabPending := false)]
      ensures old(Valid()) ==> Valid()
    {
      runs := runs[r := runs[r].(vocabPending := false)];
    }

    /** Run `r`'s summary answer: a string is stored, anything else is the "unexpected" error. */
    method SummaryArrived(r: nat, data: Option<string>)
      requires r < |runs| && runs[r].summaryPending
      modifies this`state, this`runs
      ensures data.Some? ==> state == old(state).(summaryText := data, summaryLoading := false)
      ensures data.None? ==>
        state == old(state).(summaryError := Some(SummaryUnexpectedKey), summaryLoading := false)
      ensures runs == old(runs)[r := old(runs)[r].(summaryPending := false)]
      ensures old(Valid()) ==> Valid()
    {
      if data.Some? {
        state := state.(summaryText := data, summaryLoading := false);
      } else {
        state := state.(summaryError := Some(SummaryUnexpectedKey), summaryLoading := false);
      }
      runs := runs[r := runs[r].(summaryPending := false)];
    }

    /** Run `r`'s summary request rejects: its message, or the fallback, becomes the summary error. */
    method SummaryFailed(r: nat, message: string)
      requires r < |runs| && runs[r].summaryPending
      modifies this`state, this`runs
      ensures state == old(state).(summaryError := Some(OrFallback(message, SummaryFetchErrorKey)), summaryLoading := false)
      ensures runs == old(runs)[r := old(runs)[r].(summaryPending := false)]
      ensures old(Valid()) ==> Valid()
    {
      state := state.(summaryError := Some(OrFallback(message, SummaryFetchErrorKey)), summaryLoading := false);
      runs := runs[r := runs[r].(summaryPending := false)];
    }

    method SetCurrentSegment(segmentIndex: int)
      modifies this`state
      ensures state == old(state).(currentSegment := segmentIndex)
    {
      state := state.(currentSegment := segmentIndex);
    }
  }

  /**
   * A superseded run's transcript still lands: after switching from video `a`
   * to video `b`, the first run's late transcript replaces the segments even
   * though the second run is the active one, and its `finally` clears `loading`
   * while the second run is still waiting.
   */
  method StaleTranscriptApplies(a: string, b: string, lang: string, late: seq<Segment>)
    returns (shown: seq<Segment>, loading: bool, active: Option<nat>)
    requires |a| > 0 && |b| > 0
    ensures shown == late && !loading && active == Some(1)
  {
    var hook := new TranscriptionHook();
    hook.Start(Some(a), lang);
    hook.EstimateArrived(0, None);
    hook.Start(Some(b), lang);
    hook.TranscriptArrived(0, Some(late));
    shown, loading, active := hook.state.segments, hook.state.loading, hook.activeRun;
  }

  /**
   * Switching video after the estimate arrived stops the first run's timer:
   * the cleanup finds it set and clears it.
   */
  method SwitchStopsTimer(a: string, b: string, lang: string, est: EstimateResponse)
    returns (firstTimer: bool, active: Option<nat>)
    requires |a| > 0 && |b| > 0 && est.estimatedTranscriptTimeSec > 0.0
    ensures !firstTimer && active == Some(1)
  {
    var hook := new TranscriptionHook();
    hook.Start(Some(a), lang);
    hook.EstimateArrived(0, Some(est));
    hook.Start(Some(b), lang);
    firstTimer, active := hook.runs[0].timerOn, hook.activeRun;
  }

  /**
   * A superseded run's estimate still starts a timer: when the switch happens
   * before the first estimate arrives, the cleanup finds no timer to clear and
   * both runs end up counting `elapsed`.
   */
  method StaleTimerRuns(a: string, b: string, lang: string, est: EstimateResponse)
    returns (firstTimer: bool, secondTimer: bool)
    requires |a| > 0 && |b| > 0 && est.estimatedTranscriptTimeSec > 0.0
    ensures firstTimer && secondTimer
  {
    var hook := new TranscriptionHook();
    hook.Start(Some(a), lang);
    hook.Start(Some(b), lang);
    hook.EstimateArrived(0, Some(est));
    hook.EstimateArrived(1, Some(est));
    firstTimer, secondTimer := hook.runs[0].timerOn, hook.runs[1].timerOn;
  }
}
