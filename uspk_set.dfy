/**
 * The unspent-script-pubkey set: a set of raw output scripts built once
 * from a UTXO snapshot dump, with a single-slot status that goes
 * `Empty -> Populating -> Ready`.
 *
 * The dump decoder is outside this model: an opened dump is its header
 * count plus the scripts its iterator yields. Cancellation is the number of
 * records inserted when the loop's check first sees the token cancelled.
 * Elapsed step times are the supplied function `stepMicros` (the duration of
 * the i-th block of `StepSize` records, counting from 0).
 */
module UspkSet {
  import opened Common

  type Script = seq<bv8>

  datatype UspkSetStatus = Empty | Populating | Ready

  /** The external crate's `RetrieverError`, as returned by opening the dump. */
  datatype RetrieverError = RetrieverError(message: string)

  /** An opened `txoutset::Dump`: its header's `utxo_set_size` and the scripts it yields, in order. */
  datatype Dump = Dump(utxoSetSize: nat, scripts: seq<Script>)

  /** One progress line: records done of the header total, and the estimate shown. */
  datatype ProgressReport = ProgressReport(loopsDone: nat, totalLoops: nat, averageStepMicros: nat, etaMinutes: nat)

  /** How the loading loop ended. */
  datatype LoopExit =
    | Exhausted             // the dump yielded `None`: the set is sent and the status set to `Ready`
    | Cancelled             // the token was seen cancelled: the loop ends without sending the set
    | StepCounterUnderflow  // more full steps than the header announced: `steps_remaining -= 1` overflows

  /** What `populate_with_dump_file` does to its caller. */
  datatype PopulateOutcome =
    | Populated                     // returns `Ok(())`
    | Failed(error: RetrieverError) // returns `Err(..)` from opening the dump
    | Panicked                      // the oneshot receiver's `unwrap` panics: no set was sent

  const StepSize: nat := 100000
  const MicrosPerMinute: nat := 60_000_000

  /** The set of the given scripts: nothing missing, nothing extra. */
  function SetOf(scripts: seq<Script>): set<Script> {
    if |scripts| == 0 then {} else SetOf(scripts[..|scripts| - 1]) + {scripts[|scripts| - 1]}
  }

  lemma {:induction false} SetOfMembers(scripts: seq<Script>)
    ensures forall x :: x in SetOf(scripts) <==> x in scripts
  {
    if |scripts| > 0 {
      var init := scripts[..|scripts| - 1];
      SetOfMembers(init);
      assert scripts == init + [scripts[|scripts| - 1]];
    }
  }

  /** Inserting the next script extends the set of a prefix to the set of the longer prefix. */
  lemma SetOfNextPrefix(scripts: seq<Script>, n: nat)
    requires n < |scripts|
    ensures SetOf(scripts[..n + 1]) == SetOf(scripts[..n]) + {scripts[n]}
  {
    assert scripts[..n + 1][..n] == scripts[..n];
  }

  predicate Distinct(scripts: seq<Script>) {
    forall i, j :: 0 <= i < j < |scripts| ==> scripts[i] != scripts[j]
  }

  /** Without duplicate scripts the set holds exactly as many scripts as the dump yielded. */
  lemma {:induction false} DistinctScriptsCardinality(scripts: seq<Script>)
    requires Distinct(scripts)
    ensures |SetOf(scripts)| == |scripts|
  {
    if |scripts| > 0 {
      var init := scripts[..|scripts| - 1];
      var last := scripts[|scripts| - 1];
      assert Distinct(init);
      DistinctScriptsCardinality(init);
      assert last !in init;
      SetOfMembers(init);
      assert last !in SetOf(init);
    }
  }

  /** The first `m` step durations. */
  function Samples(stepMicros: nat -> nat, m: nat): seq<nat> {
    seq(m, i requires 0 <= i => stepMicros(i))
  }

  /**
   * The loop's integer cumulative mean: after the k-th sample `x` the average
   * becomes `(x + (k - 1) * average) / k`, rounded down.
   */
  function CumulativeMean(samples: seq<nat>): nat {
    if |samples| == 0 then 0
    else
      var k := |samples|;
      NextAverage(samples[k - 1], k, CumulativeMean(samples[..k - 1]))
  }

  /** The loop's update of the running average when the k-th sample `x` arrives. */
  function NextAverage(x: nat, k: nat, average: nat): nat
    requires k >= 1
  {
    MulIsNat(k - 1, average);
    var total: int := x + (k - 1) * average;
    total / k
  }

  lemma MulIsNat(a: nat, b: nat)
    ensures a * b >= 0
  {
  }

  function MinOf(samples: seq<nat>): nat
    requires |samples| >= 1
  {
    if |samples| == 1 then samples[0]
    else
      var m := MinOf(samples[..|samples| - 1]);
      if samples[|samples| - 1] < m then samples[|samples| - 1] else m
  }

  function MaxOf(samples: seq<nat>): nat
    requires |samples| >= 1
  {
    if |samples| == 1 then samples[0]
    else
      var m := MaxOf(samples[..|samples| - 1]);
      if samples[|samples| - 1] > m then samples[|samples| - 1] else m
  }

  lemma MulMonotone(k: nat, a: nat, b: nat)
    requires a <= b
    ensures k * a <= k * b
  {
    assert k * b == k * a + k * (b - a);
  }

  lemma {:induction false} MulCancelStrict(k: nat, a: nat, b: nat)
    requires k * a < k * b
    ensures a < b
  {
    if a > 0 && b > 0 {
      assert k * (a - 1) == k * a - k && k * (b - 1) == k * b - k;
      MulCancelStrict(k, a - 1, b - 1);
    } else if b == 0 {
      MulMonotone(k, 0, a);
    }
  }

  lemma MulSucc(j: nat, a: nat)
    ensures (j + 1) * a == a + j * a
  {
  }

  lemma DivisionBetweenBounds(sum: nat, k: nat, lo: nat, hi: nat)
    requires k >= 1 && k * lo <= sum <= k * hi
    ensures lo <= sum / k <= hi
  {
    var q := sum / k;
    assert sum == k * q + sum % k && sum % k < k;
    assert k * (q + 1) == k * q + k;
    MulCancelStrict(k, lo, q + 1);
    assert k * (hi + 1) == k * hi + k;
    MulCancelStrict(k, q, hi + 1);
  }

  lemma ScaleBetweenBounds(k: nat, m: nat, lo: nat, hi: nat)
    requires lo <= m <= hi
    ensures k * lo <= k * m <= k * hi
  {
    MulMonotone(k, lo, m);
    MulMonotone(k, m, hi);
  }

  /**
   * The running average equals the first sample after one step, and it never
   * leaves the range of the samples seen so far.
   */
  lemma {:induction false} MeanWithinSamples(samples: seq<nat>)
    requires |samples| >= 1
    ensures MinOf(samples) <= CumulativeMean(samples) <= MaxOf(samples)
    ensures |samples| == 1 ==> CumulativeMean(samples) == samples[0]
  {
    var k := |samples|;
    var x := samples[k - 1];
    if k > 1 {
      var j := k - 1;
      var init := samples[..j];
      MeanWithinSamples(init);
      var m := CumulativeMean(init);
      var lo := MinOf(samples);
      var hi := MaxOf(samples);
      assert lo <= MinOf(init) && MaxOf(init) <= hi;
      assert lo <= x <= hi;
      ScaleBetweenBounds(j, m, lo, hi);
      MulIsNat(j, m);
      var sum := x + j * m;
      assert CumulativeMean(samples) == sum / k;
      MulSucc(j, lo);
      MulSucc(j, hi);
      DivisionBetweenBounds(sum, k, lo, hi);
    }
  }

  /** The estimate logged, in minutes: one more than the whole minutes left at the average pace. */
  function EtaMinutes(averageStepMicros: nat, stepsRemaining: nat): (minutes: nat)
    ensures minutes >= 1
    ensures averageStepMicros * stepsRemaining < MicrosPerMinute ==> minutes == 1
  {
    1 + averageStepMicros * stepsRemaining / MicrosPerMinute
  }

  /** The report logged after the k-th full step of a dump announcing `totalLoops` records. */
  function ReportAfterStep(totalLoops: nat, stepMicros: nat -> nat, k: nat): ProgressReport
    requires 1 <= k <= totalLoops / StepSize
  {
    var average := CumulativeMean(Samples(stepMicros, k));
    ProgressReport(k * StepSize, totalLoops, average, EtaMinutes(average, totalLoops / StepSize - k))
  }

  /** The reports logged after `m` full steps. */
  function ReportsAfterSteps(totalLoops: nat, stepMicros: nat -> nat, m: nat): (r: seq<ProgressReport>)
    requires m <= totalLoops / StepSize
    ensures |r| == m
  {
    if m == 0 then [] else ReportsAfterSteps(totalLoops, stepMicros, m - 1) + [ReportAfterStep(totalLoops, stepMicros, m)]
  }

  /** The i-th report logged is the one for step i + 1: one report per full step, in order. */
  lemma {:induction false} ReportsListEveryStep(totalLoops: nat, stepMicros: nat -> nat, m: nat)
    requires m <= totalLoops / StepSize
    ensures forall i :: 0 <= i < m ==>
      ReportsAfterSteps(totalLoops, stepMicros, m)[i] == ReportAfterStep(totalLoops, stepMicros, i + 1)
  {
    if m > 0 {
      ReportsListEveryStep(totalLoops, stepMicros, m - 1);
    }
  }

  /** One more record completes a step exactly when the new count is a multiple of `StepSize`. */
  lemma StepCountAfterRecord(loopsDone: nat)
    ensures (loopsDone + 1) / StepSize == loopsDone / StepSize + (if (loopsDone + 1) % StepSize == 0 then 1 else 0)
  {
  }

  /** The loop's update of the running average extends the cumulative mean by one sample. */
  lemma AverageAfterStep(stepMicros: nat -> nat, k: nat, average: nat)
    requires k >= 1 && average == CumulativeMean(Samples(stepMicros, k - 1))
    ensures NextAverage(stepMicros(k - 1), k, average) == CumulativeMean(Samples(stepMicros, k))
  {
    assert Samples(stepMicros, k)[..k - 1] == Samples(stepMicros, k - 1);
  }

  /** The report logged after the k-th full step extends the reports of the first k - 1 steps. */
  lemma ReportsGrowByOne(totalLoops: nat, stepMicros: nat -> nat, k: nat, loopsDone: nat, average: nat,
                         stepsRemaining: nat, reports: seq<ProgressReport>)
    requires 1 <= k <= totalLoops / StepSize && stepsRemaining == totalLoops / StepSize - k
    requires loopsDone == k * StepSize && average == CumulativeMean(Samples(stepMicros, k))
    requires reports == ReportsAfterSteps(totalLoops, stepMicros, k - 1)
    ensures reports + [ProgressReport(loopsDone, totalLoops, average, EtaMinutes(average, stepsRemaining))]
            == ReportsAfterSteps(totalLoops, stepMicros, k)
  {
  }

  /** True when the loop's check, made after `loopsDone` records, sees the token cancelled. */
  predicate IsCancelled(cancelAt: Option<nat>, loopsDone: nat) {
    cancelAt.Some? && cancelAt.value <= loopsDone
  }

  /** Records the loop would insert before it stops, ignoring the step counter. */
  function RecordsBeforeStop(dump: Dump, cancelAt: Option<nat>): nat {
    if IsCancelled(cancelAt, |dump.scripts|) then cancelAt.value else |dump.scripts|
  }

  /** The record whose insertion makes `steps_remaining` go below zero. */
  function UnderflowPoint(dump: Dump): nat {
    (dump.utxoSetSize / StepSize + 1) * StepSize
  }

  function ExpectedExit(dump: Dump, cancelAt: Option<nat>): LoopExit {
    if RecordsBeforeStop(dump, cancelAt) >= UnderflowPoint(dump) then StepCounterUnderflow
    else if IsCancelled(cancelAt, |dump.scripts|) then Cancelled
    else Exhausted
  }

  function RecordsInserted(dump: Dump, cancelAt: Option<nat>): (n: nat)
    ensures n <= |dump.scripts|
  {
    var p := RecordsBeforeStop(dump, cancelAt);
    if p >= UnderflowPoint(dump) then UnderflowPoint(dump) else p
  }

  /** Steps completed (and reported) when the loop stops. */
  function StepsReported(dump: Dump, cancelAt: Option<nat>): (m: nat)
    ensures m <= dump.utxoSetSize / StepSize
  {
    var n := RecordsInserted(dump, cancelAt);
    if n / StepSize > dump.utxoSetSize / StepSize then dump.utxoSetSize / StepSize else n / StepSize
  }

  /** A dump whose header count matches what it yields never overflows the step counter. */
  lemma HonestHeaderNeverUnderflows(dump: Dump, cancelAt: Option<nat>)
    requires |dump.scripts| <= dump.utxoSetSize
    ensures ExpectedExit(dump, cancelAt) != StepCounterUnderflow
    ensures ExpectedExit(dump, cancelAt) == Exhausted <==> !IsCancelled(cancelAt, |dump.scripts|)
  {
    var h := dump.utxoSetSize / StepSize;
    assert dump.utxoSetSize < (h + 1) * StepSize;
  }

  /** Where the loop stands when its check first sees the token cancelled. */
  lemma StopOnCancel(dump: Dump, cancelAt: Option<nat>, loopsDone: nat)
    requires loopsDone <= |dump.scripts| && loopsDone / StepSize <= dump.utxoSetSize / StepSize
    requires IsCancelled(cancelAt, loopsDone) && cancelAt.value >= loopsDone
    ensures ExpectedExit(dump, cancelAt) == Cancelled
    ensures RecordsInserted(dump, cancelAt) == loopsDone
    ensures StepsReported(dump, cancelAt) == loopsDone / StepSize
  {
    var h := dump.utxoSetSize / StepSize;
    assert loopsDone < (h + 1) * StepSize;
  }

  /** Where the loop stands when the dump yields `None`. */
  lemma StopOnExhaustion(dump: Dump, cancelAt: Option<nat>, loopsDone: nat)
    requires loopsDone == |dump.scripts| && loopsDone / StepSize <= dump.utxoSetSize / StepSize
    requires !IsCancelled(cancelAt, loopsDone)
    ensures ExpectedExit(dump, cancelAt) == Exhausted
    ensures RecordsInserted(dump, cancelAt) == loopsDone
    ensures StepsReported(dump, cancelAt) == loopsDone / StepSize
  {
    var h := dump.utxoSetSize / StepSize;
    assert loopsDone < (h + 1) * StepSize;
  }

  /** Where the loop stands when a record completes one step more than the header announced. */
  lemma StopOnUnderflow(dump: Dump, cancelAt: Option<nat>, loopsDone: nat)
    requires loopsDone <= |dump.scripts| && (cancelAt.None? || loopsDone <= cancelAt.value)
    requires loopsDone % StepSize == 0 && loopsDone / StepSize == dump.utxoSetSize / StepSize + 1
    ensures ExpectedExit(dump, cancelAt) == StepCounterUnderflow
    ensures RecordsInserted(dump, cancelAt) == loopsDone
    ensures StepsReported(dump, cancelAt) == dump.utxoSetSize / StepSize
  {
    assert loopsDone == UnderflowPoint(dump);
  }

  /**
   * The body of the worker task: insert every script the dump yields into a
   * fresh set, checking the cancellation token before each record and logging
   * progress after every `StepSize` records. Writing the status and handing
   * the set over are left to the caller.
   */
  method PopulateLoop(dump: Dump, cancelAt: Option<nat>, stepMicros: nat -> nat)
    returns (exit: LoopExit, inserted: set<Script>, reports: seq<ProgressReport>)
    ensures exit == ExpectedExit(dump, cancelAt)
    ensures inserted == SetOf(dump.scripts[..RecordsInserted(dump, cancelAt)])
    ensures exit == Exhausted ==> inserted == SetOf(dump.scripts)
    ensures reports == ReportsAfterSteps(dump.utxoSetSize, stepMicros, StepsReported(dump, cancelAt))
  {
    var totalLoops := dump.utxoSetSize;
    var loopsDone: nat := 0;
    var stepsDone: nat := 0;
    var stepsRemaining: nat := totalLoops / StepSize;
    var average: nat := 0;
    var collected: set<Script> := {};
    reports := [];
    while !IsCancelled(cancelAt, loopsDone)
      invariant loopsDone <= |dump.scripts|
      invariant cancelAt.None? || loopsDone <= cancelAt.value
      invariant stepsDone == loopsDone / StepSize
      invariant stepsDone + stepsRemaining == totalLoops / StepSize
      invariant collected == SetOf(dump.scripts[..loopsDone])
      invariant average == CumulativeMean(Samples(stepMicros, stepsDone))
      invariant reports == ReportsAfterSteps(totalLoops, stepMicros, stepsDone)
      decreases |dump.scripts| - loopsDone
    {
      if loopsDone < |dump.scripts| {
        SetOfNextPrefix(dump.scripts, loopsDone);
        collected := collected + {dump.scripts[loopsDone]};
        StepCountAfterRecord(loopsDone);
        loopsDone := loopsDone + 1;
        if loopsDone % StepSize == 0 {
          stepsDone := stepsDone + 1;
          if stepsRemaining == 0 {
            StopOnUnderflow(dump, cancelAt, loopsDone);
            exit, inserted := StepCounterUnderflow, collected;
            return;
          }
          stepsRemaining := stepsRemaining - 1;
          AverageAfterStep(stepMicros, stepsDone, average);
          average := NextAverage(stepMicros(stepsDone - 1), stepsDone, average);
          ReportsGrowByOne(totalLoops, stepMicros, stepsDone, loopsDone, average, stepsRemaining, reports);
          reports := reports + [ProgressReport(loopsDone, totalLoops, average, EtaMinutes(average, stepsRemaining))];
        }
      } else {
        assert dump.scripts[..loopsDone] == dump.scripts;
        StopOnExhaustion(dump, cancelAt, loopsDone);
        exit, inserted := Exhausted, collected;
        return;
      }
    }
    StopOnCancel(dump, cancelAt, loopsDone);
    exit, inserted := Cancelled, collected;
  }

  /** `UnspentScriptPubKeysSet`: the shared set and its status slot. */
  class UnspentScriptPubKeysSet {
    /** The source's `set` field. */
    var inner: set<Script>
    var status: UspkSetStatus

    /** `new()`: an empty set whose status is `Empty`. */
    constructor ()
      ensures inner == {} && status == Empty
    {
      inner := {};
      status := Empty;
    }

    /**
     * `populate_with_dump_file`: `dumpOpen` is the result of opening the dump,
     * which fails before anything changes. Otherwise the status becomes
     * `Populating`; only when the dump is exhausted is the fresh set handed
     * over, replacing the old one wholesale, and the status set to `Ready`.
     * A cancelled or overflowing loop never sends the set, so awaiting it
     * panics and the status stays `Populating`.
     */
    method PopulateWithDumpFile(dumpOpen: Result<Dump, RetrieverError>, cancelAt: Option<nat>, stepMicros: nat -> nat)
      returns (outcome: PopulateOutcome, progress: seq<ProgressReport>)
      modifies this
      ensures dumpOpen.Err? ==> outcome == Failed(dumpOpen.error) && progress == []
      ensures dumpOpen.Err? ==> inner == old(inner) && status == old(status)
      ensures outcome == Populated <==> dumpOpen.Ok? && ExpectedExit(dumpOpen.value, cancelAt) == Exhausted
      ensures outcome == Panicked <==> dumpOpen.Ok? && ExpectedExit(dumpOpen.value, cancelAt) != Exhausted
      ensures outcome == Populated ==> inner == SetOf(dumpOpen.value.scripts) && status == Ready
      ensures outcome == Panicked ==> inner == old(inner) && status == Populating
      ensures dumpOpen.Ok? ==> progress == ReportsAfterSteps(dumpOpen.value.utxoSetSize, stepMicros, StepsReported(dumpOpen.value, cancelAt))
    {
      if dumpOpen.Err? {
        return Failed(dumpOpen.error), [];
      }
      var dump := dumpOpen.value;
      status := Populating;
      var exit, built;
      exit, built, progress := PopulateLoop(dump, cancelAt, stepMicros);
      if exit == Exhausted {
        status := Ready;
        inner := built;
        outcome := Populated;
      } else {
        outcome := Panicked;
      }
    }

    /** `get_immutable_inner_set`: the current set, shared read-only. */
    function GetImmutableInnerSet(): set<Script>
      reads this
    {
      inner
    }

    /** `get_status`: the value in the status slot. */
    function GetStatus(): UspkSetStatus
      reads this
    {
      status
    }

    /** `is_empty`: whether the set holds no script. */
    function IsEmpty(): (r: bool)
      reads this
      ensures r <==> forall x :: x !in inner
    {
      |inner| == 0
    }
  }
}
