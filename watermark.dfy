/**
 * The expression watermark generator of a worker: it forwards every batch,
 * tracks the largest watermark it has seen and the event time of its last
 * emission, emits the batch's watermark when enough event time has passed
 * (or when it was idle), and declares itself idle when no batch arrives for
 * a while. Times are nanoseconds since the Unix epoch; the clock reading,
 * the batch's timestamp column and its evaluated watermark column are
 * inputs, and every broadcast watermark is appended to `emitted`.
 */
module Watermark {
  import opened Common

  /** Nanoseconds since the Unix epoch. */
  type Time = nat

  const Epoch: Time := 0

  /** `from_nanos(u64::MAX)`: the final watermark, far enough out to stand for "never". */
  const FarFuture: Time := 0xFFFF_FFFF_FFFF_FFFF

  /** The per-task state kept in the checkpointed table. */
  datatype WatermarkGeneratorState = WatermarkGeneratorState(lastWatermarkEmittedAt: Time, maxWatermark: Time)

  const InitialState: WatermarkGeneratorState := WatermarkGeneratorState(Epoch, Epoch)

  datatype Watermark = EventTime(time: Time) | Idle

  /** The control message a task may close with. */
  datatype SignalMessage = BarrierSignal | WatermarkSignal(watermark: Watermark) | StopSignal | EndOfData

  /** `aggregate::max` over a nullable column: the largest present value, absent if there is none. */
  function Maximum(column: seq<Option<Time>>): (r: Option<Time>)
    ensures r.None? <==> forall i :: 0 <= i < |column| ==> column[i].None?
    ensures r.Some? ==> exists i :: 0 <= i < |column| && column[i] == r
    ensures r.Some? ==> forall i :: 0 <= i < |column| && column[i].Some? ==> column[i].value <= r.value
  {
    if column == [] then None
    else
      var init := Maximum(column[..|column| - 1]);
      var last := column[|column| - 1];
      assert forall i :: 0 <= i < |column| - 1 ==> column[..|column| - 1][i] == column[i];
      if last.None? then init
      else if init.None? || init.value < last.value then last
      else init
  }

  /** `aggregate::min` over a nullable column: the smallest present value, absent if there is none. */
  function Minimum(column: seq<Option<Time>>): (r: Option<Time>)
    ensures r.None? <==> forall i :: 0 <= i < |column| ==> column[i].None?
    ensures r.Some? ==> exists i :: 0 <= i < |column| && column[i] == r
    ensures r.Some? ==> forall i :: 0 <= i < |column| && column[i].Some? ==> r.value <= column[i].value
  {
    if column == [] then None
    else
      var init := Minimum(column[..|column| - 1]);
      var last := column[|column| - 1];
      assert forall i :: 0 <= i < |column| - 1 ==> column[..|column| - 1][i] == column[i];
      if last.None? then init
      else if init.None? || last.value < init.value then last
      else init
  }

  /** `later.duration_since(earlier).unwrap_or(ZERO)`: elapsed time, zero when `later` is earlier. */
  function Elapsed(later: Time, earlier: Time): (d: nat)
    ensures later >= earlier ==> d + earlier == later
    ensures later < earlier ==> d == 0
  {
    if later >= earlier then later - earlier else 0
  }

  /**
   * Whether a batch whose largest timestamp is `maxTimestamp` emits a
   * watermark: when idle, or when the timestamp lies more than one interval
   * after the last emission; a timestamp at or before the last emission
   * never emits unless idle.
   */
  function ShouldEmit(idle: bool, maxTimestamp: Time, lastEmittedAt: Time, interval: nat): (b: bool)
    ensures b <==> idle || maxTimestamp > lastEmittedAt + interval
  {
    idle || Elapsed(maxTimestamp, lastEmittedAt) > interval
  }

  /** The state `on_start` restores for a task: the stored one, or the epoch defaults. */
  function Restore(stored: map<nat, WatermarkGeneratorState>, taskIndex: nat): (r: WatermarkGeneratorState)
    ensures taskIndex in stored ==> r == stored[taskIndex]
    ensures taskIndex !in stored ==> r == InitialState
  {
    if taskIndex in stored then stored[taskIndex] else InitialState
  }

  class WatermarkGenerator {
    /** The least event time between two emissions. */
    const interval: nat
    /** How long without a batch makes the worker idle, if ever. */
    const idleTime: Option<nat>
    var stateCache: WatermarkGeneratorState
    /** Clock reading at the last batch (or at start). */
    var lastEvent: Time
    var idle: bool
    /** Every watermark broadcast so far, oldest first. */
    var emitted: seq<Watermark>

    /** `WatermarkGenerator::expression`: epoch state, not idle, last event now. */
    constructor Expression(interval: nat, idleTime: Option<nat>, now: Time)
      ensures this.interval == interval && this.idleTime == idleTime
      ensures stateCache == InitialState && lastEvent == now && !idle && emitted == []
    {
      this.interval := interval;
      this.idleTime := idleTime;
      stateCache := InitialState;
      lastEvent := now;
      idle := false;
      emitted := [];
    }

    /** `on_start`: restore this task's checkpointed state and restart the idle clock. */
    method OnStart(stored: map<nat, WatermarkGeneratorState>, taskIndex: nat, now: Time)
      modifies this
      ensures stateCache == Restore(stored, taskIndex) && lastEvent == now
      ensures idle == old(idle) && emitted == old(emitted)
    {
      lastEvent := now;
      stateCache := Restore(stored, taskIndex);
    }

    /**
     * `process_batch`: `timestamps` is the batch's event-time column and
     * `watermarks` the watermark expression evaluated over it. A batch
     * with no timestamp leaves the state alone; otherwise the largest
     * watermark is updated and, when due, the batch's smallest watermark
     * is emitted and the emission time becomes the batch's largest
     * timestamp. The caller must supply a watermark for a batch with a
     * timestamp (the source unwraps it).
     */
    method ProcessBatch(timestamps: seq<Option<Time>>, watermarks: seq<Option<Time>>, now: Time)
      requires Maximum(timestamps).Some? ==> Minimum(watermarks).Some?
      modifies this
      ensures lastEvent == now
      ensures Maximum(timestamps).None? ==>
        stateCache == old(stateCache) && idle == old(idle) && emitted == old(emitted)
      ensures Maximum(timestamps).Some? ==>
        var maxTimestamp := Maximum(timestamps).value;
        var watermark := Minimum(watermarks).value;
        && stateCache.maxWatermark == (if old(stateCache.maxWatermark) < watermark then watermark else old(stateCache.maxWatermark))
        && (if ShouldEmit(old(idle), maxTimestamp, old(stateCache.lastWatermarkEmittedAt), interval)
            then stateCache.lastWatermarkEmittedAt == maxTimestamp && !idle && emitted == old(emitted) + [EventTime(watermark)]
            else stateCache.lastWatermarkEmittedAt == old(stateCache.lastWatermarkEmittedAt) && idle == old(idle) && emitted == old(emitted))
      ensures stateCache.maxWatermark >= old(stateCache.maxWatermark)
    {
      lastEvent := now;
      var maxTimestamp := Maximum(timestamps);
      if maxTimestamp.None? {
        return;
      }
      var watermark := Minimum(watermarks).value;
      if stateCache.maxWatermark < watermark {
        stateCache := stateCache.(maxWatermark := watermark);
      }
      if idle || Elapsed(maxTimestamp.value, stateCache.lastWatermarkEmittedAt) > interval {
        emitted := emitted + [EventTime(watermark)];
        stateCache := stateCache.(lastWatermarkEmittedAt := maxTimestamp.value);
        idle := false;
      }
    }

    /**
     * `handle_tick`: with an idle timeout, a generator that is not idle and
     * has seen no batch for longer than the timeout emits `Idle` and
     * becomes idle; a generator already idle emits nothing.
     */
    method HandleTick(now: Time)
      modifies this
      ensures stateCache == old(stateCache) && lastEvent == old(lastEvent)
      ensures var goesIdle := idleTime.Some? && Elapsed(now, old(lastEvent)) > idleTime.value && !old(idle);
        && (goesIdle ==> idle && emitted == old(emitted) + [Idle])
        && (!goesIdle ==> idle == old(idle) && emitted == old(emitted))
    {
      if idleTime.Some? {
        if Elapsed(now, lastEvent) > idleTime.value && !idle {
          emitted := emitted + [Idle];
          idle := true;
        }
      }
    }

    /** `on_close`: the far-future watermark after end of data, nothing otherwise. */
    method OnClose(finalMessage: Option<SignalMessage>)
      modifies this
      ensures stateCache == old(stateCache) && lastEvent == old(lastEvent) && idle == old(idle)
      ensures finalMessage == Some(EndOfData) ==> emitted == old(emitted) + [EventTime(FarFuture)]
      ensures finalMessage != Some(EndOfData) ==> emitted == old(emitted)
    {
      if finalMessage == Some(EndOfData) {
        emitted := emitted + [EventTime(FarFuture)];
      }
    }

    /**
     * `handle_checkpoint`: this task index's entry of the state table becomes the
     * current state, so a restart of this task restores it, and no other
     * task's entry changes.
     */
    method HandleCheckpoint(stored: map<nat, WatermarkGeneratorState>, taskIndex: nat)
      returns (updated: map<nat, WatermarkGeneratorState>)
      ensures updated == stored[taskIndex := stateCache]
      ensures Restore(updated, taskIndex) == stateCache
      ensures forall t :: t != taskIndex ==> Restore(updated, t) == Restore(stored, t)
    {
      updated := stored[taskIndex := stateCache];
    }
  }

  /**
   * The emitted watermark is the batch's smallest watermark, not the largest
   * seen: a later batch with smaller watermarks emits a smaller one, while
   * the tracked maximum stays put.
   */
  method EmittedWatermarkCanRegress() returns (emitted: seq<Watermark>, maxWatermark: Time)
    ensures emitted == [EventTime(10), EventTime(5)]
    ensures maxWatermark == 10
  {
    var g := new WatermarkGenerator.Expression(0, None, 0);
    g.ProcessBatch([Some(100)], [Some(10)], 1);
    g.ProcessBatch([Some(200)], [Some(5)], 2);
    emitted := g.emitted;
    maxWatermark := g.stateCache.maxWatermark;
  }
}
