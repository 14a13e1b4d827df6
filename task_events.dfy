/**
 * The `statusChange` events the status setter of `BaseTask` emits, and the
 * event log produced by a sequence of assignments to the status.
 */
module TaskEvents {
  import opened TaskStatus

  /**
   * The payload of one `statusChange` event: the rounded status before and
   * after the change and the task that changed. The event's date is not
   * modelled.
   */
  datatype TaskEventData<T> = TaskEventData(previousStatus: int, currentStatus: int, task: T)

  /**
   * The events one assignment of `to` emits on `task` when the stored raw
   * status is `raw`: none when the raw values are equal, otherwise exactly
   * one, carrying the rounded old and new raw values.
   */
  function Emitted<T>(task: T, raw: int, to: int): (e: seq<TaskEventData<T>>)
    ensures |e| <= 1
    ensures |e| == 1 <==> to != raw
    ensures forall ev :: ev in e ==>
              ev.previousStatus == Round(raw) && ev.currentStatus == Round(to) && ev.task == task
  {
    if to == raw then [] else [TaskEventData(Round(raw), Round(to), task)]
  }

  /** The raw status stored after assigning each value of `tos` in turn, starting from `raw`. */
  function Final(raw: int, tos: seq<int>): int {
    if tos == [] then raw else tos[|tos| - 1]
  }

  /** The events emitted on `task` by assigning each value of `tos` in turn, starting from `raw`. */
  function Trace<T>(task: T, raw: int, tos: seq<int>): (r: seq<TaskEventData<T>>)
    ensures |r| <= |tos|
    decreases |tos|
  {
    if tos == [] then [] else Emitted(task, raw, tos[0]) + Trace(task, tos[0], tos[1..])
  }

  /**
   * A log of events is chained from bucket `first` to bucket `last`: each
   * event starts from the bucket the previous one ended in, the first starts
   * from `first`, the last ends in `last`, and an empty log leaves the
   * bucket where it was.
   */
  ghost predicate Chained<T>(events: seq<TaskEventData<T>>, first: int, last: int) {
    if events == [] then first == last
    else
      && events[0].previousStatus == first
      && events[|events| - 1].currentStatus == last
      && forall i :: 0 < i < |events| ==> events[i].previousStatus == events[i - 1].currentStatus
  }

  /** Assigning one more value appends exactly the events of that one assignment. */
  lemma {:induction false} TraceAppend<T>(task: T, raw: int, tos: seq<int>, to: int)
    ensures Final(raw, tos + [to]) == to
    ensures Trace(task, raw, tos + [to]) == Trace(task, raw, tos) + Emitted(task, Final(raw, tos), to)
    decreases |tos|
  {
    if tos == [] {
      assert [to][1..] == [];
    } else {
      var rest := tos[1..];
      assert (tos + [to])[0] == tos[0] && (tos + [to])[1..] == rest + [to];
      TraceAppend(task, tos[0], rest, to);
      assert Final(raw, tos) == Final(tos[0], rest);
      calc {
        Trace(task, raw, tos + [to]);
        Emitted(task, raw, tos[0]) + Trace(task, tos[0], rest + [to]);
        Emitted(task, raw, tos[0]) + (Trace(task, tos[0], rest) + Emitted(task, Final(raw, tos), to));
        (Emitted(task, raw, tos[0]) + Trace(task, tos[0], rest)) + Emitted(task, Final(raw, tos), to);
      }
    }
  }

  /** Every event in a log of assignments names the task that was assigned to. */
  lemma {:induction false} TraceTask<T>(task: T, raw: int, tos: seq<int>)
    ensures forall ev :: ev in Trace(task, raw, tos) ==> ev.task == task
    decreases |tos|
  {
    if tos != [] {
      TraceTask(task, tos[0], tos[1..]);
    }
  }

  /** No event is emitted exactly when every assigned value equals the starting raw status. */
  lemma {:induction false} TraceSilent<T>(task: T, raw: int, tos: seq<int>)
    ensures Trace(task, raw, tos) == [] <==> forall i :: 0 <= i < |tos| ==> tos[i] == raw
    decreases |tos|
  {
    if tos != [] {
      TraceSilent(task, tos[0], tos[1..]);
      if tos[0] == raw && Trace(task, raw, tos) == [] {
        forall i | 0 <= i < |tos| ensures tos[i] == raw {
          if i > 0 { assert tos[i] == tos[1..][i - 1]; }
        }
      }
    }
  }

  /** The event log of any sequence of assignments is chained from the first bucket to the last. */
  lemma {:induction false} TraceChained<T>(task: T, raw: int, tos: seq<int>)
    ensures Chained(Trace(task, raw, tos), Round(raw), Round(Final(raw, tos)))
    decreases |tos|
  {
    if tos != [] {
      var rest := Trace(task, tos[0], tos[1..]);
      TraceChained(task, tos[0], tos[1..]);
      assert Final(raw, tos) == Final(tos[0], tos[1..]);
      if tos[0] != raw {
        var e := TaskEventData(Round(raw), Round(tos[0]), task);
        assert Trace(task, raw, tos) == [e] + rest;
        ChainedCons(e, rest, Round(tos[0]), Round(Final(raw, tos)));
      }
    }
  }

  /** Putting an event in front of a chained log that starts where the event ends keeps it chained. */
  lemma ChainedCons<T>(e: TaskEventData<T>, events: seq<TaskEventData<T>>, first: int, last: int)
    requires Chained(events, first, last)
    requires e.currentStatus == first
    ensures Chained([e] + events, e.previousStatus, last)
  {
  }

  /** The default `run()` a second time emits nothing more than the first. */
  lemma RunTwice<T>(task: T, raw: int)
    ensures Trace(task, raw, [DONE, DONE]) == Trace(task, raw, [DONE])
  {
  }

  /**
   * The no-op guard compares raw values, not buckets: moving from 100 to 101
   * emits an event although both round to IN_PROGRESS.
   */
  lemma GuardComparesRawValues<T>(task: T)
    ensures Emitted(task, IN_PROGRESS, IN_PROGRESS + 1) == [TaskEventData(IN_PROGRESS, IN_PROGRESS, task)]
  {
  }
}
