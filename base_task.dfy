/**
 * `BaseTask`: a unit of work with a raw status field, a guarded status setter
 * that emits `statusChange` events, a default `run()` and opaque options.
 *
 * The event emitter base class is modelled by the log `events` of every
 * event emitted, in order; delivery to listeners is not modelled.
 */
module Task {
  import opened TaskStatus
  import opened TaskEvents

  datatype Option<T> = None | Some(value: T)

  /** A JSON-schema descriptor for options, as an object of named constraints. */
  type Schema = map<string, string>

  class BaseTask<O> {
    /** The raw status (`_status`), fine-grained, possibly between anchors. */
    var rawStatus: int
    /** The options last stored by `setOptions`; `None` stands for `undefined`. */
    var options: Option<O>
    /** Every `statusChange` event emitted so far, oldest first. */
    var events: seq<TaskEventData<BaseTask<O>>>
    /** Every value ever assigned to the status, in order. */
    ghost var history: seq<int>

    /** The status and the event log are those of replaying every assignment from PENDING. */
    ghost predicate Valid()
      reads this
    {
      && rawStatus == Final(PENDING, history)
      && events == Trace(this, PENDING, history)
    }

    constructor ()
      ensures Valid()
      ensures rawStatus == PENDING && events == [] && options == None && history == []
    {
      rawStatus := PENDING;
      options := None;
      events := [];
      history := [];
    }

    /** The `status` getter: the raw status, not rounded. */
    function Status(): (s: int)
      reads this
      ensures s == rawStatus
    {
      rawStatus
    }

    /** `getStatus()`: the bucket the raw status falls in. */
    function GetStatus(): (s: int)
      reads this
      ensures s == Round(rawStatus)
      ensures s % BUCKET == 0
      ensures rawStatus >= 0 ==> s <= rawStatus < s + BUCKET
    {
      Round(rawStatus)
    }

    /**
     * The `status` setter. Assigning the stored raw value is a no-op that
     * emits nothing; any other value is stored and emits one event with the
     * buckets of the old and the new raw value.
     */
    method SetStatus(to: int)
      requires Valid()
      modifies this`rawStatus, this`events, this`history
      ensures Valid() && history == old(history) + [to]
      ensures rawStatus == to
      ensures events == old(events) + Emitted(this, old(rawStatus), to)
      ensures to == old(rawStatus) ==> events == old(events)
      ensures to != old(rawStatus) ==>
                events == old(events) + [TaskEventData(Round(old(rawStatus)), Round(to), this)]
      ensures options == old(options)
    {
      TraceAppend(this, PENDING, history, to);
      history := history + [to];
      if to == rawStatus {
        return;
      }
      var previousStatus := GetStatus();
      rawStatus := to;
      var currentStatus := GetStatus();
      events := events + [TaskEventData(previousStatus, currentStatus, this)];
    }

    /** The default `run()`: set the status to DONE. */
    method Run()
      requires Valid()
      modifies this`rawStatus, this`events, this`history
      ensures Valid() && history == old(history) + [DONE]
      ensures rawStatus == DONE && GetStatus() == DONE
      ensures old(rawStatus) == DONE ==> events == old(events)
      ensures old(rawStatus) != DONE ==>
                events == old(events) + [TaskEventData(Round(old(rawStatus)), DONE, this)]
      ensures options == old(options)
    {
      RoundAnchors();
      SetStatus(DONE);
    }

    /** `getOptionsSchema()`: the base task accepts any options, so its schema constrains nothing. */
    function GetOptionsSchema(): (schema: Schema)
      ensures |schema| == 0
    {
      map[]
    }

    /** `setOptions`: store the options verbatim, without validation. */
    method SetOptions(o: O)
      requires Valid()
      modifies this`options
      ensures Valid() && options == Some(o)
      ensures rawStatus == old(rawStatus) && events == old(events) && history == old(history)
    {
      options := Some(o);
    }

    /**
     * What the event log of a task says at any time: each event starts from
     * the bucket the previous one ended in, the first from PENDING, the last
     * ends in the current bucket; every event names this task; there is at
     * most one per assignment; and a task that never emitted is still PENDING.
     */
    lemma EventLog()
      requires Valid()
      ensures Chained(events, PENDING, GetStatus())
      ensures forall ev :: ev in events ==> ev.task == this
      ensures |events| <= |history|
      ensures events == [] ==> rawStatus == PENDING
    {
      TraceChained(this, PENDING, history);
      TraceTask(this, PENDING, history);
      TraceSilent(this, PENDING, history);
    }
  }

  /**
   * The behaviour the task interface tests describe; there the setter is
   * called `updateStatus` and `getStatus` is called `getRoundedStatus`.
   */
  method TaskInterfaceScenario() {
    RoundAnchors();
    var task := new BaseTask<int>();
    assert task.GetStatus() == PENDING;
    task.SetStatus(DONE);
    assert task.events == [TaskEventData(PENDING, DONE, task)];
    assert task.events[0].task.GetStatus() == DONE;

    var idle := new BaseTask<int>();
    idle.SetStatus(idle.GetStatus());
    assert idle.events == [];

    var custom := new BaseTask<int>();
    custom.SetStatus(IN_PROGRESS + 1);
    assert custom.GetStatus() == IN_PROGRESS;
  }

  /**
   * A status history: PENDING to DONE emits (0, 200), a repeated DONE emits
   * nothing, 101 emits (200, 100), 100 then emits (100, 100), and `run()`
   * emits once however often it is called.
   */
  method StatusHistoryScenario() {
    RoundAnchors();
    var task := new BaseTask<int>();
    task.SetStatus(DONE);
    task.SetStatus(DONE);
    assert task.events == [TaskEventData(PENDING, DONE, task)];
    task.SetStatus(IN_PROGRESS + 1);
    assert task.events[1] == TaskEventData(DONE, IN_PROGRESS, task);
    task.SetStatus(IN_PROGRESS);
    assert task.events[2] == TaskEventData(IN_PROGRESS, IN_PROGRESS, task);
    task.Run();
    task.Run();
    assert |task.events| == 4 && task.events[3] == TaskEventData(IN_PROGRESS, DONE, task);
    task.SetOptions(7);
    assert task.options == Some(7) && task.rawStatus == DONE;
  }
}
