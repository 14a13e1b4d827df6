# BaseTask status state machine

This project models `BaseTask` from the workflow module (`cloud/wfm`). A
task is one unit of work. It holds a raw numeric status and derives a coarse
status from it by rounding down to a multiple of 100. Its status setter does
nothing when given the value already stored. Any other value is stored, and
one `statusChange` event is emitted carrying the rounded old and new status
and the task itself. The default `run()` sets the status to DONE. Options are
stored verbatim, and the base schema constrains nothing.

Files:

- `task_status.dfy` (module `TaskStatus`): the status anchors, JavaScript's
  truncating `%`, and `Round`, the rounding behind `getStatus()`, with its laws.
- `task_events.dfy` (module `TaskEvents`): the event record, the events one
  assignment emits (`Emitted`), the event log of a sequence of assignments
  (`Trace`), and lemmas about that log.
- `base_task.dfy` (module `Task`): the class `BaseTask<O>`. It has the raw
  status, the options, the log of emitted events and a ghost history of
  assigned values. `Valid()` ties the status and the log to replaying that
  history. The file ends with two client methods that follow the task
  interface tests and a status history.

Modelling decisions:

- The `TaskStatus` enumeration is defined in `Task.ts`, which is not part of
  this model. Its anchors are taken as `PENDING = 0`, `IN_PROGRESS = 100` and
  `DONE = 200`. The tests rely on this: `IN_PROGRESS + 1` rounds to
  `IN_PROGRESS`.
- The raw status is an unbounded `int`, and negative values are allowed, as
  the setter accepts any number. JavaScript's `%` truncates toward zero, so
  `Round` uses a truncated remainder (`TruncRem`). Negative codes therefore
  round up toward zero. For example, `Round(-150) == -100`.
- `roundedDownStatus || TaskStatus.PENDING` falls back to PENDING only on a
  zero result. With PENDING being 0, the fallback never changes the value.
  It is still modelled as written.
- Codes of 300 and above round to multiples of 100 that are not anchors, such
  as 300. The model keeps this arithmetic and adds no new meaning for it.
- The event emitter is modelled as the log `events` of every emitted event,
  in order. An event is appended exactly where the source calls `emit`.
- The task interface tests call the setter `updateStatus` and `getStatus`
  `getRoundedStatus` (`cloud/wfm/test/Task/index.ts:22,34`). In `BaseTask`
  these are the `status` setter and `getStatus()`, modelled here as
  `SetStatus` and `GetStatus`.

## Model

| member | source | states |
|---|---|---|
| `TaskStatus.TruncRem` | cloud/wfm/src/task/BaseTask.ts:65 | JavaScript `%`: `a` is `n` times the truncated quotient plus the remainder; the remainder is strictly within `n` of zero and has the sign of `a` |
| `TaskStatus.Round` | cloud/wfm/src/task/BaseTask.ts:64-67 | the bucket is a multiple of 100; for a non-negative code it is the greatest multiple of 100 not above it; for a non-positive code it is the least multiple not below it, and never positive |
| `TaskStatus.RoundUnique` | cloud/wfm/src/task/BaseTask.ts:64-67 | any multiple of 100 in the window of a code (at or below it for non-negative codes, at or above it for non-positive ones) is its bucket |
| `TaskStatus.RoundIsFloor` | cloud/wfm/src/task/BaseTask.ts:65-66 | for non-negative codes, the bucket equals an independent reference: Euclidean division by 100 times 100 |
| `TaskStatus.RoundIsOdd` | cloud/wfm/src/task/BaseTask.ts:65 | truncated rounding is symmetric: the bucket of `-r` is minus the bucket of `r` |
| `TaskStatus.RoundIdempotent` | cloud/wfm/src/task/BaseTask.ts:64-67 | rounding a bucket gives the same bucket |
| `TaskStatus.RoundMonotone` | cloud/wfm/src/task/BaseTask.ts:64-67 | a larger raw code never gives a smaller bucket |
| `TaskStatus.RoundAnchors` | cloud/wfm/test/Task/index.ts:31-34 | PENDING, IN_PROGRESS and DONE are their own buckets, and `IN_PROGRESS + 1` rounds to IN_PROGRESS |
| `TaskStatus.RoundToAnchor` | cloud/wfm/src/task/BaseTask.ts:64-67 | codes from 0 to 299 round to PENDING below 100, IN_PROGRESS below 200, and DONE otherwise |
| `TaskStatus.RoundIsPending` | cloud/wfm/src/task/BaseTask.ts:65-66 | the bucket is PENDING if and only if the code lies strictly between -100 and 100 |
| `TaskEvents.Emitted` | cloud/wfm/src/task/BaseTask.ts:22-38 | one assignment emits at most one event; it emits one if and only if the new raw value differs from the stored one; that event carries the rounded old value, the rounded new value and the task |
| `TaskEvents.Trace` | cloud/wfm/src/task/BaseTask.ts:21-39 | a sequence of assignments emits at most one event per assignment |
| `TaskEvents.TraceAppend` | cloud/wfm/src/task/BaseTask.ts:28-38 | one more assignment leaves its own value stored and appends exactly the events it emits from the previously stored value |
| `TaskEvents.TraceTask` | cloud/wfm/src/task/BaseTask.ts:32-36 | every logged event names the task that was assigned to |
| `TaskEvents.TraceSilent` | cloud/wfm/src/task/BaseTask.ts:22-27 | a sequence of assignments emits nothing if and only if every assigned value equals the starting raw status |
| `TaskEvents.TraceChained` | cloud/wfm/src/task/BaseTask.ts:28-38 | each event starts from the bucket the previous one ended in; the first starts from the starting bucket; the last ends in the bucket of the final raw status; an empty log means both buckets are equal |
| `TaskEvents.ChainedCons` | cloud/wfm/src/task/BaseTask.ts:28-30 | an event ending where a chained log starts extends that log at the front |
| `TaskEvents.RunTwice` | cloud/wfm/src/task/BaseTask.ts:51-53 | running twice emits the same events as running once |
| `TaskEvents.GuardComparesRawValues` | cloud/wfm/src/task/BaseTask.ts:22 | the guard compares raw values: going from 100 to 101 emits an event whose previous and current status are both IN_PROGRESS |
| `Task.BaseTask.constructor` | cloud/wfm/src/task/BaseTask.ts:14-15 | a new task has raw status PENDING, no options, no events, and satisfies the invariant |
| `Task.BaseTask.Status` | cloud/wfm/src/task/BaseTask.ts:41-43 | the `status` getter returns the raw code, unrounded |
| `Task.BaseTask.GetStatus` | cloud/wfm/src/task/BaseTask.ts:64-67 | the current bucket is `Round` of the raw status: a multiple of 100 within 100 below a non-negative raw status |
| `Task.BaseTask.SetStatus` | cloud/wfm/src/task/BaseTask.ts:21-39 | afterwards the raw status is `to`. Assigning the stored value emits nothing. Any other value appends exactly one event: (Round(old raw), Round(to), this task). Options are unchanged, and the invariant is kept |
| `Task.BaseTask.Run` | cloud/wfm/src/task/BaseTask.ts:51-53 | the raw status becomes DONE. Exactly one event (Round(old raw), DONE, this task) is appended if the status was not already DONE, and none otherwise. Options are unchanged |
| `Task.BaseTask.GetOptionsSchema` | cloud/wfm/src/task/BaseTask.ts:55-57 | the base schema is the empty object: it constrains nothing |
| `Task.BaseTask.SetOptions` | cloud/wfm/src/task/BaseTask.ts:59-62 | stores the options verbatim; status, event log and history are unchanged |
| `Task.BaseTask.EventLog` | cloud/wfm/src/task/BaseTask.ts:14-39 | in a valid task, the event log is chained from PENDING to the current bucket. Every event names this task. There is at most one event per assignment. A task that never emitted is still PENDING |

## Left out

- Event delivery: listener registration, ordering and delivery belong to the `eventemitter3` base class, a foreign library. Subscribing and unsubscribing are not modelled; emitting is modelled as appending to `events`.
- The event's `date` (`new Date()`): clock input, left out of the event record.
- The `console.warn` diagnostic on the no-op path: a side effect with no state to verify.
- JSON-schema validation of options: the source has no validation (a TODO), and `setOptions` stores its argument unchecked. The options type is an opaque type parameter.
- The `result` field: its type comes from `../result/Result`, which is not part of this model, and `BaseTask` never uses it.
- Non-integer raw values (NaN, fractions, infinities): JavaScript floating-point semantics are not modelled; the raw status is an unbounded integer.
- Overriding `run()` in subclasses: only the default `run()` is modelled.
- The pending tests for the options schema and `setOptions` (`cloud/wfm/test/Task/index.ts:37-43`) assert nothing.
