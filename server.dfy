/**
 * src/server.js: the job dispatcher. Rows loaded from the `site.queue`
 * table join an in-memory FIFO queue unless their id is already queued or
 * in flight; one drain at a time takes jobs from the head, marks each
 * `processing` in `site.status`, runs the handler the `COMMANDS` table
 * names, forgets the id, deletes the queue row and records `completed` or
 * `errored` with the finishing time. A janitor deletes terminal status rows
 * older than an hour.
 *
 * The two tables are maps from id to row. Whether a handler throws is the
 * oracle `throws`, and the time `new Date()` reads when the `n`-th job of a
 * drain finishes is `clock(n)`, in milliseconds. The `await` points of the
 * drain are the two methods `StartJob` (up to the handler call) and
 * `FinishJob` (from the handler's return), so a load that arrives while a
 * handler runs is a call of `UpdateQueue` between them.
 */
module Server {
  import opened Js

  /** A row of `site.queue`, as `SELECT *` returns it. */
  datatype QueueRow = QueueRow(id: string, name: string, data: string, requestor: string, priority: int, created: int)

  /** The columns of a `site.status` row that the dispatcher reads or writes. */
  datatype StatusRow = StatusRow(name: string, data: string, status: string, finished: Option<int>)

  /** The entries of `COMMANDS`, and the logging no-op used for a name it lacks. */
  datatype Handler = PinPreviewCommand | PdfCommand | HtmlCommand | MediaCommand | MissingCommand

  /** `COMMANDS[cmd] || (async () => logger.error(...))`. */
  function Lookup(name: string): Handler {
    if name == "pin_preview" then PinPreviewCommand
    else if name == "pdf" then PdfCommand
    else if name == "html" then HtmlCommand
    else if name == "media" then MediaCommand
    else MissingCommand
  }

  /** Only the four names of `COMMANDS` find a handler of their own. */
  lemma LookupTable(name: string)
    ensures Lookup(name) == MissingCommand <==> name !in {"pin_preview", "pdf", "html", "media"}
    ensures Lookup(name) == MediaCommand <==> name == "media"
  {
  }

  /**
   * Whether awaiting the handler of `row` throws: the three real commands
   * throw as the oracle says; the empty `media` handler and the logging
   * no-op never do.
   */
  predicate Errors(row: QueueRow, throws: QueueRow -> bool) {
    match Lookup(row.name)
    case MediaCommand => false
    case MissingCommand => false
    case _ => throws(row)
  }

  /** `!errored ? 'completed' : 'errored'`. */
  function Terminal(errored: bool): string {
    if errored then "errored" else "completed"
  }

  /** The store writes and the handler call, in the order the drain makes them. */
  datatype Effect =
    | SetStatus(id: string, status: string)
    | RunHandler(id: string, handler: Handler)
    | DeleteQueueRow(id: string)
    | Finish(id: string, status: string, finished: int)

  /** What one job contributes to the trace, finishing at time `t`. */
  function JobTrace(row: QueueRow, throws: QueueRow -> bool, t: int): seq<Effect> {
    [ SetStatus(row.id, "processing"), RunHandler(row.id, Lookup(row.name)),
      DeleteQueueRow(row.id), Finish(row.id, Terminal(Errors(row, throws)), t) ]
  }

  /** The trace of draining `rows` in order, the `n`-th finishing at `clock(n)`. */
  function DrainTrace(rows: seq<QueueRow>, throws: QueueRow -> bool, clock: nat -> int): (r: seq<Effect>)
    ensures |r| == 4 * |rows|
  {
    if |rows| == 0 then []
    else DrainTrace(rows[..|rows| - 1], throws, clock) + JobTrace(rows[|rows| - 1], throws, clock(|rows| - 1))
  }

  /** `UPDATE site.status SET status = 'processing' WHERE id = $2`: no row, no change. */
  function MarkProcessing(st: map<string, StatusRow>, id: string): (r: map<string, StatusRow>)
    ensures r.Keys == st.Keys
    ensures id in st ==> r[id] == st[id].(status := "processing")
    ensures forall other :: other in st && other != id ==> r[other] == st[other]
  {
    if id in st then st[id := st[id].(status := "processing")] else st
  }

  /** `UPDATE site.status SET finished = $1, status = $2 WHERE id = $3`. */
  function MarkFinished(st: map<string, StatusRow>, id: string, t: int, errored: bool): (r: map<string, StatusRow>)
    ensures r.Keys == st.Keys
    ensures id in st ==> r[id] == st[id].(status := Terminal(errored), finished := Some(t))
    ensures forall other :: other in st && other != id ==> r[other] == st[other]
  {
    if id in st then st[id := st[id].(status := Terminal(errored), finished := Some(t))] else st
  }

  /** The status table after one job: the `processing` mark, then the terminal one. */
  function JobStatus(st: map<string, StatusRow>, row: QueueRow, throws: QueueRow -> bool, t: int): map<string, StatusRow> {
    MarkFinished(MarkProcessing(st, row.id), row.id, t, Errors(row, throws))
  }

  /** The status table after draining `rows` in order. */
  function StatusAfter(st: map<string, StatusRow>, rows: seq<QueueRow>, throws: QueueRow -> bool, clock: nat -> int): map<string, StatusRow> {
    if |rows| == 0 then st
    else JobStatus(StatusAfter(st, rows[..|rows| - 1], throws, clock), rows[|rows| - 1], throws, clock(|rows| - 1))
  }

  lemma StatusAfterSnoc(st: map<string, StatusRow>, p: seq<QueueRow>, r: QueueRow, throws: QueueRow -> bool, clock: nat -> int)
    ensures StatusAfter(st, p + [r], throws, clock) == JobStatus(StatusAfter(st, p, throws, clock), r, throws, clock(|p|))
  {
    assert (p + [r])[..|p|] == p;
  }

  lemma DrainTraceSnoc(p: seq<QueueRow>, r: QueueRow, throws: QueueRow -> bool, clock: nat -> int)
    ensures DrainTrace(p + [r], throws, clock) == DrainTrace(p, throws, clock) + JobTrace(r, throws, clock(|p|))
  {
    assert (p + [r])[..|p|] == p;
  }

  /** The tables and the trace after one more job of a drain. */
  lemma DrainStep(siteQueue: map<string, QueueRow>, st: map<string, StatusRow>, trace: seq<Effect>,
                  done: seq<QueueRow>, row: QueueRow, throws: QueueRow -> bool, clock: nat -> int)
    ensures siteQueue - Ids(done) - {row.id} == siteQueue - Ids(done + [row])
    ensures JobStatus(StatusAfter(st, done, throws, clock), row, throws, clock(|done|)) == StatusAfter(st, done + [row], throws, clock)
    ensures trace + DrainTrace(done, throws, clock) + JobTrace(row, throws, clock(|done|)) == trace + DrainTrace(done + [row], throws, clock)
  {
    IdsSnoc(done, row);
    StatusAfterSnoc(st, done, row, throws, clock);
    DrainTraceSnoc(done, row, throws, clock);
  }

  /** The ids of a sequence of rows. */
  function Ids(rows: seq<QueueRow>): set<string> {
    set i | 0 <= i < |rows| :: rows[i].id
  }

  /** No id occurs twice. */
  predicate DistinctIds(rows: seq<QueueRow>) {
    forall i, j :: 0 <= i < j < |rows| ==> rows[i].id != rows[j].id
  }

  lemma IdsSnoc(rows: seq<QueueRow>, r: QueueRow)
    ensures Ids(rows + [r]) == Ids(rows) + {r.id}
  {
    var s := rows + [r];
    assert s[|rows|] == r;
    forall x | x in Ids(rows)
      ensures x in Ids(s)
    {
      var i :| 0 <= i < |rows| && rows[i].id == x;
      assert s[i] == rows[i];
    }
  }

  lemma PushKeepsDistinct(rows: seq<QueueRow>, r: QueueRow)
    requires DistinctIds(rows) && r.id !in Ids(rows)
    ensures DistinctIds(rows + [r]) && Ids(rows + [r]) == Ids(rows) + {r.id}
  {
    IdsSnoc(rows, r);
    forall i | 0 <= i < |rows|
      ensures (rows + [r])[i].id != r.id
    {
      assert rows[i].id in Ids(rows);
    }
  }

  lemma IdsTail(rows: seq<QueueRow>)
    requires |rows| > 0 && DistinctIds(rows)
    ensures Ids(rows[1..]) == Ids(rows) - {rows[0].id}
  {
    var t := rows[1..];
    forall x | x in Ids(rows) && x != rows[0].id
      ensures x in Ids(t)
    {
      var i :| 0 <= i < |rows| && rows[i].id == x;
      assert t[i - 1] == rows[i];
    }
  }

  lemma IdsCons(r: QueueRow, rows: seq<QueueRow>)
    ensures Ids([r] + rows) == {r.id} + Ids(rows)
  {
    var s := [r] + rows;
    forall x | x in Ids(s)
      ensures x in {r.id} + Ids(rows)
    {
      var i :| 0 <= i < |s| && s[i].id == x;
      if i > 0 {
        assert s[i] == rows[i - 1];
      }
    }
    forall x | x in Ids(rows)
      ensures x in Ids(s)
    {
      var i :| 0 <= i < |rows| && rows[i].id == x;
      assert s[i + 1] == rows[i];
    }
    assert s[0] == r;
  }

  /**
   * The rows of a load that `updateQueue` pushes, in load order: each row
   * whose id is neither in `seen` nor taken by an earlier row of the load.
   */
  function NewRows(rows: seq<QueueRow>, seen: set<string>): seq<QueueRow> {
    if |rows| == 0 then []
    else
      var rest := NewRows(rows[1..], seen + {rows[0].id});
      if rows[0].id in seen then rest else [rows[0]] + rest
  }

  /** Every pushed row comes from the load, and its id was not yet seen. */
  lemma {:induction false} NewRowsFresh(rows: seq<QueueRow>, seen: set<string>)
    ensures forall r :: r in NewRows(rows, seen) ==> r in rows && r.id !in seen
    decreases |rows|
  {
    if |rows| > 0 {
      var h := rows[0];
      var t := rows[1..];
      NewRowsFresh(t, seen + {h.id});
      forall r | r in t
        ensures r in rows
      {
        var k :| 0 <= k < |t| && t[k] == r;
        assert rows[k + 1] == r;
      }
    }
  }

  /** No id is pushed twice by one load. */
  lemma {:induction false} NewRowsDistinct(rows: seq<QueueRow>, seen: set<string>)
    ensures DistinctIds(NewRows(rows, seen))
    decreases |rows|
  {
    if |rows| > 0 {
      var h := rows[0];
      var t := rows[1..];
      NewRowsDistinct(t, seen + {h.id});
      NewRowsFresh(t, seen + {h.id});
      var rest := NewRows(t, seen + {h.id});
      if h.id !in seen {
        forall i, j | 0 <= i < j < |[h] + rest|
          ensures ([h] + rest)[i].id != ([h] + rest)[j].id
        {
          assert ([h] + rest)[j] == rest[j - 1];
          assert rest[j - 1] in rest;
          if i > 0 {
            assert ([h] + rest)[i] == rest[i - 1];
          }
        }
      }
    }
  }

  /** After a load every id of it is seen: pushed now or seen before. */
  lemma {:induction false} NewRowsIds(rows: seq<QueueRow>, seen: set<string>)
    ensures seen + Ids(NewRows(rows, seen)) == seen + Ids(rows)
    decreases |rows|
  {
    if |rows| == 0 {
      assert Ids(rows) == {};
    } else {
      var h := rows[0];
      var t := rows[1..];
      assert rows == [h] + t;
      NewRowsIds(t, seen + {h.id});
      IdsCons(h, t);
      var rest := NewRows(t, seen + {h.id});
      if h.id !in seen {
        IdsCons(h, rest);
      }
    }
  }

  /**
   * Loading `a` then `b` in one query pushes what loading `a` pushes and
   * then what `b` pushes given the ids of `a`: earlier rows of a load are
   * queued ahead of later ones.
   */
  lemma {:induction false} NewRowsConcat(a: seq<QueueRow>, b: seq<QueueRow>, seen: set<string>)
    ensures NewRows(a + b, seen) == NewRows(a, seen) + NewRows(b, seen + Ids(a))
    decreases |a|
  {
    if |a| == 0 {
      assert a + b == b;
      assert Ids(a) == {};
      assert seen + Ids(a) == seen;
    } else {
      var h := a[0];
      var t := a[1..];
      assert a + b == [h] + (t + b);
      assert ([h] + (t + b))[1..] == t + b;
      NewRowsConcat(t, b, seen + {h.id});
      IdsCons(h, t);
      assert a == [h] + t;
      assert seen + {h.id} + Ids(t) == seen + Ids(a);
    }
  }

  /** `ORDER BY priority desc, created asc`: `a` may come before `b`. */
  predicate LoadBefore(a: QueueRow, b: QueueRow) {
    a.priority > b.priority || (a.priority == b.priority && a.created <= b.created)
  }

  predicate InLoadOrder(rows: seq<QueueRow>) {
    forall i, j :: 0 <= i < j < |rows| ==> LoadBefore(rows[i], rows[j])
  }

  /** A load in query order is pushed in query order: the queue is FIFO over load order. */
  lemma {:induction false} NewRowsKeepLoadOrder(rows: seq<QueueRow>, seen: set<string>)
    requires InLoadOrder(rows)
    ensures InLoadOrder(NewRows(rows, seen))
    decreases |rows|
  {
    if |rows| > 0 {
      var h := rows[0];
      var t := rows[1..];
      assert InLoadOrder(t);
      NewRowsKeepLoadOrder(t, seen + {h.id});
      NewRowsFresh(t, seen + {h.id});
      var rest := NewRows(t, seen + {h.id});
      if h.id !in seen {
        forall i, j | 0 <= i < j < |[h] + rest|
          ensures LoadBefore(([h] + rest)[i], ([h] + rest)[j])
        {
          assert ([h] + rest)[j] == rest[j - 1];
          if i == 0 {
            var k :| 0 <= k < |t| && t[k] == rest[j - 1];
            assert rows[k + 1] == t[k];
          } else {
            assert ([h] + rest)[i] == rest[i - 1];
          }
        }
      }
    }
  }

  /**
   * Job `i` of a drain makes effects `4i` to `4i + 3` of its trace: it is
   * marked `processing` before its handler runs, and its handler runs before
   * its queue row is deleted and its terminal status is written, all before
   * the next job starts.
   */
  lemma {:induction false} DrainTraceAt(rows: seq<QueueRow>, throws: QueueRow -> bool, clock: nat -> int, i: nat)
    requires i < |rows|
    ensures DrainTrace(rows, throws, clock)[4 * i..4 * i + 4] == JobTrace(rows[i], throws, clock(i))
  {
    var p := rows[..|rows| - 1];
    if i < |rows| - 1 {
      DrainTraceAt(p, throws, clock, i);
      assert p[i] == rows[i];
    }
  }

  /**
   * After a drain of distinct jobs the status table has the same rows; the
   * row of job `i` ends `errored` exactly when its handler threw and
   * `completed` otherwise, finished at `clock(i)`; rows of other ids are
   * untouched.
   */
  lemma {:induction false} DrainStatus(st: map<string, StatusRow>, rows: seq<QueueRow>, throws: QueueRow -> bool, clock: nat -> int)
    requires DistinctIds(rows)
    ensures StatusAfter(st, rows, throws, clock).Keys == st.Keys
    ensures forall i :: 0 <= i < |rows| && rows[i].id in st ==>
      StatusAfter(st, rows, throws, clock)[rows[i].id]
        == st[rows[i].id].(status := Terminal(Errors(rows[i], throws)), finished := Some(clock(i)))
    ensures forall id :: id in st && id !in Ids(rows) ==> StatusAfter(st, rows, throws, clock)[id] == st[id]
  {
    if |rows| > 0 {
      var p := rows[..|rows| - 1];
      var last := rows[|rows| - 1];
      DrainStatus(st, p, throws, clock);
      IdsSnoc(p, last);
      assert rows == p + [last];
      forall i | 0 <= i < |rows| - 1
        ensures rows[i].id != last.id && p[i] == rows[i]
      {
      }
    }
  }

  /** The jobs that end `completed` whatever the oracle says: `media` and names missing from `COMMANDS`. */
  lemma NoopCommandsComplete(st: map<string, StatusRow>, rows: seq<QueueRow>, throws: QueueRow -> bool, clock: nat -> int, i: nat)
    requires DistinctIds(rows) && i < |rows| && rows[i].id in st
    requires Lookup(rows[i].name) == MediaCommand || Lookup(rows[i].name) == MissingCommand
    ensures rows[i].id in StatusAfter(st, rows, throws, clock)
    ensures StatusAfter(st, rows, throws, clock)[rows[i].id].status == "completed"
  {
    DrainStatus(st, rows, throws, clock);
  }

  /** One hour, the age past which the janitor deletes terminal status rows. */
  const RetentionMs := 3600000

  /**
   * The `WHERE` of the janitor's `DELETE`: terminal and finished more than
   * an hour before `now`; a `NULL` `finished` compares as unknown and is kept.
   */
  predicate Expired(row: StatusRow, now: int) {
    (row.status == "errored" || row.status == "completed")
    && row.finished.Some? && row.finished.value < now - RetentionMs
  }

  /** The status table after `clearOldFinishedTasks` at time `now`. */
  function Retained(st: map<string, StatusRow>, now: int): (r: map<string, StatusRow>)
    ensures forall id :: id in r <==> id in st && !Expired(st[id], now)
    ensures forall id :: id in r ==> r[id] == st[id]
  {
    map id | id in st && !Expired(st[id], now) :: st[id]
  }

  /** Clearing twice at the same time deletes nothing more. */
  lemma RetainedIdempotent(st: map<string, StatusRow>, now: int)
    ensures Retained(Retained(st, now), now) == Retained(st, now)
  {
    var once := Retained(st, now);
    assert Retained(once, now).Keys == once.Keys;
  }

  /**
   * A job finished by a drain keeps its status row through every clear up
   * to an hour after it finished, and loses it at the first clear later
   * than that.
   */
  lemma DrainedJobRetainedForAnHour(st: map<string, StatusRow>, rows: seq<QueueRow>, throws: QueueRow -> bool,
                                    clock: nat -> int, i: nat, now: int)
    requires DistinctIds(rows) && i < |rows| && rows[i].id in st
    ensures rows[i].id in Retained(StatusAfter(st, rows, throws, clock), now) <==> now <= clock(i) + RetentionMs
  {
    DrainStatus(st, rows, throws, clock);
  }

  /** Rows that are queued or processing survive every clear. */
  lemma ActiveRowsRetained(st: map<string, StatusRow>, now: int, id: string)
    requires id in st && st[id].status != "errored" && st[id].status != "completed"
    ensures id in Retained(st, now) && Retained(st, now)[id] == st[id]
  {
  }

  /** `added` holds exactly the ids queued or in flight, and each of them once. */
  ghost predicate QueueState(queue: seq<QueueRow>, added: set<string>, current: Option<QueueRow>, running: bool) {
    && DistinctIds(queue)
    && (current.Some? ==> running && current.value.id !in Ids(queue))
    && added == Ids(queue) + (if current.Some? then {current.value.id} else {})
  }

  /**
   * A turn of the `for` loop of `updateQueue`: what is left of the load
   * pushes this row when its id is new, and then what the rest pushes.
   */
  lemma EnqueueStep(rows: seq<QueueRow>, i: nat, added: set<string>, seen: set<string>)
    requires i < |rows| && added == seen + Ids(rows[..i])
    ensures NewRows(rows[i..], added)
      == (if rows[i].id in added then [] else [rows[i]]) + NewRows(rows[i + 1..], added + {rows[i].id})
    ensures added + {rows[i].id} == seen + Ids(rows[..i + 1])
  {
    assert rows[i..][1..] == rows[i + 1..];
    assert rows[..i + 1] == rows[..i] + [rows[i]];
    IdsSnoc(rows[..i], rows[i]);
  }

  /** A load keeps the queue state: each id is added once, and a new id joins the queue with it. */
  lemma EnqueueKeepsState(queue: seq<QueueRow>, added: set<string>, current: Option<QueueRow>, running: bool, rows: seq<QueueRow>)
    requires QueueState(queue, added, current, running)
    ensures QueueState(queue + NewRows(rows, added), added + Ids(rows), current, running)
  {
    var nr := NewRows(rows, added);
    NewRowsFresh(rows, added);
    NewRowsDistinct(rows, added);
    NewRowsIds(rows, added);
    var q := queue + nr;
    forall i, j | 0 <= i < j < |q|
      ensures q[i].id != q[j].id
    {
      if i < |queue| && j >= |queue| {
        assert queue[i].id in Ids(queue);
        assert nr[j - |queue|] in nr;
      } else if i >= |queue| {
        assert q[i] == nr[i - |queue|] && q[j] == nr[j - |queue|];
      }
    }
    assert Ids(q) == Ids(queue) + Ids(nr) by {
      forall x | x in Ids(q)
        ensures x in Ids(queue) + Ids(nr)
      {
        var k :| 0 <= k < |q| && q[k].id == x;
        if k >= |queue| {
          assert nr[k - |queue|] == q[k];
        }
      }
      forall x | x in Ids(queue) + Ids(nr)
        ensures x in Ids(q)
      {
        if x in Ids(queue) {
          var k :| 0 <= k < |queue| && queue[k].id == x;
          assert q[k] == queue[k];
        } else {
          var k :| 0 <= k < |nr| && nr[k].id == x;
          assert q[|queue| + k] == nr[k];
        }
      }
    }
  }

  /** The dispatcher: the module-level queue state of src/server.js and the two tables. */
  class Dispatcher {
    /** `queue`: loaded jobs not yet started, head first. */
    var queue: seq<QueueRow>
    /** `queueRunning`: a drain is under way. */
    var queueRunning: bool
    /** `queueAlreadyAdded`: ids queued or in flight. */
    var queueAlreadyAdded: set<string>
    /** The job between its `processing` mark and its handler's return. */
    var current: Option<QueueRow>
    /** The `site.queue` table. */
    var siteQueue: map<string, QueueRow>
    /** The `site.status` table. */
    var siteStatus: map<string, StatusRow>
    /** Store writes and handler calls so far. */
    var trace: seq<Effect>

    /** The ids in `queueAlreadyAdded` are exactly those queued or in flight, each once. */
    ghost predicate Valid()
      reads this
    {
      QueueState(queue, queueAlreadyAdded, current, queueRunning)
    }

    /** The state at start-up, over the tables as they stand. */
    constructor(siteQueue: map<string, QueueRow>, siteStatus: map<string, StatusRow>)
      ensures Valid()
      ensures queue == [] && !queueRunning && queueAlreadyAdded == {} && current.None?
      ensures this.siteQueue == siteQueue && this.siteStatus == siteStatus && trace == []
    {
      queue := [];
      queueRunning := false;
      queueAlreadyAdded := {};
      current := None;
      this.siteQueue := siteQueue;
      this.siteStatus := siteStatus;
      trace := [];
    }

    /** The `for` loop of `updateQueue`: push each row whose id is not yet added. */
    method Enqueue(rows: seq<QueueRow>)
      modifies this
      ensures queue == old(queue) + NewRows(rows, old(queueAlreadyAdded))
      ensures queueAlreadyAdded == old(queueAlreadyAdded) + Ids(rows)
      ensures queueRunning == old(queueRunning) && current == old(current)
      ensures siteQueue == old(siteQueue) && siteStatus == old(siteStatus) && trace == old(trace)
    {
      for i := 0 to |rows|
        invariant queue + NewRows(rows[i..], queueAlreadyAdded) == old(queue) + NewRows(rows, old(queueAlreadyAdded))
        invariant queueAlreadyAdded == old(queueAlreadyAdded) + Ids(rows[..i])
        invariant queueRunning == old(queueRunning) && current == old(current)
        invariant siteQueue == old(siteQueue) && siteStatus == old(siteStatus) && trace == old(trace)
      {
        var row := rows[i];
        EnqueueStep(rows, i, queueAlreadyAdded, old(queueAlreadyAdded));
        if row.id !in queueAlreadyAdded {
          assert queue + ([row] + NewRows(rows[i + 1..], queueAlreadyAdded + {row.id}))
              == queue + [row] + NewRows(rows[i + 1..], queueAlreadyAdded + {row.id});
          queueAlreadyAdded := queueAlreadyAdded + {row.id};
          queue := queue + [row];
        } else {
          assert queueAlreadyAdded + {row.id} == queueAlreadyAdded;
          assert [] + NewRows(rows[i + 1..], queueAlreadyAdded) == NewRows(rows[i + 1..], queueAlreadyAdded);
        }
      }
      assert rows[..|rows|] == rows;
      assert queue + NewRows([], queueAlreadyAdded) == queue;
    }

    /**
     * `processQueue` up to awaiting the handler: shift the head off the
     * queue and mark it `processing`.
     */
    method StartJob()
      requires Valid() && queueRunning && current.None? && |queue| > 0
      modifies this
      ensures Valid()
      ensures current == Some(old(queue)[0]) && queue == old(queue)[1..]
      ensures siteStatus == MarkProcessing(old(siteStatus), old(queue)[0].id)
      ensures trace == old(trace) + [SetStatus(old(queue)[0].id, "processing")]
      ensures queueRunning && queueAlreadyAdded == old(queueAlreadyAdded) && siteQueue == old(siteQueue)
    {
      var toProcess := queue[0];
      IdsTail(queue);
      queue := queue[1..];
      siteStatus := MarkProcessing(siteStatus, toProcess.id);
      trace := trace + [SetStatus(toProcess.id, "processing")];
      current := Some(toProcess);
    }

    /**
     * `processQueue` from the handler's return at time `t`: note whether it
     * threw, forget the id, delete the queue row, write the terminal status.
     */
    method FinishJob(throws: QueueRow -> bool, t: int)
      requires Valid() && current.Some?
      modifies this
      ensures Valid()
      ensures current.None? && queue == old(queue) && queueRunning
      ensures queueAlreadyAdded == old(queueAlreadyAdded) - {old(current).value.id}
      ensures siteQueue == old(siteQueue) - {old(current).value.id}
      ensures siteStatus == MarkFinished(old(siteStatus), old(current).value.id, t, Errors(old(current).value, throws))
      ensures trace == old(trace) + JobTrace(old(current).value, throws, t)[1..]
    {
      var toProcess := current.value;
      var errored := Errors(toProcess, throws);
      trace := trace + [RunHandler(toProcess.id, Lookup(toProcess.name))];
      queueAlreadyAdded := queueAlreadyAdded - {toProcess.id};
      siteQueue := siteQueue - {toProcess.id};
      trace := trace + [DeleteQueueRow(toProcess.id)];
      siteStatus := MarkFinished(siteStatus, toProcess.id, t, errored);
      trace := trace + [Finish(toProcess.id, Terminal(errored), t)];
      current := None;
    }

    /** One turn of the `while` loop of `processQueue`, finishing at time `t`. */
    method RunJob(throws: QueueRow -> bool, t: int)
      requires Valid() && queueRunning && current.None? && |queue| > 0
      modifies this
      ensures Valid() && queueRunning && current.None?
      ensures queue == old(queue)[1..]
      ensures siteQueue == old(siteQueue) - {old(queue)[0].id}
      ensures siteStatus == JobStatus(old(siteStatus), old(queue)[0], throws, t)
      ensures trace == old(trace) + JobTrace(old(queue)[0], throws, t)
    {
      StartJob();
      FinishJob(throws, t);
    }

    /**
     * The `while` loop of `processQueue`: take jobs from the head until the
     * queue is empty, the `n`-th finishing at `clock(n)`.
     */
    method Drain(throws: QueueRow -> bool, clock: nat -> int)
      requires Valid() && queueRunning && current.None?
      modifies this
      ensures Valid() && queueRunning && current.None? && queue == []
      ensures siteQueue == old(siteQueue) - Ids(old(queue))
      ensures siteStatus == StatusAfter(old(siteStatus), old(queue), throws, clock)
      ensures trace == old(trace) + DrainTrace(old(queue), throws, clock)
    {
      var n := 0;
      ghost var done: seq<QueueRow> := [];
      while |queue| > 0
        invariant Valid() && queueRunning && current.None?
        invariant old(queue) == done + queue && n == |done|
        invariant siteQueue == old(siteQueue) - Ids(done)
        invariant siteStatus == StatusAfter(old(siteStatus), done, throws, clock)
        invariant trace == old(trace) + DrainTrace(done, throws, clock)
        decreases |queue|
      {
        ghost var row := queue[0];
        DrainStep(old(siteQueue), old(siteStatus), old(trace), done, row, throws, clock);
        RunJob(throws, clock(n));
        done := done + [row];
        n := n + 1;
      }
      assert old(queue) == done;
    }

    /**
     * `processQueue`: return at once if a drain is under way; otherwise
     * drain the queue and clear the flag. Every id is then released.
     */
    method ProcessQueue(throws: QueueRow -> bool, clock: nat -> int)
      requires Valid()
      modifies this
      ensures Valid()
      ensures old(queueRunning) ==> unchanged(this)
      ensures !old(queueRunning) ==>
        && queue == [] && !queueRunning && queueAlreadyAdded == {} && current.None?
        && siteQueue == old(siteQueue) - Ids(old(queue))
        && siteStatus == StatusAfter(old(siteStatus), old(queue), throws, clock)
        && trace == old(trace) + DrainTrace(old(queue), throws, clock)
    {
      if queueRunning {
        return;
      }
      BeginDrain();
      Drain(throws, clock);
      EndDrain();
    }

    /**
     * `processQueue` past its guard: raise the flag, so that a later call
     * returns at once until this drain ends.
     */
    method BeginDrain()
      requires Valid() && !queueRunning
      modifies this
      ensures Valid() && queueRunning && current.None?
      ensures queue == old(queue) && queueAlreadyAdded == old(queueAlreadyAdded)
      ensures siteQueue == old(siteQueue) && siteStatus == old(siteStatus) && trace == old(trace)
    {
      queueRunning := true;
    }

    /** `processQueue` once its loop finds the queue empty: lower the flag; no id is still held. */
    method EndDrain()
      requires Valid() && queueRunning && current.None? && queue == []
      modifies this
      ensures Valid() && !queueRunning && queueAlreadyAdded == {} && current.None? && queue == []
      ensures siteQueue == old(siteQueue) && siteStatus == old(siteStatus) && trace == old(trace)
    {
      queueRunning := false;
    }

    /**
     * `updateQueue` given the rows its query returned, in query order: an
     * empty load returns at once; otherwise push the new rows and start a
     * drain, which returns at once when one is already under way and has
     * the new rows still to reach.
     */
    method UpdateQueue(rows: seq<QueueRow>, throws: QueueRow -> bool, clock: nat -> int)
      requires Valid()
      modifies this
      ensures Valid()
      ensures |rows| == 0 ==> unchanged(this)
      ensures |rows| > 0 && old(queueRunning) ==>
        && queue == old(queue) + NewRows(rows, old(queueAlreadyAdded))
        && queueAlreadyAdded == old(queueAlreadyAdded) + Ids(rows)
        && queueRunning && current == old(current)
        && siteQueue == old(siteQueue) && siteStatus == old(siteStatus) && trace == old(trace)
      ensures |rows| > 0 && !old(queueRunning) ==>
        var drained := old(queue) + NewRows(rows, old(queueAlreadyAdded));
        && queue == [] && !queueRunning && queueAlreadyAdded == {} && current.None?
        && siteQueue == old(siteQueue) - Ids(drained)
        && siteStatus == StatusAfter(old(siteStatus), drained, throws, clock)
        && trace == old(trace) + DrainTrace(drained, throws, clock)
    {
      if |rows| == 0 {
        return;
      }
      EnqueueKeepsState(queue, queueAlreadyAdded, current, queueRunning, rows);
      Enqueue(rows);
      ProcessQueue(throws, clock);
    }

    /** `clearOldFinishedTasks` at time `now`. */
    method ClearOldFinishedTasks(now: int)
      modifies this
      ensures siteStatus == Retained(old(siteStatus), now)
      ensures queue == old(queue) && queueRunning == old(queueRunning) && current == old(current)
      ensures queueAlreadyAdded == old(queueAlreadyAdded) && siteQueue == old(siteQueue) && trace == old(trace)
    {
      siteStatus := Retained(siteStatus, now);
    }
  }

  /**
   * A job that is in flight when a load returns its row again is not
   * queued a second time, and no id in the queue appears twice.
   */
  lemma InFlightNotRequeued(queue: seq<QueueRow>, inFlight: QueueRow, rows: seq<QueueRow>)
    requires DistinctIds(queue) && inFlight.id !in Ids(queue)
    ensures inFlight.id !in Ids(NewRows(rows, Ids(queue) + {inFlight.id}))
    ensures DistinctIds(queue + NewRows(rows, Ids(queue) + {inFlight.id}))
  {
    var seen := Ids(queue) + {inFlight.id};
    var nr := NewRows(rows, seen);
    NewRowsFresh(rows, seen);
    NewRowsDistinct(rows, seen);
    forall i, j | 0 <= i < j < |queue + nr|
      ensures (queue + nr)[i].id != (queue + nr)[j].id
    {
      if i < |queue| && j >= |queue| {
        assert queue[i].id in Ids(queue);
        assert nr[j - |queue|] in nr;
      } else if i >= |queue| {
        assert (queue + nr)[i] == nr[i - |queue|];
        assert (queue + nr)[j] == nr[j - |queue|];
      }
    }
  }
}
