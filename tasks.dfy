/** The task-list service: request validation of the REST handlers and the
    `tasks` table they read and change. The table is an id-keyed map with the
    largest id ever handed out (SQLite's AUTOINCREMENT sequence); the clock
    behind `CURRENT_TIMESTAMP` is a parameter `now`. */
module TaskApi {
  import opened Wrappers
  import Text

  const VALID_STATUSES: seq<string> := ["pending", "in_progress", "completed", "cancelled"]

  const DETAIL_REQUIRED := "task_detail is required"
  const DETAIL_EMPTY := "task_detail cannot be empty"
  const STATUS_INVALID := "task_status must be one of: " + Text.Join(VALID_STATUSES, ", ")
  const BODY_REQUIRED := "Request body is required"
  const NOTHING_TO_UPDATE := "No valid fields to update"
  const TASK_NOT_FOUND := "Task not found"

  /** A JSON value of the request body: a string, or anything else (null,
      number, boolean, array, object), on which `.strip()` raises. */
  datatype Json = JStr(s: string) | JOther

  /** The parsed request body: absent, or a JSON object. */
  type Body = Option<map<string, Json>>

  datatype Task = Task(id: nat, detail: string, status: string, createdAt: nat, updatedAt: nat)

  datatype Data =
    | NoData
    | OneTask(task: Task)
    | TaskList(tasks: seq<Task>, count: nat)
    | Statistics(total: nat, byStatus: map<string, nat>)

  /** `str(e)` of a caught exception is returned as the error; its text is
      not modelled (`Raised`). */
  datatype ErrorText = Message(text: string) | Raised

  datatype Payload = Ok(message: Option<string>, data: Data) | Err(error: ErrorText)

  datatype Response = Response(code: int, payload: Payload)

  function BadRequest(msg: string): Response {
    Response(400, Err(Message(msg)))
  }

  const NOT_FOUND := Response(404, Err(Message(TASK_NOT_FOUND)))

  /** An exception inside the handler's `try` (here: `.strip()` on a
      non-string) answers 500 with the exception text. */
  const SERVER_ERROR := Response(500, Err(Raised))

  /** Python truthiness of the body: `not data` holds for a missing body
      and for an empty object. */
  predicate Falsy(body: Body) {
    body.None? || body.value == map[]
  }

  /** What a stored task always satisfies: a non-empty detail without outer
      whitespace and one of the four statuses. */
  predicate WellFormed(t: Task) {
    t.detail != [] && Text.Stripped(t.detail) && t.status in VALID_STATUSES
  }

  /** The outcome of a handler's checks: the values to write, or the
      response that ends the request. */
  datatype Check<T> = Pass(value: T) | Reject(response: Response)

  /** `data.get('task_status', 'pending')`. */
  function StatusField(m: map<string, Json>): Json {
    if "task_status" in m then m["task_status"] else JStr("pending")
  }

  /** The detail and status strings of a create request, when the body is a
      non-empty object holding a string `task_detail` and, if present, a
      string `task_status`. */
  function CreateInput(body: Body): Option<(string, string)> {
    if Falsy(body) || "task_detail" !in body.value then None
    else match (body.value["task_detail"], StatusField(body.value))
      case (JStr(d), JStr(s)) => Some((d, s))
      case _ => None
  }

  /** The checks of `create_task` before the insert. The detail and the
      status are both stripped before either is judged, so a non-string in
      either raises (500) before any 400 about content. */
  function ValidateCreate(body: Body): (r: Check<(string, string)>)
    ensures Falsy(body) || "task_detail" !in body.value ==> r == Reject(BadRequest(DETAIL_REQUIRED))
    ensures !Falsy(body) && "task_detail" in body.value && CreateInput(body).None? ==> r == Reject(SERVER_ERROR)
    ensures r.Pass? <==> CreateInput(body).Some? && !Text.Blank(CreateInput(body).value.0)
                         && Text.Strip(CreateInput(body).value.1) in VALID_STATUSES
    ensures r.Pass? ==> r.value == (Text.Strip(CreateInput(body).value.0), Text.Strip(CreateInput(body).value.1))
                        && WellFormed(Task(0, r.value.0, r.value.1, 0, 0))
    ensures CreateInput(body).Some? && Text.Blank(CreateInput(body).value.0) ==> r == Reject(BadRequest(DETAIL_EMPTY))
    ensures (CreateInput(body).Some? && !Text.Blank(CreateInput(body).value.0)
             && Text.Strip(CreateInput(body).value.1) !in VALID_STATUSES) ==>
              r == Reject(BadRequest(STATUS_INVALID))
    ensures r.Reject? ==> r.response.code in {400, 500}
  {
    match CreateInput(body)
    case None =>
      if Falsy(body) || "task_detail" !in body.value then Reject(BadRequest(DETAIL_REQUIRED)) else Reject(SERVER_ERROR)
    case Some((d, s)) =>
      var detail := Text.Strip(d);
      var status := Text.Strip(s);
      if detail == [] then Reject(BadRequest(DETAIL_EMPTY))
      else if status !in VALID_STATUSES then Reject(BadRequest(STATUS_INVALID))
      else Pass((detail, status))
  }

  /** An update's `task_detail`, if supplied, is a string that is not blank. */
  predicate DetailOk(m: map<string, Json>) {
    "task_detail" !in m || (m["task_detail"].JStr? && !Text.Blank(m["task_detail"].s))
  }

  /** An update's `task_status`, if supplied, is a string whose stripped
      value is one of the four statuses. */
  predicate StatusOk(m: map<string, Json>) {
    "task_status" !in m || (m["task_status"].JStr? && Text.Strip(m["task_status"].s) in VALID_STATUSES)
  }

  /** The checks of `update_task`, in the handler's order: a body is
      required, then the task must exist, then each supplied field is
      judged (detail before status), then at least one field must be
      supplied. A passing check names the new detail and/or status. */
  function ValidateUpdate(body: Body, found: bool): (r: Check<(Option<string>, Option<string>)>)
    ensures Falsy(body) ==> r == Reject(BadRequest(BODY_REQUIRED))
    ensures !Falsy(body) && !found ==> r == Reject(NOT_FOUND)
    ensures r.Pass? ==> found && (r.value.0.Some? || r.value.1.Some?)
    ensures r.Pass? ==> ("task_detail" in body.value <==> r.value.0.Some?)
                        && ("task_status" in body.value <==> r.value.1.Some?)
    ensures r.Pass? && r.value.0.Some? ==>
              r.value.0.value != [] && Text.Stripped(r.value.0.value)
              && body.value["task_detail"].JStr?
              && r.value.0.value == Text.Strip(body.value["task_detail"].s)
    ensures r.Pass? && r.value.1.Some? ==>
              r.value.1.value in VALID_STATUSES
              && body.value["task_status"].JStr?
              && r.value.1.value == Text.Strip(body.value["task_status"].s)
    ensures !Falsy(body) && found && "task_detail" !in body.value && "task_status" !in body.value ==>
              r == Reject(BadRequest(NOTHING_TO_UPDATE))
    // The detail is judged first: a bad detail decides the answer whatever the status.
    ensures !Falsy(body) && found && "task_detail" in body.value && body.value["task_detail"].JOther? ==>
              r == Reject(SERVER_ERROR)
    ensures (!Falsy(body) && found && "task_detail" in body.value && body.value["task_detail"].JStr?
             && Text.Blank(body.value["task_detail"].s)) ==>
              r == Reject(BadRequest(DETAIL_EMPTY))
    ensures (!Falsy(body) && found && DetailOk(body.value) && "task_status" in body.value
             && body.value["task_status"].JOther?) ==>
              r == Reject(SERVER_ERROR)
    ensures (!Falsy(body) && found && DetailOk(body.value) && "task_status" in body.value
             && body.value["task_status"].JStr? && Text.Strip(body.value["task_status"].s) !in VALID_STATUSES) ==>
              r == Reject(BadRequest(STATUS_INVALID))
    // A request with at least one supplied field, every supplied field valid, passes.
    ensures r.Pass? <==> !Falsy(body) && found && DetailOk(body.value) && StatusOk(body.value)
                         && ("task_detail" in body.value || "task_status" in body.value)
  {
    if Falsy(body) then Reject(BadRequest(BODY_REQUIRED))
    else if !found then Reject(NOT_FOUND)
    else
      var m := body.value;
      var detail: Check<Option<string>> :=
        if "task_detail" !in m then Pass(None)
        else match m["task_detail"]
          case JStr(d) => if Text.Strip(d) == [] then Reject(BadRequest(DETAIL_EMPTY)) else Pass(Some(Text.Strip(d)))
          case JOther => Reject(SERVER_ERROR);
      if detail.Reject? then Reject(detail.response)
      else
        var status: Check<Option<string>> :=
          if "task_status" !in m then Pass(None)
          else match m["task_status"]
            case JStr(s) => if Text.Strip(s) !in VALID_STATUSES then Reject(BadRequest(STATUS_INVALID)) else Pass(Some(Text.Strip(s)))
            case JOther => Reject(SERVER_ERROR);
        if status.Reject? then Reject(status.response)
        else if detail.value.None? && status.value.None? then Reject(BadRequest(NOTHING_TO_UPDATE))
        else Pass((detail.value, status.value))
  }

  /** Whether a row is listed by `GET /api/tasks?status=...`: an absent or
      empty `status` argument lists everything, any other value selects
      rows whose status equals it exactly. */
  predicate Selected(t: Task, status: Option<string>) {
    status.None? || status.value == [] || t.status == status.value
  }

  /** Sum of the values of a map. */
  ghost function MapSum(m: map<string, nat>): nat
    decreases |m|
  {
    if m == map[] then 0
    else
      var k :| k in m;
      m[k] + MapSum(m - {k})
  }

  /** Any key may be taken out first when summing a map. */
  lemma {:induction false} MapSumRemove(m: map<string, nat>, k: string)
    requires k in m
    ensures MapSum(m) == m[k] + MapSum(m - {k})
    decreases |m|
  {
    var j :| j in m && MapSum(m) == m[j] + MapSum(m - {j});
    if j != k {
      var mj := m - {j};
      var mk := m - {k};
      assert mj.Keys == m.Keys - {j};
      assert mk.Keys == m.Keys - {k};
      MapSumRemove(mj, k);
      MapSumRemove(mk, j);
      assert mj - {k} == mk - {j};
    }
  }

  /** Counting one more row of a status adds one to the sum of the counts. */
  lemma MapSumIncrement(m: map<string, nat>, k: string)
    ensures MapSum(m[k := (if k in m then m[k] else 0) + 1]) == MapSum(m) + 1
  {
    var m' := m[k := (if k in m then m[k] else 0) + 1];
    MapSumRemove(m', k);
    assert m' - {k} == m - {k};
    if k in m {
      MapSumRemove(m, k);
    } else {
      assert m - {k} == m;
    }
  }

  /** Ids are keys: every row is stored under its own id. */
  ghost predicate Keyed(rows: map<nat, Task>) {
    forall id :: id in rows ==> rows[id].id == id
  }

  /** The rows with ids `n` down to 1 that the filter selects, highest id
      first: what `SELECT ... ORDER BY id DESC` returns. */
  function Listing(rows: map<nat, Task>, n: nat, status: Option<string>): seq<Task>
    decreases n
  {
    if n == 0 then []
    else (if n in rows && Selected(rows[n], status) then [rows[n]] else []) + Listing(rows, n - 1, status)
  }

  ghost function SelectedIds(rows: map<nat, Task>, n: nat, status: Option<string>): set<nat> {
    set id | id in rows && 1 <= id <= n && Selected(rows[id], status)
  }

  ghost function StatusIds(rows: map<nat, Task>, n: nat, st: string): set<nat> {
    set id | id in rows && 1 <= id <= n && rows[id].status == st
  }

  /** Every entry of the listing is the stored, selected row under its
      own id, an id in 1..n. */
  lemma {:induction false} ListingEntries(rows: map<nat, Task>, n: nat, status: Option<string>)
    requires Keyed(rows)
    ensures forall k :: 0 <= k < |Listing(rows, n, status)| ==>
              Entry(rows, n, status, Listing(rows, n, status)[k])
    decreases n
  {
    if n > 0 {
      ListingEntries(rows, n - 1, status);
      var tail := Listing(rows, n - 1, status);
      var l := Listing(rows, n, status);
      if n in rows && Selected(rows[n], status) {
        assert l == [rows[n]] + tail;
        assert forall k :: 1 <= k < |l| ==> l[k] == tail[k - 1];
      } else {
        assert l == tail;
      }
    }
  }

  ghost predicate Entry(rows: map<nat, Task>, n: nat, status: Option<string>, t: Task) {
    1 <= t.id <= n && t.id in rows && rows[t.id] == t && Selected(t, status)
  }

  /** Strictly decreasing ids. */
  predicate Descending(s: seq<Task>) {
    forall i, j :: 0 <= i < j < |s| ==> s[i].id > s[j].id
  }

  predicate IdsBelow(s: seq<Task>, n: nat) {
    forall k :: 0 <= k < |s| ==> s[k].id < n
  }

  lemma DescendingCons(t: Task, s: seq<Task>)
    requires Descending(s) && IdsBelow(s, t.id)
    ensures Descending([t] + s)
  {
    var l := [t] + s;
    forall i, j | 0 <= i < j < |l| ensures l[i].id > l[j].id {
      assert l[j] == s[j - 1];
      if i > 0 { assert l[i] == s[i - 1]; }
    }
  }

  /** The listing is strictly descending in id, all ids at most n. */
  lemma {:induction false} ListingSorted(rows: map<nat, Task>, n: nat, status: Option<string>)
    requires Keyed(rows)
    ensures Descending(Listing(rows, n, status)) && IdsBelow(Listing(rows, n, status), n + 1)
    decreases n
  {
    if n > 0 {
      ListingSorted(rows, n - 1, status);
      var tail := Listing(rows, n - 1, status);
      var l := Listing(rows, n, status);
      if n in rows && Selected(rows[n], status) {
        assert l == [rows[n]] + tail;
        DescendingCons(rows[n], tail);
        assert forall k :: 1 <= k < |l| ==> l[k] == tail[k - 1];
      } else {
        assert l == tail;
        assert forall k :: 0 <= k < |l| ==> l[k] == tail[k];
      }
    }
  }

  /** Every selected row with an id in 1..n is listed. */
  lemma {:induction false} ListingMembers(rows: map<nat, Task>, n: nat, status: Option<string>)
    ensures forall id :: 1 <= id <= n && id in rows && Selected(rows[id], status) ==> rows[id] in Listing(rows, n, status)
    decreases n
  {
    if n > 0 {
      ListingMembers(rows, n - 1, status);
    }
  }

  /** The listing holds as many rows as there are selected ids in 1..n. */
  lemma {:induction false} ListingCount(rows: map<nat, Task>, n: nat, status: Option<string>)
    ensures |Listing(rows, n, status)| == |SelectedIds(rows, n, status)|
    decreases n
  {
    if n > 0 {
      ListingCount(rows, n - 1, status);
      if n in rows && Selected(rows[n], status) {
        assert SelectedIds(rows, n, status) == SelectedIds(rows, n - 1, status) + {n};
      } else {
        assert SelectedIds(rows, n, status) == SelectedIds(rows, n - 1, status);
      }
    }
  }

  /** The number of listed rows with status `st`. */
  function CountStatus(s: seq<Task>, st: string): nat {
    if s == [] then 0 else (if s[0].status == st then 1 else 0) + CountStatus(s[1..], st)
  }

  /** In the unfiltered listing of 1..n, status `st` occurs once per row
      having it. */
  lemma {:induction false} ListingStatusCount(rows: map<nat, Task>, n: nat, st: string)
    ensures CountStatus(Listing(rows, n, None), st) == |StatusIds(rows, n, st)|
    decreases n
  {
    if n > 0 {
      ListingStatusCount(rows, n - 1, st);
      StatusIdsStep(rows, n, st);
      var l := Listing(rows, n, None);
      if n in rows {
        assert l[0] == rows[n] && l[1..] == Listing(rows, n - 1, None);
      } else {
        assert l == Listing(rows, n - 1, None);
      }
    }
  }

  /** Raising the bound by one adds id n when row n has the status. */
  lemma StatusIdsStep(rows: map<nat, Task>, n: nat, st: string)
    requires n > 0
    ensures |StatusIds(rows, n, st)| == |StatusIds(rows, n - 1, st)| + (if n in rows && rows[n].status == st then 1 else 0)
  {
    var prev := StatusIds(rows, n - 1, st);
    if n in rows && rows[n].status == st {
      assert StatusIds(rows, n, st) == prev + {n};
      assert n !in prev;
    } else {
      assert StatusIds(rows, n, st) == prev;
    }
  }

  /** The `GROUP BY task_status` counts of a list of rows. */
  function Histogram(s: seq<Task>): map<string, nat> {
    if s == [] then map[]
    else
      var h := Histogram(s[1..]);
      h[s[0].status := (if s[0].status in h then h[s[0].status] else 0) + 1]
  }

  /** A status is a key exactly when it occurs, and its count is the number
      of rows having it. */
  lemma {:induction false} HistogramCount(s: seq<Task>, st: string)
    ensures st in Histogram(s) <==> CountStatus(s, st) > 0
    ensures st in Histogram(s) ==> Histogram(s)[st] == CountStatus(s, st)
  {
    if s != [] {
      HistogramCount(s[1..], st);
    }
  }

  /** The per-status counts add up to the number of rows. */
  lemma {:induction false} HistogramSum(s: seq<Task>)
    ensures MapSum(Histogram(s)) == |s|
  {
    if s != [] {
      HistogramSum(s[1..]);
      MapSumIncrement(Histogram(s[1..]), s[0].status);
    }
  }

  /** The five rows `create_sample_data` inserts, in order. */
  const SAMPLE_TASKS: seq<(string, string)> := [
    ("Complete project documentation", "pending"),
    ("Review code changes", "in_progress"),
    ("Deploy to production", "pending"),
    ("Fix reported bugs", "completed"),
    ("Update user interface", "in_progress")
  ]

  /** The rows the first `n` sample tasks make in an empty table whose
      sequence stands at `start`. */
  function SampleRows(start: nat, now: nat, n: nat): map<nat, Task>
    requires n <= |SAMPLE_TASKS|
  {
    if n == 0 then map[]
    else SampleRows(start, now, n - 1)[start + n := Task(start + n, SAMPLE_TASKS[n - 1].0, SAMPLE_TASKS[n - 1].1, now, now)]
  }

  /** Sample task k gets id `start + k + 1`, and no other id is used. */
  lemma {:induction false} SampleRowsSpec(start: nat, now: nat, n: nat)
    requires n <= |SAMPLE_TASKS|
    ensures forall id :: id in SampleRows(start, now, n) <==> start < id <= start + n
    ensures forall k :: 0 <= k < n ==>
              SampleRows(start, now, n)[start + k + 1] == Task(start + k + 1, SAMPLE_TASKS[k].0, SAMPLE_TASKS[k].1, now, now)
  {
    if n > 0 {
      SampleRowsSpec(start, now, n - 1);
    }
  }

  class TaskStore {
    /** The rows of the `tasks` table by id. */
    var rows: map<nat, Task>
    /** The largest id ever assigned (SQLite's AUTOINCREMENT sequence): ids
        are never reused, even after deletes. */
    var lastId: nat

    ghost predicate Valid()
      reads this
    {
      forall id :: id in rows ==> 1 <= id <= lastId && rows[id].id == id && WellFormed(rows[id])
    }

    /** `init_database` on a new database file: an empty table. */
    constructor ()
      ensures Valid() && rows == map[] && lastId == 0
    {
      rows := map[];
      lastId := 0;
    }

    /** `INSERT INTO tasks (task_detail, task_status)`: a fresh id one past
        every id handed out so far, both timestamps set to `now`. */
    method Insert(detail: string, status: string, now: nat)
      requires Valid() && WellFormed(Task(0, detail, status, 0, 0))
      modifies this
      ensures Valid()
      ensures lastId == old(lastId) + 1
      ensures rows == old(rows)[lastId := Task(lastId, detail, status, now, now)]
      ensures lastId !in old(rows) && forall id :: id in old(rows) ==> id < lastId
    {
      lastId := lastId + 1;
      rows := rows[lastId := Task(lastId, detail, status, now, now)];
    }

    /** `POST /api/tasks`. */
    method Create(body: Body, now: nat) returns (resp: Response)
      requires Valid()
      modifies this
      ensures Valid()
      ensures match ValidateCreate(body)
        case Reject(e) => resp == e && rows == old(rows) && lastId == old(lastId)
        case Pass(v) =>
          && lastId == old(lastId) + 1
          && rows == old(rows)[lastId := Task(lastId, v.0, v.1, now, now)]
          && (forall id :: id in old(rows) ==> id < lastId)
          && resp == Response(201, Ok(Some("Task created successfully"), OneTask(rows[lastId])))
    {
      var check := ValidateCreate(body);
      if check.Reject? {
        return check.response;
      }
      Insert(check.value.0, check.value.1, now);
      resp := Response(201, Ok(Some("Task created successfully"), OneTask(rows[lastId])));
    }

    /** `GET /api/tasks/<id>`. */
    method Get(id: nat) returns (resp: Response)
      requires Valid()
      ensures id in rows ==> resp == Response(200, Ok(None, OneTask(rows[id]))) && resp.payload.data.task.id == id
      ensures id !in rows ==> resp == NOT_FOUND
    {
      if id in rows {
        resp := Response(200, Ok(None, OneTask(rows[id])));
      } else {
        resp := NOT_FOUND;
      }
    }

    /** `PUT /api/tasks/<id>`: only the supplied fields and `updated_at`
        change; any rejection leaves the table as it was. */
    method Update(id: nat, body: Body, now: nat) returns (resp: Response)
      requires Valid()
      modifies this
      ensures Valid() && lastId == old(lastId)
      ensures match ValidateUpdate(body, id in old(rows))
        case Reject(e) => resp == e && rows == old(rows)
        case Pass(v) =>
          && id in old(rows)
          && rows == old(rows)[id := Task(id, v.0.GetOr(old(rows)[id].detail), v.1.GetOr(old(rows)[id].status),
                                          old(rows)[id].createdAt, now)]
          && resp == Response(200, Ok(Some("Task updated successfully"), OneTask(rows[id])))
    {
      var check := ValidateUpdate(body, id in rows);
      if check.Reject? {
        return check.response;
      }
      var old_ := rows[id];
      var updated := Task(id, check.value.0.GetOr(old_.detail), check.value.1.GetOr(old_.status), old_.createdAt, now);
      rows := rows[id := updated];
      resp := Response(200, Ok(Some("Task updated successfully"), OneTask(updated)));
    }

    /** `DELETE /api/tasks/<id>`: removes exactly that row. */
    method Delete(id: nat) returns (resp: Response)
      requires Valid()
      modifies this
      ensures Valid() && lastId == old(lastId)
      ensures id !in old(rows) ==> resp == NOT_FOUND && rows == old(rows)
      ensures id in old(rows) ==> resp == Response(200, Ok(Some("Task deleted successfully"), NoData))
                                  && rows == old(rows) - {id}
    {
      if id !in rows {
        return NOT_FOUND;
      }
      rows := rows - {id};
      resp := Response(200, Ok(Some("Task deleted successfully"), NoData));
    }

    ghost function Matching(status: Option<string>): set<nat>
      reads this
    {
      SelectedIds(rows, lastId, status)
    }

    /** `GET /api/tasks[?status=...]` (`ORDER BY id DESC`): the selected
        rows, each exactly once, in descending id order, with their number. */
    function List(status: Option<string>): (resp: Response)
      reads this
      requires Valid()
      ensures resp.code == 200 && resp.payload.Ok? && resp.payload.message.None?
      ensures resp.payload.data.TaskList? && resp.payload.data.count == |resp.payload.data.tasks|
      ensures var tasks := resp.payload.data.tasks;
              && (forall i, j :: 0 <= i < j < |tasks| ==> tasks[i].id > tasks[j].id)
              && (forall k :: 0 <= k < |tasks| ==>
                    tasks[k].id in rows && rows[tasks[k].id] == tasks[k] && Selected(tasks[k], status))
              && (forall id :: id in rows && Selected(rows[id], status) ==> rows[id] in tasks)
              && |tasks| == |Matching(status)|
    {
      var tasks := Listing(rows, lastId, status);
      ListingEntries(rows, lastId, status);
      ListingSorted(rows, lastId, status);
      ListingMembers(rows, lastId, status);
      ListingCount(rows, lastId, status);
      Response(200, Ok(None, TaskList(tasks, |tasks|)))
    }

    ghost function RowsWithStatus(st: string): set<nat>
      reads this
    {
      set id | id in rows && rows[id].status == st
    }

    /** `GET /api/tasks/stats`: the number of rows, and for every status that
        occurs the number of rows having it; the counts add up to the
        total. */
    function Stats(): (resp: Response)
      reads this
      requires Valid()
      ensures resp.code == 200 && resp.payload.Ok? && resp.payload.data.Statistics?
      ensures var total, byStatus := resp.payload.data.total, resp.payload.data.byStatus;
              && total == |rows|
              && (forall st :: st in byStatus <==> RowsWithStatus(st) != {})
              && (forall st :: st in byStatus ==> byStatus[st] == |RowsWithStatus(st)|)
              && MapSum(byStatus) == total
    {
      var all := Listing(rows, lastId, None);
      var byStatus := Histogram(all);
      ListingCount(rows, lastId, None);
      assert SelectedIds(rows, lastId, None) == rows.Keys;
      HistogramSum(all);
      assert forall st :: st in byStatus ==> byStatus[st] == |RowsWithStatus(st)| by {
        forall st | st in byStatus ensures byStatus[st] == |RowsWithStatus(st)| {
          HistogramCount(all, st);
          ListingStatusCount(rows, lastId, st);
          assert StatusIds(rows, lastId, st) == RowsWithStatus(st);
        }
      }
      assert forall st :: st in byStatus <==> RowsWithStatus(st) != {} by {
        forall st ensures st in byStatus <==> RowsWithStatus(st) != {} {
          HistogramCount(all, st);
          ListingStatusCount(rows, lastId, st);
          assert StatusIds(rows, lastId, st) == RowsWithStatus(st);
        }
      }
      Response(200, Ok(None, Statistics(|rows|, byStatus)))
    }

    /** `create_sample_data`: the five sample tasks are inserted, in order,
        only when the table is empty; their ids continue the sequence. */
    method CreateSampleData(now: nat)
      requires Valid()
      modifies this
      ensures Valid()
      ensures old(rows) != map[] ==> rows == old(rows) && lastId == old(lastId)
      ensures old(rows) == map[] ==>
                lastId == old(lastId) + |SAMPLE_TASKS| && rows == SampleRows(old(lastId), now, |SAMPLE_TASKS|)
    {
      if rows != map[] {
        return;
      }
      var k := 0;
      while k < |SAMPLE_TASKS|
        invariant 0 <= k <= |SAMPLE_TASKS|
        invariant Valid()
        invariant lastId == old(lastId) + k
        invariant rows == SampleRows(old(lastId), now, k)
      {
        assert WellFormed(Task(0, SAMPLE_TASKS[k].0, SAMPLE_TASKS[k].1, 0, 0));
        Insert(SAMPLE_TASKS[k].0, SAMPLE_TASKS[k].1, now);
        k := k + 1;
      }
    }
  }
}
