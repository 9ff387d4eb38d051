/** The asynchronous chat proxy of apx-app/src/sobeys_scctower/backend/router.py:
    an in-memory task store keyed by task id, its five-minute cleanup, the
    start and poll endpoints, and the background worker that asks the
    supervisor agent and stores its answer. The worker thread is modelled as
    the sequence of store updates it performs; the network call becomes the
    reply it produced. */
module Chat {
  import opened Wrappers
  import opened Text

  // ---------------------------------------------------------------- Store

  datatype TaskStatus = Pending | Running | Done | Error

  /** The status strings the poll response may carry. */
  const ChatStatuses: set<string> := {"pending", "running", "done", "error"}

  function StatusText(s: TaskStatus): (r: string)
    ensures r in ChatStatuses
  {
    match s
    case Pending => "pending"
    case Running => "running"
    case Done => "done"
    case Error => "error"
  }

  /** One stored task. `createdAt` is None for entries written without a
      `created_at` key. */
  datatype Task = Task(status: TaskStatus, response: string, createdAt: Option<real>)

  type TaskStore = map<string, Task>

  /** Tasks older than this many seconds are dropped by the cleanup. */
  const TaskMaxAge: real := 300.0

  /** A task is stale when more than five minutes have passed since its
      creation time, a missing creation time counting as 0. */
  predicate IsStale(task: Task, now: real) {
    now - task.createdAt.GetOr(0.0) > TaskMaxAge
  }

  /** The tasks the cleanup keeps. */
  function Survivors(store: TaskStore, now: real): TaskStore {
    map k | k in store && !IsStale(store[k], now) :: store[k]
  }

  /** `_cleanup_old_tasks`: first collects the stale ids, then pops each;
      exactly the stale tasks go and the others stay untouched. */
  method CleanupOldTasks(store: TaskStore, now: real) returns (r: TaskStore)
    ensures forall k :: k in r <==> k in store && !IsStale(store[k], now)
    ensures forall k :: k in r ==> r[k] == store[k]
    ensures r == Survivors(store, now)
  {
    var stale := set k | k in store && IsStale(store[k], now);
    r := store;
    var todo := stale;
    while todo != {}
      invariant todo <= stale
      invariant r.Keys == store.Keys - (stale - todo)
      invariant forall k :: k in r ==> r[k] == store[k]
      decreases todo
    {
      var k :| k in todo;
      r := r - {k};
      todo := todo - {k};
    }
  }

  /** Cleaning up at a later time removes everything an earlier cleanup
      removed: staleness only grows with the clock. */
  lemma CleanupMonotone(store: TaskStore, t1: real, t2: real)
    requires t1 <= t2
    ensures Survivors(Survivors(store, t1), t2) == Survivors(store, t2)
  {
    var lhs := Survivors(Survivors(store, t1), t2);
    var rhs := Survivors(store, t2);
    forall k | k in rhs
      ensures k in lhs
    {
      assert !IsStale(store[k], t1);
    }
  }

  // ---------------------------------------------------------------- Endpoints

  /** The body of the start and poll responses. */
  datatype ChatTaskOut = ChatTaskOut(taskId: string, status: string, response: string)

  datatype StartResult = StartResult(store: TaskStore, reply: ChatTaskOut)

  /** `start_chat`, given the fresh task id and the clock: stale tasks are
      cleaned up first, then the new task is recorded as pending with an empty
      response and created now. */
  function StartChat(store: TaskStore, taskId: string, now: real): (r: StartResult)
    ensures r.reply == ChatTaskOut(taskId, "pending", "")
    ensures taskId in r.store && r.store[taskId] == Task(Pending, "", Some(now))
    ensures forall k :: k != taskId ==> (k in r.store <==> k in store && !IsStale(store[k], now))
    ensures forall k :: k in r.store && k != taskId ==> r.store[k] == store[k]
  {
    StartResult(Survivors(store, now)[taskId := Task(Pending, "", Some(now))], ChatTaskOut(taskId, "pending", ""))
  }

  /** `poll_chat`: reports the stored status and response of a known task and
      an error for an unknown id; it reads the store and never changes it. */
  function PollChat(store: TaskStore, taskId: string): (r: ChatTaskOut)
    ensures r.taskId == taskId && r.status in ChatStatuses
    ensures taskId !in store ==> r.status == "error" && r.response == "Task not found"
    ensures taskId in store ==> r.status == StatusText(store[taskId].status) && r.response == store[taskId].response
  {
    if taskId in store then ChatTaskOut(taskId, StatusText(store[taskId].status), store[taskId].response)
    else ChatTaskOut(taskId, "error", "Task not found")
  }

  /** A task polled right after it was started is pending. */
  lemma PollAfterStartIsPending(store: TaskStore, taskId: string, now: real)
    ensures PollChat(StartChat(store, taskId, now).store, taskId) == ChatTaskOut(taskId, "pending", "")
  {
  }

  // ---------------------------------------------------------------- Answer extraction

  /** One element of a message's `content` list; a field is None when its key is missing. */
  datatype ContentPart = ContentPart(partType: Option<string>, text: Option<string>)

  /** A message's `content`: missing, a list of parts, or some other value. */
  datatype ItemContent = NoContent | PartList(parts: seq<ContentPart>) | NotAList

  /** One output item of the agent's reply. */
  datatype OutputItem = OutputItem(itemType: Option<string>, role: Option<string>, content: ItemContent)

  /** An `output_text` part whose text is not blank, that is, whose text
      stays non-empty under `strip()` (see `Text.StripEmptyIffBlank`). */
  predicate HasAnswerText(part: ContentPart) {
    part.partType == Some("output_text") && !IsBlank(part.text.GetOr(""))
  }

  /** A part that offers an answer carries a non-empty text. */
  lemma AnswerTextNonEmpty(part: ContentPart)
    requires HasAnswerText(part)
    ensures part.text.Some? && part.text.value != ""
  {
  }

  /** The first non-blank `output_text` among the parts from index `k` on, unstripped, or "". */
  function FirstAnswerFrom(parts: seq<ContentPart>, k: nat): (r: string)
    requires k <= |parts|
    ensures r == "" <==> forall i :: k <= i < |parts| ==> !HasAnswerText(parts[i])
    ensures r != "" ==> exists i :: k <= i < |parts| && HasAnswerText(parts[i]) && parts[i].text == Some(r)
                                    && forall j :: k <= j < i ==> !HasAnswerText(parts[j])
    decreases |parts| - k
  {
    if k == |parts| then ""
    else if HasAnswerText(parts[k]) then
      AnswerTextNonEmpty(parts[k]);
      parts[k].text.value
    else
      FirstAnswerFrom(parts, k + 1)
  }

  /** The first non-blank `output_text` of a content list, unstripped, or "". */
  function FirstAnswerText(parts: seq<ContentPart>): (r: string)
    ensures r == "" <==> forall i :: 0 <= i < |parts| ==> !HasAnswerText(parts[i])
    ensures r != "" ==> exists i :: 0 <= i < |parts| && HasAnswerText(parts[i]) && parts[i].text == Some(r)
                                    && forall j :: 0 <= j < i ==> !HasAnswerText(parts[j])
  {
    FirstAnswerFrom(parts, 0)
  }

  /** The answer one item offers: the first non-blank text of an assistant message. */
  function ItemAnswer(item: OutputItem): string {
    if item.itemType == Some("message") && item.role == Some("assistant") && item.content.PartList?
    then FirstAnswerText(item.content.parts)
    else ""
  }

  /** The last non-empty string among the first `n` of a list, found by
      walking backwards; "" when all of them are empty. */
  function LastNonEmpty(xs: seq<string>, n: nat): (r: string)
    requires n <= |xs|
    ensures r == "" <==> forall i :: 0 <= i < n ==> xs[i] == ""
    ensures r != "" ==> exists i :: 0 <= i < n && xs[i] == r && forall j :: i < j < n ==> xs[j] == ""
  {
    if n == 0 then ""
    else if xs[n - 1] != "" then xs[n - 1]
    else LastNonEmpty(xs, n - 1)
  }

  /** The worker's answer extraction: walks the output items from the last to
      the first and takes the answer of the last item that offers one; "" when
      none does. */
  function ExtractAnswer(output: seq<OutputItem>): (r: string)
    ensures r == "" <==> forall i :: 0 <= i < |output| ==> ItemAnswer(output[i]) == ""
    ensures r != "" ==> exists i :: 0 <= i < |output| && ItemAnswer(output[i]) == r
                                    && forall j :: i < j < |output| ==> ItemAnswer(output[j]) == ""
  {
    var answers := seq(|output|, i requires 0 <= i < |output| => ItemAnswer(output[i]));
    assert forall i :: 0 <= i < |output| ==> answers[i] == ItemAnswer(output[i]);
    LastNonEmpty(answers, |answers|)
  }

  /** The extracted answer is either empty or has a non-whitespace character. */
  lemma AnswerNeverBlank(output: seq<OutputItem>)
    ensures ExtractAnswer(output) == "" || !IsBlank(ExtractAnswer(output))
  {
    var r := ExtractAnswer(output);
    if r != "" {
      var i :| 0 <= i < |output| && ItemAnswer(output[i]) == r;
      var parts := output[i].content.parts;
      var j :| 0 <= j < |parts| && HasAnswerText(parts[j]) && parts[j].text == Some(r);
    }
  }

  // ---------------------------------------------------------------- Worker

  /** What the call to the agent endpoint produced: an HTTP reply (its status
      and the parsed `output` list, empty when the key is missing) or an
      exception with its message. */
  datatype MasReply = HttpReply(statusCode: nat, output: seq<OutputItem>) | Raised(message: string)

  /** The status and response text the worker records for a reply. */
  function WorkerResult(reply: MasReply): (r: (TaskStatus, string))
    ensures r.0 == Done || r.0 == Error
    ensures r.0 == Done <==> reply.HttpReply? && reply.statusCode == 200
    ensures reply.HttpReply? && reply.statusCode != 200
            ==> r.1 == "MAS returned " + NatToString(reply.statusCode)
                && ParseDecimal(r.1[|"MAS returned "|..]) == reply.statusCode
    ensures reply.HttpReply? && reply.statusCode == 200 ==> r.1 == ExtractAnswer(reply.output)
    ensures reply.Raised? ==> r.1 == reply.message
  {
    match reply
    case HttpReply(code, output) =>
      if code != 200 then
        var text := "MAS returned " + NatToString(code);
        assert text[|"MAS returned "|..] == NatToString(code);
        NatToStringRoundTrip(code);
        (Error, text)
      else (Done, ExtractAnswer(output))
    case Raised(message) => (Error, message)
  }

  /** First write of `_run_mas_task`: the task becomes running, replacing the
      whole entry (the creation time is not carried over). */
  function MarkRunning(store: TaskStore, taskId: string): (r: TaskStore)
    ensures taskId in r && r[taskId] == Task(Running, "", None)
    ensures forall k :: k != taskId ==> (k in r <==> k in store)
    ensures forall k :: k in r && k != taskId ==> r[k] == store[k]
  {
    store[taskId := Task(Running, "", None)]
  }

  /** Final write of `_run_mas_task`: done with the extracted answer, or error
      with the reason, again replacing the whole entry. */
  function CompleteTask(store: TaskStore, taskId: string, reply: MasReply): (r: TaskStore)
    ensures taskId in r && r[taskId].createdAt == None
    ensures (r[taskId].status, r[taskId].response) == WorkerResult(reply)
    ensures forall k :: k != taskId ==> (k in r <==> k in store)
    ensures forall k :: k in r && k != taskId ==> r[k] == store[k]
  {
    var (status, response) := WorkerResult(reply);
    store[taskId := Task(status, response, None)]
  }

  /** As written, a finished task is lost at the next start of any chat: the
      worker's writes dropped its creation time, so the cleanup counts it as
      created at time 0, although it is younger than five minutes. */
  lemma FinishedTaskLostOnNextStart(store: TaskStore, a: string, b: string, t0: real, t1: real, reply: MasReply)
    requires a != b
    requires t0 <= t1 < t0 + TaskMaxAge
    requires t1 > TaskMaxAge
    ensures var started := StartChat(store, a, t0).store;
            var finished := CompleteTask(MarkRunning(started, a), a, reply);
            PollChat(StartChat(finished, b, t1).store, a) == ChatTaskOut(a, "error", "Task not found")
  {
  }

  /** The creation time an entry already has, kept across worker writes. */
  function CreatedAtOf(store: TaskStore, taskId: string): Option<real> {
    if taskId in store then store[taskId].createdAt else None
  }

  /** Corrected first worker write: running, keeping the creation time. */
  function MarkRunningKeepingAge(store: TaskStore, taskId: string): (r: TaskStore)
    ensures taskId in r && r[taskId].status == Running && r[taskId].response == ""
    ensures r[taskId].createdAt == CreatedAtOf(store, taskId)
    ensures forall k :: k != taskId ==> (k in r <==> k in store)
    ensures forall k :: k in r && k != taskId ==> r[k] == store[k]
  {
    store[taskId := Task(Running, "", CreatedAtOf(store, taskId))]
  }

  /** Corrected final worker write: records the result, keeping the creation time. */
  function CompleteTaskKeepingAge(store: TaskStore, taskId: string, reply: MasReply): (r: TaskStore)
    ensures taskId in r && (r[taskId].status, r[taskId].response) == WorkerResult(reply)
    ensures r[taskId].createdAt == CreatedAtOf(store, taskId)
    ensures forall k :: k != taskId ==> (k in r <==> k in store)
    ensures forall k :: k in r && k != taskId ==> r[k] == store[k]
  {
    var (status, response) := WorkerResult(reply);
    store[taskId := Task(status, response, CreatedAtOf(store, taskId))]
  }

  /** With the corrected writes a finished task can be polled for its result
      until five minutes after its creation, and is gone afterwards. */
  lemma FinishedTaskKeptUntilExpiry(store: TaskStore, a: string, b: string, t0: real, t1: real, reply: MasReply)
    requires a != b
    requires t0 <= t1
    ensures var started := StartChat(store, a, t0).store;
            var finished := CompleteTaskKeepingAge(MarkRunningKeepingAge(started, a), a, reply);
            var polled := PollChat(StartChat(finished, b, t1).store, a);
            if t1 - t0 <= TaskMaxAge
            then polled == ChatTaskOut(a, StatusText(WorkerResult(reply).0), WorkerResult(reply).1)
                 && (polled.status == "done" || polled.status == "error")
            else polled == ChatTaskOut(a, "error", "Task not found")
  {
  }
}
