/**
 * The API routes of the backend as functions on a value of the whole
 * database: each takes the collections before the request and gives the
 * collections after it together with the response (or the HTTP error
 * status it raises). The class in Server performs the same updates in place.
 */
module Backend {
  import opened Options
  import opened Text
  import opened Sequences
  import opened Records
  import opened Reception
  import opened KnowledgeBase
  import TaskManager
  import Scheduler

  datatype Agent = TaskManagerAgent | SchedulerAgent | ReceptionAgent | KnowledgeBaseAgent

  function AgentName(a: Agent): string {
    match a
    case TaskManagerAgent => "task_manager"
    case SchedulerAgent => "scheduler"
    case ReceptionAgent => "reception"
    case KnowledgeBaseAgent => "knowledge_base"
  }

  /** `agents.get(name)`: the agent registered under that name, if any. */
  function ParseAgent(name: string): (r: Option<Agent>)
    ensures r.Some? ==> AgentName(r.value) == name
    ensures r.None? ==> forall a :: AgentName(a) != name
  {
    if name == "task_manager" then Some(TaskManagerAgent)
    else if name == "scheduler" then Some(SchedulerAgent)
    else if name == "reception" then Some(ReceptionAgent)
    else if name == "knowledge_base" then Some(KnowledgeBaseAgent)
    else None
  }

  /** The four collections: tasks, events, messages and the single stats document (absent until first bumped). */
  datatype Db = Db(tasks: seq<Task>, events: seq<Event>, messages: seq<Message>, stats: Option<Stats>)

  const EmptyDb := Db([], [], [], None)

  /**
   * The values `uuid.uuid4()` and `datetime.now()` supply while one message
   * is processed, in the order they are drawn: the user message, the task or
   * event an agent may create (and tomorrow's date for an event), the
   * assistant message.
   */
  datatype Request = Request(userId: string, userAt: Stamp, recordId: string, recordAt: Stamp, tomorrow: string,
                             replyId: string, replyAt: Stamp)

  /** The response body of POST /messages. */
  datatype Posted = Posted(user: Message, assistant: Message, action: Action)

  /**
   * `agent_class.process(content, db)`: run one agent on the text. Only the
   * task manager writes tasks and only the scheduler writes events; no agent
   * touches the messages or the stats.
   */
  function Dispatch(db: Db, agent: Agent, text: string, rq: Request): (r: (Db, Reply))
    ensures r.0.messages == db.messages && r.0.stats == db.stats
    ensures agent != TaskManagerAgent ==> r.0.tasks == db.tasks
    ensures agent != SchedulerAgent ==> r.0.events == db.events
  {
    match agent
    case TaskManagerAgent =>
      var step := TaskManager.Step(db.tasks, text, rq.recordId, rq.recordAt);
      (db.(tasks := step.0), step.1)
    case SchedulerAgent =>
      var step := Scheduler.Step(db.events, text, rq.recordId, rq.recordAt, rq.tomorrow);
      (db.(events := step.0), step.1)
    case ReceptionAgent =>
      (db, Receptionist(Receive(Lower(text))))
    case KnowledgeBaseAgent =>
      (db, match Lookup(Lower(text)) case Found(t) => Knowledge(t) case NotFound => Search(text))
  }

  function UserMessage(content: string, agent: string, rq: Request): Message {
    Message(rq.userId, User, Said(content), agent, rq.userAt.shown, rq.userAt.instant)
  }

  function AssistantMessage(reply: Reply, agent: string, rq: Request): Message {
    Message(rq.replyId, Assistant, Replied(reply), agent, rq.replyAt.shown, rq.replyAt.instant)
  }

  /**
   * POST /messages: store the user message, then look the agent up (400 if
   * unknown), run it, store its answer and bump the stats.
   */
  function ProcessMessage(db: Db, content: string, agent: string, rq: Request): (Db, Outcome<Posted>) {
    var user := UserMessage(content, agent, rq);
    var stored := db.(messages := db.messages + [user]);
    match ParseAgent(agent)
    case None => (stored, Fail(400))
    case Some(a) =>
      var (after, reply) := Dispatch(stored, a, content, rq);
      var answer := AssistantMessage(reply, agent, rq);
      var action := ActionTag(reply);
      (after.(messages := after.messages + [answer], stats := Bump(after.stats, agent, action)),
       Ok(Posted(user, answer, action)))
  }

  /**
   * The user message is stored before the agent is looked up: an unknown
   * agent fails with 400 after storing it, and changes nothing else.
   */
  lemma UnknownAgentRejected(db: Db, content: string, agent: string, rq: Request)
    ensures var (after, out) := ProcessMessage(db, content, agent, rq);
      && (out.Fail? <==> ParseAgent(agent).None?)
      && (out.Fail? ==> out.status == 400 && after == db.(messages := db.messages + [UserMessage(content, agent, rq)]))
  {
  }

  /**
   * A known agent adds exactly the user message and then the assistant
   * message, both under the same agent name, and the stats move as the
   * reply's action tag says.
   */
  lemma KnownAgentAnswered(db: Db, content: string, agent: string, rq: Request)
    requires ParseAgent(agent).Some?
    ensures var (after, out) := ProcessMessage(db, content, agent, rq);
      && out.Ok?
      && after.messages == db.messages + [UserMessage(content, agent, rq), out.value.assistant]
      && out.value.user == UserMessage(content, agent, rq)
      && out.value.user.role == User && out.value.user.agent == agent
      && out.value.assistant.role == Assistant && out.value.assistant.agent == agent
      && out.value.assistant.content.Replied?
      && out.value.action == ActionTag(out.value.assistant.content.reply)
      && after.stats == Bump(db.stats, agent, out.value.action)
  {
    var user := UserMessage(content, agent, rq);
    var stored := db.(messages := db.messages + [user]);
    var r := Dispatch(stored, ParseAgent(agent).value, content, rq);
    var answer := AssistantMessage(r.1, agent, rq);
    assert ProcessMessage(db, content, agent, rq) ==
      (r.0.(messages := r.0.messages + [answer], stats := Bump(r.0.stats, agent, ActionTag(r.1))),
       Ok(Posted(user, answer, ActionTag(r.1))));
  }

  /**
   * The stats rule over a whole message: at most one counter moves, by one;
   * reception and the knowledge base always count, and an unknown agent
   * counts nothing.
   */
  lemma ProcessMessageCounts(db: Db, content: string, agent: string, rq: Request)
    ensures var (after, out) := ProcessMessage(db, content, agent, rq);
      var before, now := ReadStats(db.stats), ReadStats(after.stats);
      && (Total(now) == Total(before) || Total(now) == Total(before) + 1)
      && (forall c :: Count(now, c) == Count(before, c) || Count(now, c) == Count(before, c) + 1)
      && (forall c, d :: c != d && Count(now, c) != Count(before, c) ==> Count(now, d) == Count(before, d))
      && (out.Fail? ==> now == before)
      && (agent == "reception" ==> Count(now, CallsHandledCount) == Count(before, CallsHandledCount) + 1)
      && (agent == "knowledge_base" ==> Count(now, QueriesAnsweredCount) == Count(before, QueriesAnsweredCount) + 1)
  {
    var out := ProcessMessage(db, content, agent, rq).1;
    UnknownAgentRejected(db, content, agent, rq);
    if out.Ok? {
      KnownAgentAnswered(db, content, agent, rq);
      BumpRule(db.stats, agent, out.value.action);
    }
  }

  /** Only the task manager and scheduler touch tasks and events, and each only its own collection. */
  lemma ProcessMessageCollections(db: Db, content: string, agent: string, rq: Request)
    ensures var after := ProcessMessage(db, content, agent, rq).0;
      && (agent != "task_manager" ==> after.tasks == db.tasks)
      && (agent != "scheduler" ==> after.events == db.events)
      && (agent == "task_manager" ==> after.tasks == TaskManager.Step(db.tasks, content, rq.recordId, rq.recordAt).0)
      && (agent == "scheduler" ==>
            after.events == Scheduler.Step(db.events, content, rq.recordId, rq.recordAt, rq.tomorrow).0)
  {
  }

  // ---------------------------------------------------------------------
  // Timestamps: the collections are sorted on them

  /** Each collection is stored in the order of the timestamp it is sorted on. */
  ghost predicate Ordered(db: Db) {
    SortedBy(db.tasks, TaskAt) && SortedBy(db.events, EventAt) && SortedBy(db.messages, MessageAt)
  }

  /** Nothing stored carries a timestamp later than t. */
  ghost predicate NotAfter(db: Db, t: int) {
    && (forall i :: 0 <= i < |db.tasks| ==> db.tasks[i].timestamp <= t)
    && (forall i :: 0 <= i < |db.events| ==> db.events[i].timestamp <= t)
    && (forall i :: 0 <= i < |db.messages| ==> db.messages[i].createdAt <= t)
  }

  /** The clock does not run backwards while a request is served. */
  ghost predicate ClockRuns(db: Db, rq: Request) {
    NotAfter(db, rq.userAt.instant) && rq.userAt.instant <= rq.recordAt.instant <= rq.replyAt.instant
  }

  lemma TaskStepKeepsOrder(tasks: seq<Task>, text: string, id: string, at: Stamp)
    requires SortedBy(tasks, TaskAt)
    requires forall i :: 0 <= i < |tasks| ==> tasks[i].timestamp <= at.instant
    ensures SortedBy(TaskManager.Step(tasks, text, id, at).0, TaskAt)
  {
    var intent := TaskManager.Classify(Lower(text));
    var after := TaskManager.Apply(tasks, intent, text, id, at).0;
    match intent
    case CreateTask =>
      SortedAppend(tasks, TaskAt, TaskManager.NewTask(id, text, at));
    case CompleteTasks(prefixes) =>
      forall i | 0 <= i < |tasks| ensures after[i].timestamp == tasks[i].timestamp {
        assert after[i] == TaskManager.Mark(tasks[i], prefixes);
      }
    case _ =>
  }

  lemma EventStepKeepsOrder(events: seq<Event>, text: string, id: string, at: Stamp, tomorrow: string)
    requires SortedBy(events, EventAt)
    requires forall i :: 0 <= i < |events| ==> events[i].timestamp <= at.instant
    ensures SortedBy(Scheduler.Step(events, text, id, at, tomorrow).0, EventAt)
  {
    var intent := Scheduler.Classify(Lower(text));
    if intent.NewEvent? {
      var e := Event(id, intent.title, Scheduler.RenderTime(intent.hour, intent.minute), tomorrow, at.shown, at.instant);
      SortedAppend(events, EventAt, e);
    }
  }

  /** With a clock that does not run backwards, serving a message keeps every collection sorted. */
  lemma ProcessMessageKeepsOrder(db: Db, content: string, agent: string, rq: Request)
    requires Ordered(db) && ClockRuns(db, rq)
    ensures Ordered(ProcessMessage(db, content, agent, rq).0)
  {
    var user := UserMessage(content, agent, rq);
    SortedAppend(db.messages, MessageAt, user);
    var stored := db.(messages := db.messages + [user]);
    match ParseAgent(agent)
    case None =>
    case Some(a) =>
      TaskStepKeepsOrder(db.tasks, content, rq.recordId, rq.recordAt);
      EventStepKeepsOrder(db.events, content, rq.recordId, rq.recordAt, rq.tomorrow);
      var (mid, reply) := Dispatch(stored, a, content, rq);
      var answer := AssistantMessage(reply, agent, rq);
      SortedAppend(stored.messages, MessageAt, answer);
  }

  // ---------------------------------------------------------------------
  // GET /messages

  /** The query `{"agent": agent} if agent else {}`: an absent or empty agent selects every message. */
  predicate Selected(agent: Option<string>, m: Message) {
    agent.None? || agent.value == "" || m.agent == agent.value
  }

  function Select(ms: seq<Message>, agent: Option<string>): (r: seq<Message>)
    ensures |r| <= |ms|
    ensures forall i :: 0 <= i < |r| ==> Selected(agent, r[i])
  {
    if ms == [] then []
    else
      var init := Select(ms[..|ms| - 1], agent);
      var last := ms[|ms| - 1];
      if Selected(agent, last) then init + [last] else init
  }

  /** The selection holds only messages of the collection. */
  lemma {:induction false} SelectFrom(ms: seq<Message>, agent: Option<string>)
    ensures forall m :: m in Select(ms, agent) ==> m in ms
  {
    if ms != [] {
      var init := ms[..|ms| - 1];
      SelectFrom(init, agent);
      assert forall m :: m in init ==> m in ms;
    }
  }

  lemma SelectAppend(ms: seq<Message>, agent: Option<string>, m: Message)
    ensures Select(ms + [m], agent) == Select(ms, agent) + (if Selected(agent, m) then [m] else [])
  {
    assert (ms + [m])[..|ms|] == ms;
  }

  /** Selecting from two stretches of the collection selects from each in turn. */
  lemma {:induction false} SelectConcat(a: seq<Message>, b: seq<Message>, agent: Option<string>)
    ensures Select(a + b, agent) == Select(a, agent) + Select(b, agent)
  {
    if b == [] {
      assert a + b == a;
    } else {
      var init := b[..|b| - 1];
      var last := b[|b| - 1];
      SelectConcat(a, init, agent);
      assert a + b == (a + init) + [last];
      assert b == init + [last];
      SelectAppend(a + init, agent, last);
      SelectAppend(init, agent, last);
    }
  }

  lemma SelectPrepend(m: Message, ms: seq<Message>, agent: Option<string>)
    ensures Select([m] + ms, agent) == (if Selected(agent, m) then [m] else []) + Select(ms, agent)
  {
    SelectConcat([m], ms, agent);
    SelectAppend([], agent, m);
    assert [] + [m] == [m];
  }

  /** One step back: the selection of a longer suffix, newest first, gains at most the message stepped over. */
  lemma ScanBack(ms: seq<Message>, i: nat, agent: Option<string>)
    requires i < |ms|
    ensures Reverse(Select(ms[i..], agent)) ==
            Reverse(Select(ms[i + 1..], agent)) + (if Selected(agent, ms[i]) then [ms[i]] else [])
  {
    var later := Select(ms[i + 1..], agent);
    assert ms[i..] == [ms[i]] + ms[i + 1..];
    SelectPrepend(ms[i], ms[i + 1..], agent);
    if Selected(agent, ms[i]) {
      ReversePrepend(ms[i], later);
    } else {
      assert Select(ms[i..], agent) == later;
    }
  }

  /**
   * Scanning back from the end: once the selection of a suffix holds
   * `limit` messages, or the suffix is the whole collection, that selection
   * is the window GET /messages returns.
   */
  lemma SuffixWindow(ms: seq<Message>, i: nat, agent: Option<string>, limit: nat)
    requires i <= |ms| && limit >= 1
    requires |Select(ms[i..], agent)| == limit || (i == 0 && |Select(ms, agent)| <= limit)
    ensures Select(ms[i..], agent) == Newest(Select(ms, agent), limit)
  {
    var front, back := Select(ms[..i], agent), Select(ms[i..], agent);
    SelectConcat(ms[..i], ms[i..], agent);
    assert ms[..i] + ms[i..] == ms;
    if |back| == limit {
      assert Newest(front + back, limit) == (front + back)[|front|..];
    } else {
      assert ms[..i] == [] && ms[i..] == ms;
      assert front + back == back;
    }
  }

  /** A selection from a collection sorted by `created_at` is sorted by it too. */
  lemma {:induction false} SelectSorted(ms: seq<Message>, agent: Option<string>)
    requires SortedBy(ms, MessageAt)
    ensures SortedBy(Select(ms, agent), MessageAt)
  {
    if ms != [] {
      var init := ms[..|ms| - 1];
      var last := ms[|ms| - 1];
      var before := Select(init, agent);
      assert SortedBy(init, MessageAt);
      SelectSorted(init, agent);
      SelectFrom(init, agent);
      if Selected(agent, last) {
        forall i | 0 <= i < |before| ensures MessageAt(before[i]) <= MessageAt(last) {
          assert before[i] in init;
          var k :| 0 <= k < |init| && init[k] == before[i];
          assert init[k] == ms[k];
        }
        SortedAppend(before, MessageAt, last);
      }
    }
  }

  /** Every selected message of the collection is in the selection. */
  lemma {:induction false} SelectKeeps(ms: seq<Message>, agent: Option<string>)
    ensures forall i :: 0 <= i < |ms| && Selected(agent, ms[i]) ==> ms[i] in Select(ms, agent)
  {
    if ms != [] {
      var init := ms[..|ms| - 1];
      SelectKeeps(init, agent);
      forall i | 0 <= i < |ms| && Selected(agent, ms[i]) ensures ms[i] in Select(ms, agent) {
        if i < |init| {
          assert ms[i] == init[i];
          assert init[i] in Select(init, agent);
        }
      }
    }
  }

  /** GET /messages: the newest `limit` selected messages, sorted back into oldest-first order. */
  function GetMessages(db: Db, agent: Option<string>, limit: nat): seq<Message>
    requires limit >= 1
  {
    Newest(Select(db.messages, agent), limit)
  }

  /**
   * The window holds at most `limit` messages, all of the requested agent,
   * oldest first; and on a store sorted by `created_at` they are the newest
   * ones: every selected message left out is no newer than any returned.
   */
  lemma GetMessagesWindow(db: Db, agent: Option<string>, limit: nat)
    requires limit >= 1 && Ordered(db)
    ensures var r := GetMessages(db, agent, limit);
      var all := Select(db.messages, agent);
      && |r| == Min(limit, |all|)
      && (forall i :: 0 <= i < |r| ==> Selected(agent, r[i]) && r[i] in db.messages)
      && SortedBy(r, MessageAt)
      && (forall i :: 0 <= i < |db.messages| && Selected(agent, db.messages[i]) ==>
            db.messages[i] in r || forall j :: 0 <= j < |r| ==> db.messages[i].createdAt <= r[j].createdAt)
  {
    var all := Select(db.messages, agent);
    SelectSorted(db.messages, agent);
    SelectKeeps(db.messages, agent);
    SelectFrom(db.messages, agent);
    NewestWindow(all, MessageAt, limit);
    var r := GetMessages(db, agent, limit);
    forall i | 0 <= i < |db.messages| && Selected(agent, db.messages[i])
      ensures db.messages[i] in r || forall j :: 0 <= j < |r| ==> db.messages[i].createdAt <= r[j].createdAt
    {
      var k :| 0 <= k < |all| && all[k] == db.messages[i];
      assert MessageAt(all[k]) == db.messages[i].createdAt;
    }
  }

  /** DELETE /messages. */
  function ClearMessages(db: Db): Db {
    db.(messages := [])
  }

  /**
   * Clearing leaves no message for any agent and touches neither tasks,
   * events nor stats, so it keeps the store sorted.
   */
  lemma ClearMessagesEffect(db: Db, agent: Option<string>, limit: nat)
    requires limit >= 1
    ensures var after := ClearMessages(db);
      && GetMessages(after, agent, limit) == []
      && after.tasks == db.tasks && after.events == db.events && after.stats == db.stats
      && (Ordered(db) ==> Ordered(after))
  {
  }

  // ---------------------------------------------------------------------
  // Tasks and events by id

  /** The ids of a collection, in stored order, as `find_one({"id": …})` scans them. */
  function Ids<T>(s: seq<T>, id: T -> string): (r: seq<string>)
    ensures |r| == |s| && forall i :: 0 <= i < |s| ==> r[i] == id(s[i])
  {
    seq(|s|, i requires 0 <= i < |s| => id(s[i]))
  }

  /** `$set` of the fields the TaskUpdate supplies. */
  function Patch(t: Task, status: Option<string>, priority: Option<string>): Task {
    t.(status := status.GetOr(t.status), priority := priority.GetOr(t.priority))
  }

  /**
   * PATCH /tasks/{id}: 400 when neither field is supplied; otherwise
   * `update_one` on the first task with that id, and 404 when it modified
   * nothing (no such task, or the task already had those values).
   */
  function UpdateTask(db: Db, id: string, status: Option<string>, priority: Option<string>): (Db, Outcome<()>) {
    if status.None? && priority.None? then (db, Fail(400))
    else
      match IndexOf(Ids(db.tasks, TaskId), id)
      case None => (db, Fail(404))
      case Some(k) =>
        var t := Patch(db.tasks[k], status, priority);
        if t == db.tasks[k] then (db, Fail(404))
        else (db.(tasks := db.tasks[k := t]), Ok(()))
  }

  /**
   * A successful update changes exactly the supplied fields of the first
   * task with that id; every failure leaves the store as it was, 400 exactly
   * when no field is supplied and 404 exactly when no task with that id
   * would change.
   */
  lemma UpdateTaskEffect(db: Db, id: string, status: Option<string>, priority: Option<string>)
    ensures var (after, out) := UpdateTask(db, id, status, priority);
      && (out.Fail? ==> after == db)
      && (out == Fail(400) <==> status.None? && priority.None?)
      && (out == Fail(404) <==>
            (status.Some? || priority.Some?) &&
            forall i :: 0 <= i < |db.tasks| && db.tasks[i].id == id ==>
              (forall j :: 0 <= j < i ==> db.tasks[j].id != id) ==> Patch(db.tasks[i], status, priority) == db.tasks[i])
      && (out.Ok? ==>
            exists k :: 0 <= k < |db.tasks| && db.tasks[k].id == id &&
              (forall j :: 0 <= j < k ==> db.tasks[j].id != id) &&
              after.tasks == db.tasks[k := Patch(db.tasks[k], status, priority)] &&
              after.tasks[k] != db.tasks[k] &&
              after.tasks[k].id == id && after.tasks[k].title == db.tasks[k].title &&
              after.tasks[k].created == db.tasks[k].created && after.tasks[k].timestamp == db.tasks[k].timestamp &&
              (status.None? ==> after.tasks[k].status == db.tasks[k].status) &&
              (priority.None? ==> after.tasks[k].priority == db.tasks[k].priority) &&
              after.events == db.events && after.messages == db.messages && after.stats == db.stats)
      && (Ordered(db) ==> Ordered(after))
  {
    if status.Some? || priority.Some? {
      var ids := Ids(db.tasks, TaskId);
      match IndexOf(ids, id)
      case None =>
      case Some(k) =>
        assert forall j :: 0 <= j < k ==> db.tasks[j].id != id by {
          forall j | 0 <= j < k ensures db.tasks[j].id != id { assert ids[j] != id; }
        }
        var after := db.tasks[k := Patch(db.tasks[k], status, priority)];
        forall i | 0 <= i < |after| ensures TaskAt(after[i]) == TaskAt(db.tasks[i]) { }
        if SortedBy(db.tasks, TaskAt) { SortedSameKeys(db.tasks, after, TaskAt); }
    }
  }

  /** DELETE /tasks/{id}: `delete_one` on the first task with that id, 404 when there is none. */
  function DeleteTask(db: Db, id: string): (Db, Outcome<()>) {
    match IndexOf(Ids(db.tasks, TaskId), id)
    case None => (db, Fail(404))
    case Some(k) => (db.(tasks := RemoveAt(db.tasks, k)), Ok(()))
  }

  /** DELETE /events/{id}: `delete_one` on the first event with that id, 404 when there is none. */
  function DeleteEvent(db: Db, id: string): (Db, Outcome<()>) {
    match IndexOf(Ids(db.events, EventId), id)
    case None => (db, Fail(404))
    case Some(k) => (db.(events := RemoveAt(db.events, k)), Ok(()))
  }

  /**
   * Deleting fails with 404 exactly when no task has that id, and otherwise
   * removes one task with that id and keeps the rest, in order.
   */
  lemma DeleteTaskEffect(db: Db, id: string)
    ensures var (after, out) := DeleteTask(db, id);
      && (out.Fail? <==> forall i :: 0 <= i < |db.tasks| ==> db.tasks[i].id != id)
      && (out.Fail? ==> out.status == 404 && after == db)
      && (out.Ok? ==>
            exists k :: 0 <= k < |db.tasks| && db.tasks[k].id == id &&
              after.tasks == db.tasks[..k] + db.tasks[k + 1..] &&
              after.events == db.events && after.messages == db.messages && after.stats == db.stats)
      && (Ordered(db) ==> Ordered(after))
  {
    var ids := Ids(db.tasks, TaskId);
    match IndexOf(ids, id)
    case None =>
    case Some(k) =>
      if Ordered(db) { SortedRemoveAt(db.tasks, TaskAt, k); }
  }

  /**
   * Deleting fails with 404 exactly when no event has that id, and otherwise
   * removes one event with that id and keeps the rest, in order.
   */
  lemma DeleteEventEffect(db: Db, id: string)
    ensures var (after, out) := DeleteEvent(db, id);
      && (out.Fail? <==> forall i :: 0 <= i < |db.events| ==> db.events[i].id != id)
      && (out.Fail? ==> out.status == 404 && after == db)
      && (out.Ok? ==>
            exists k :: 0 <= k < |db.events| && db.events[k].id == id &&
              after.events == db.events[..k] + db.events[k + 1..] &&
              after.tasks == db.tasks && after.messages == db.messages && after.stats == db.stats)
      && (Ordered(db) ==> Ordered(after))
  {
    var ids := Ids(db.events, EventId);
    match IndexOf(ids, id)
    case None =>
    case Some(k) =>
      if Ordered(db) { SortedRemoveAt(db.events, EventAt, k); }
  }

  /** GET /stats. */
  function GetStats(db: Db): Stats {
    ReadStats(db.stats)
  }
}
