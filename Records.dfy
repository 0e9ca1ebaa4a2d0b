/**
 * The stored documents (the pydantic models Task, Event, Message and
 * AgentStats), the structured reply an agent returns, and the counter rule
 * process_message applies to the stats document.
 */
module Records {
  import opened Options
  import opened Reception
  import opened KnowledgeBase

  const Pending := "pending"
  const Completed := "completed"
  const Medium := "medium"

  /** One reading of the clock: the instant the collections sort on, and the text strftime made of it. */
  datatype Stamp = Stamp(instant: int, shown: string)

  datatype Task = Task(id: string, title: string, status: string, priority: string, created: string, timestamp: int)

  datatype Event = Event(id: string, title: string, time: string, date: string, created: string, timestamp: int)

  /**
   * What an agent answers: the `action` tag together with the structured
   * fields its response text is built from (the text itself is not modelled).
   */
  datatype Reply =
    | TaskCreated(task: Task, total: nat)
    | NoTasks
    | TasksListed(recent: seq<Task>, total: nat, completed: nat)
    | TasksCompleted(count: nat)
    | EventCreated(event: Event, total: nat)
    | NoEvents
    | EventsListed(upcoming: seq<Event>, total: nat)
    | Receptionist(desk: Desk)
    | Knowledge(topic: Topic)
    | Search(query: string)
    | Help

  /** The `action` field of a response: one of a fixed set of names. */
  datatype Action =
    | TaskCreatedTag | ListEmptyTag | ListTasksTag | TaskCompletedTag | EventCreatedTag | ListEventsTag
    | GreetingTag | CallRoutingTag | SupportTag | KnowledgeTag | SearchTag | HelpTag

  /** The name each action has on the wire. */
  function ActionName(a: Action): string {
    match a
    case TaskCreatedTag => "task_created"
    case ListEmptyTag => "list_empty"
    case ListTasksTag => "list_tasks"
    case TaskCompletedTag => "task_completed"
    case EventCreatedTag => "event_created"
    case ListEventsTag => "list_events"
    case GreetingTag => "greeting"
    case CallRoutingTag => "call_routing"
    case SupportTag => "support"
    case KnowledgeTag => "knowledge"
    case SearchTag => "search"
    case HelpTag => "help"
  }

  /** The action a wire name stands for, if any. */
  function ParseAction(name: string): Option<Action> {
    if name == "task_created" then Some(TaskCreatedTag)
    else if name == "list_empty" then Some(ListEmptyTag)
    else if name == "list_tasks" then Some(ListTasksTag)
    else if name == "task_completed" then Some(TaskCompletedTag)
    else if name == "event_created" then Some(EventCreatedTag)
    else if name == "list_events" then Some(ListEventsTag)
    else if name == "greeting" then Some(GreetingTag)
    else if name == "call_routing" then Some(CallRoutingTag)
    else if name == "support" then Some(SupportTag)
    else if name == "knowledge" then Some(KnowledgeTag)
    else if name == "search" then Some(SearchTag)
    else if name == "help" then Some(HelpTag)
    else None
  }

  /** Every action reads back from its name. */
  lemma ActionNameParses(a: Action)
    ensures ParseAction(ActionName(a)) == Some(a)
  {
  }

  /** The names are distinct, so comparing actions is comparing their names. */
  lemma ActionNamesDistinct(a: Action, b: Action)
    ensures ActionName(a) == ActionName(b) <==> a == b
  {
    ActionNameParses(a);
    ActionNameParses(b);
  }

  /** The action each reply reports. */
  function ActionTag(r: Reply): Action {
    match r
    case TaskCreated(_, _) => TaskCreatedTag
    case NoTasks => ListEmptyTag
    case TasksListed(_, _, _) => ListTasksTag
    case TasksCompleted(_) => TaskCompletedTag
    case EventCreated(_, _) => EventCreatedTag
    case NoEvents => ListEmptyTag
    case EventsListed(_, _) => ListEventsTag
    case Receptionist(d) =>
      (match d
       case Greeting => GreetingTag
       case CallRouting => CallRoutingTag
       case Support => SupportTag
       case DeskHelp => HelpTag)
    case Knowledge(_) => KnowledgeTag
    case Search(_) => SearchTag
    case Help => HelpTag
  }

  datatype Role = User | Assistant

  /** A user message carries the typed text; an assistant message carries the agent's reply. */
  datatype Content = Said(text: string) | Replied(reply: Reply)

  datatype Message = Message(id: string, role: Role, content: Content, agent: string, timestamp: string, createdAt: int)

  function TaskAt(t: Task): int { t.timestamp }
  function EventAt(e: Event): int { e.timestamp }
  function MessageAt(m: Message): int { m.createdAt }

  /** The `id` field that PATCH and DELETE look records up by. */
  function TaskId(t: Task): string { t.id }
  function EventId(e: Event): string { e.id }

  // ---------------------------------------------------------------------
  // The stats document

  datatype Stats = Stats(tasksCreated: nat, tasksCompleted: nat, eventsCreated: nat, callsHandled: nat, queriesAnswered: nat)

  /** AgentStats(): every counter at its default 0. */
  const ZeroStats := Stats(0, 0, 0, 0, 0)

  datatype Counter = TasksCreatedCount | TasksCompletedCount | EventsCreatedCount | CallsHandledCount | QueriesAnsweredCount

  function Count(s: Stats, c: Counter): nat {
    match c
    case TasksCreatedCount => s.tasksCreated
    case TasksCompletedCount => s.tasksCompleted
    case EventsCreatedCount => s.eventsCreated
    case CallsHandledCount => s.callsHandled
    case QueriesAnsweredCount => s.queriesAnswered
  }

  function Total(s: Stats): nat {
    s.tasksCreated + s.tasksCompleted + s.eventsCreated + s.callsHandled + s.queriesAnswered
  }

  /** `$inc` of one counter by 1. */
  function Inc(s: Stats, c: Counter): (r: Stats)
    ensures Count(r, c) == Count(s, c) + 1
    ensures forall d :: d != c ==> Count(r, d) == Count(s, d)
    ensures Total(r) == Total(s) + 1
  {
    match c
    case TasksCreatedCount => s.(tasksCreated := s.tasksCreated + 1)
    case TasksCompletedCount => s.(tasksCompleted := s.tasksCompleted + 1)
    case EventsCreatedCount => s.(eventsCreated := s.eventsCreated + 1)
    case CallsHandledCount => s.(callsHandled := s.callsHandled + 1)
    case QueriesAnsweredCount => s.(queriesAnswered := s.queriesAnswered + 1)
  }

  /** The elif chain of process_message: which counter, if any, a reply from an agent bumps. */
  function CounterFor(agent: string, action: Action): Option<Counter> {
    if agent == "task_manager" && action == TaskCreatedTag then Some(TasksCreatedCount)
    else if agent == "task_manager" && action == TaskCompletedTag then Some(TasksCompletedCount)
    else if agent == "scheduler" && action == EventCreatedTag then Some(EventsCreatedCount)
    else if agent == "reception" then Some(CallsHandledCount)
    else if agent == "knowledge_base" then Some(QueriesAnsweredCount)
    else None
  }

  /** get_stats: the stored document, or AgentStats() when there is none. */
  function ReadStats(doc: Option<Stats>): Stats {
    doc.GetOr(ZeroStats)
  }

  /** `update_one({}, {"$inc": {counter: 1}}, upsert=True)` for the chosen counter, if any. */
  function Bump(doc: Option<Stats>, agent: string, action: Action): Option<Stats> {
    match CounterFor(agent, action)
    case None => doc
    case Some(c) => Some(Inc(ReadStats(doc), c))
  }

  /** The four agent names are pairwise different. */
  lemma AgentNamesDiffer()
    ensures "task_manager" != "scheduler" && "task_manager" != "reception" && "task_manager" != "knowledge_base"
    ensures "scheduler" != "reception" && "scheduler" != "knowledge_base" && "reception" != "knowledge_base"
  {
    assert "task_manager"[0] == 't' && "scheduler"[0] == 's' && "reception"[0] == 'r' && "knowledge_base"[0] == 'k';
  }

  /** The chosen counter, if any, moves by one and nothing else moves. */
  lemma BumpMovesOne(doc: Option<Stats>, agent: string, action: Action)
    ensures var before, after := ReadStats(doc), ReadStats(Bump(doc, agent, action));
      && (Total(after) == Total(before) || Total(after) == Total(before) + 1)
      && (forall c, d :: c != d && Count(after, c) != Count(before, c) ==> Count(after, d) == Count(before, d))
      && (forall c :: Count(after, c) == Count(before, c) || Count(after, c) == Count(before, c) + 1)
      && (Total(after) == Total(before) ==> Bump(doc, agent, action) == doc)
  {
    match CounterFor(agent, action)
    case None =>
      assert Bump(doc, agent, action) == doc;
    case Some(c) =>
      assert Bump(doc, agent, action) == Some(Inc(ReadStats(doc), c));
  }

  /** Reception always counts a call and the knowledge base always counts a query. */
  lemma BumpCountsDesks(doc: Option<Stats>, agent: string, action: Action)
    ensures var before, after := ReadStats(doc), ReadStats(Bump(doc, agent, action));
      && (agent == "reception" ==> Count(after, CallsHandledCount) == Count(before, CallsHandledCount) + 1)
      && (agent == "knowledge_base" ==> Count(after, QueriesAnsweredCount) == Count(before, QueriesAnsweredCount) + 1)
  {
    AgentNamesDiffer();
    if agent == "reception" {
      assert CounterFor(agent, action) == Some(CallsHandledCount);
    } else if agent == "knowledge_base" {
      assert CounterFor(agent, action) == Some(QueriesAnsweredCount);
    }
  }

  /** The counter a task-manager reply selects. */
  lemma TaskManagerCounter(action: Action)
    ensures CounterFor("task_manager", action) ==
      if action == TaskCreatedTag then Some(TasksCreatedCount)
      else if action == TaskCompletedTag then Some(TasksCompletedCount)
      else None
  {
    AgentNamesDiffer();
  }

  /** The task manager counts only a created or a completed task. */
  lemma BumpCountsTasks(doc: Option<Stats>, action: Action)
    ensures var before, after := ReadStats(doc), ReadStats(Bump(doc, "task_manager", action));
      Total(after) == Total(before) + 1 <==> action == TaskCreatedTag || action == TaskCompletedTag
  {
    TaskManagerCounter(action);
  }

  /** The scheduler counts only a created event. */
  lemma BumpCountsEvents(doc: Option<Stats>, action: Action)
    ensures var before, after := ReadStats(doc), ReadStats(Bump(doc, "scheduler", action));
      Total(after) == Total(before) + 1 <==> action == EventCreatedTag
  {
    AgentNamesDiffer();
    var before := ReadStats(doc);
    if action == EventCreatedTag {
      assert Bump(doc, "scheduler", action) == Some(Inc(before, EventsCreatedCount));
    } else {
      assert Bump(doc, "scheduler", action) == doc;
    }
  }

  /**
   * At most one counter moves, by exactly one: reception always counts a
   * call, the knowledge base always counts a query, and the task manager and
   * scheduler count only a created task, a completed task or a created event.
   */
  lemma BumpRule(doc: Option<Stats>, agent: string, action: Action)
    ensures var before, after := ReadStats(doc), ReadStats(Bump(doc, agent, action));
      && (Total(after) == Total(before) || Total(after) == Total(before) + 1)
      && (forall c, d :: c != d && Count(after, c) != Count(before, c) ==> Count(after, d) == Count(before, d))
      && (forall c :: Count(after, c) == Count(before, c) || Count(after, c) == Count(before, c) + 1)
      && (agent == "reception" ==> Count(after, CallsHandledCount) == Count(before, CallsHandledCount) + 1)
      && (agent == "knowledge_base" ==> Count(after, QueriesAnsweredCount) == Count(before, QueriesAnsweredCount) + 1)
      && (agent == "task_manager" ==>
            (Total(after) == Total(before) + 1 <==> action == TaskCreatedTag || action == TaskCompletedTag))
      && (agent == "scheduler" ==> (Total(after) == Total(before) + 1 <==> action == EventCreatedTag))
      && (Total(after) == Total(before) ==> Bump(doc, agent, action) == doc)
  {
    BumpMovesOne(doc, agent, action);
    BumpCountsDesks(doc, agent, action);
    if agent == "task_manager" {
      BumpCountsTasks(doc, action);
    } else if agent == "scheduler" {
      BumpCountsEvents(doc, action);
    }
  }
}
