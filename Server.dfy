/**
 * The store the routes work on, updated in place: one object holding the
 * three collections and the stats document. Each handler is proved to
 * leave the store, and to answer, as the matching route function of
 * Backend says.
 */
module Server {
  import opened Options
  import opened Text
  import opened Sequences
  import opened Records
  import opened Reception
  import opened KnowledgeBase
  import TaskManager
  import Scheduler
  import opened Backend

  class Database {
    var tasks: seq<Task>
    var events: seq<Event>
    var messages: seq<Message>
    var stats: Option<Stats>

    /** Empty collections and no stats document yet. */
    constructor()
      ensures Snapshot() == EmptyDb
    {
      tasks, events, messages, stats := [], [], [], None;
    }

    function Snapshot(): Db
      reads this
    {
      Db(tasks, events, messages, stats)
    }

    /**
     * One `update_many` of the completion loop: set every task whose id
     * starts with `p` to completed, counting the tasks that actually change
     * (`modified_count`). `start` is the collection before the loop and
     * `done` the prefixes already applied.
     */
    method CompletePrefix(ghost start: seq<Task>, ghost done: seq<string>, p: string) returns (hits: nat)
      requires |tasks| == |start|
      requires forall k :: 0 <= k < |tasks| ==> tasks[k] == TaskManager.Mark(start[k], done)
      modifies this
      ensures |tasks| == |start|
      ensures forall k :: 0 <= k < |tasks| ==> tasks[k] == TaskManager.Mark(start[k], done + [p])
      ensures hits == TaskManager.FreshHits(start, done, p)
      ensures events == old(events) && messages == old(messages) && stats == old(stats)
    {
      hits := 0;
      var i := 0;
      while i < |tasks|
        invariant 0 <= i <= |tasks| == |start|
        invariant forall k :: 0 <= k < i ==> tasks[k] == TaskManager.Mark(start[k], done + [p])
        invariant forall k :: i <= k < |tasks| ==> tasks[k] == TaskManager.Mark(start[k], done)
        invariant hits == TaskManager.FreshHits(start[..i], done, p)
        invariant events == old(events) && messages == old(messages) && stats == old(stats)
      {
        var t := tasks[i];
        TaskManager.MarkStep(t, start[i], done, p);
        TaskManager.FreshHitsStep(start, done, p, i);
        if StartsWith(t.id, p) && t.status != Completed {
          tasks := tasks[i := t.(status := Completed)];
          hits := hits + 1;
        }
        i := i + 1;
      }
      assert start[..|start|] == start;
    }

    /**
     * The completion loop: one `update_many` per prefix, adding up how many
     * tasks each actually changed.
     */
    method CompleteMatching(prefixes: seq<string>) returns (count: nat)
      modifies this
      ensures tasks == TaskManager.CompleteAll(old(tasks), prefixes)
      ensures count == TaskManager.NewlyCompleted(old(tasks), prefixes)
      ensures events == old(events) && messages == old(messages) && stats == old(stats)
    {
      ghost var start := tasks;
      TaskManager.NothingCompleted(start);
      count := 0;
      var j := 0;
      while j < |prefixes|
        invariant 0 <= j <= |prefixes|
        invariant |tasks| == |start|
        invariant forall k :: 0 <= k < |tasks| ==> tasks[k] == TaskManager.Mark(start[k], prefixes[..j])
        invariant count == TaskManager.NewlyCompleted(start, prefixes[..j])
        invariant events == old(events) && messages == old(messages) && stats == old(stats)
      {
        var hits := CompletePrefix(start, prefixes[..j], prefixes[j]);
        TaskManager.NewlyCompletedExtend(start, prefixes[..j], prefixes[j]);
        assert prefixes[..j + 1] == prefixes[..j] + [prefixes[j]];
        count := count + hits;
        j := j + 1;
      }
      assert prefixes[..|prefixes|] == prefixes;
    }

    /** TaskManagerAgent.process against the tasks collection. */
    method ServeTasks(text: string, id: string, at: Stamp) returns (reply: Reply)
      modifies this
      ensures (tasks, reply) == TaskManager.Step(old(tasks), text, id, at)
      ensures events == old(events) && messages == old(messages) && stats == old(stats)
    {
      match TaskManager.Classify(Lower(text))
      case CreateTask =>
        var t := TaskManager.NewTask(id, text, at);
        tasks := tasks + [t];
        reply := TaskCreated(t, |tasks|);
      case ListTasks =>
        if tasks == [] {
          reply := NoTasks;
        } else {
          reply := TasksListed(NewestFirst(tasks, TaskManager.ListedTasks), |tasks|, TaskManager.CountCompleted(tasks));
        }
      case CompleteTasks(prefixes) =>
        var n := CompleteMatching(prefixes);
        reply := if n > 0 then TasksCompleted(n) else Help;
      case TaskHelp =>
        reply := Help;
    }

    /** SchedulerAgent.process against the events collection. */
    method ServeEvents(text: string, id: string, at: Stamp, tomorrow: string) returns (reply: Reply)
      modifies this
      ensures (events, reply) == Scheduler.Step(old(events), text, id, at, tomorrow)
      ensures tasks == old(tasks) && messages == old(messages) && stats == old(stats)
    {
      var lower := Lower(text);
      var intent := Scheduler.Classify(lower);
      if intent.NewEvent? {
        var e := Event(id, intent.title, Scheduler.RenderTime(intent.hour, intent.minute), tomorrow, at.shown, at.instant);
        events := events + [e];
        reply := EventCreated(e, |events|);
      } else if intent.ListEvents? && events != [] {
        reply := EventsListed(NewestFirst(events, Scheduler.ListedEvents), |events|);
      } else if intent.ListEvents? {
        reply := NoEvents;
      } else {
        reply := Help;
      }
    }

    /** The stats `$inc` with `upsert=True` that follows a successful message. */
    method BumpStats(agent: string, action: Action)
      modifies this
      ensures stats == Bump(old(stats), agent, action)
      ensures tasks == old(tasks) && events == old(events) && messages == old(messages)
    {
      if agent == "task_manager" && action == TaskCreatedTag {
        stats := Some(Inc(ReadStats(stats), TasksCreatedCount));
      } else if agent == "task_manager" && action == TaskCompletedTag {
        stats := Some(Inc(ReadStats(stats), TasksCompletedCount));
      } else if agent == "scheduler" && action == EventCreatedTag {
        stats := Some(Inc(ReadStats(stats), EventsCreatedCount));
      } else if agent == "reception" {
        stats := Some(Inc(ReadStats(stats), CallsHandledCount));
      } else if agent == "knowledge_base" {
        stats := Some(Inc(ReadStats(stats), QueriesAnsweredCount));
      }
    }

    /**
     * POST /messages. With a clock that does not run backwards the
     * collections stay sorted by their timestamps.
     */
    method ProcessMessage(content: string, agent: string, rq: Request) returns (out: Outcome<Posted>)
      modifies this
      ensures (Snapshot(), out) == Backend.ProcessMessage(old(Snapshot()), content, agent, rq)
      ensures Ordered(old(Snapshot())) && ClockRuns(old(Snapshot()), rq) ==> Ordered(Snapshot())
    {
      ghost var before := Snapshot();
      if Ordered(before) && ClockRuns(before, rq) {
        ProcessMessageKeepsOrder(before, content, agent, rq);
      }
      var user := UserMessage(content, agent, rq);
      messages := messages + [user];
      var found := ParseAgent(agent);
      if found.None? {
        out := Fail(400);
        return;
      }
      var reply;
      match found.value {
        case TaskManagerAgent =>
          reply := ServeTasks(content, rq.recordId, rq.recordAt);
        case SchedulerAgent =>
          reply := ServeEvents(content, rq.recordId, rq.recordAt, rq.tomorrow);
        case ReceptionAgent =>
          reply := Receptionist(Receive(Lower(content)));
        case KnowledgeBaseAgent =>
          reply := match Lookup(Lower(content)) case Found(t) => Knowledge(t) case NotFound => Search(content);
      }
      var answer := AssistantMessage(reply, agent, rq);
      messages := messages + [answer];
      var action := ActionTag(reply);
      BumpStats(agent, action);
      out := Ok(Posted(user, answer, action));
    }

    /**
     * The cursor of GET /messages, `sort("created_at", -1).limit(limit)`:
     * walk back from the newest message collecting the selected ones until
     * `limit` are found.
     */
    method NewestSelected(agent: Option<string>, limit: nat) returns (newestFirst: seq<Message>)
      requires limit >= 1
      ensures newestFirst == Reverse(Backend.GetMessages(Snapshot(), agent, limit))
    {
      var ms := messages;
      newestFirst := [];
      var i := |ms|;
      while i > 0 && |newestFirst| < limit
        invariant 0 <= i <= |ms|
        invariant newestFirst == Reverse(Select(ms[i..], agent))
        invariant |newestFirst| <= limit
      {
        i := i - 1;
        ScanBack(ms, i, agent);
        if Selected(agent, ms[i]) {
          newestFirst := newestFirst + [ms[i]];
        }
      }
      if i == 0 { assert ms[i..] == ms; }
      SuffixWindow(ms, i, agent, limit);
    }

    /** GET /messages: the cursor's messages, reversed into oldest-first order. */
    method GetMessages(agent: Option<string>, limit: nat) returns (r: seq<Message>)
      requires limit >= 1
      ensures r == Backend.GetMessages(Snapshot(), agent, limit)
    {
      var newestFirst := NewestSelected(agent, limit);
      r := [];
      var j := 0;
      while j < |newestFirst|
        invariant 0 <= j <= |newestFirst|
        invariant r == Reverse(newestFirst[..j])
      {
        ReversePrefix(newestFirst, j);
        r := [newestFirst[j]] + r;
        j := j + 1;
      }
      assert newestFirst[..j] == newestFirst;
      ReverseReverse(Backend.GetMessages(Snapshot(), agent, limit));
    }

    /** DELETE /messages. */
    method ClearMessages()
      modifies this
      ensures Snapshot() == Backend.ClearMessages(old(Snapshot()))
    {
      messages := [];
    }

    /** PATCH /tasks/{id}. */
    method UpdateTask(id: string, status: Option<string>, priority: Option<string>) returns (out: Outcome<()>)
      modifies this
      ensures (Snapshot(), out) == Backend.UpdateTask(old(Snapshot()), id, status, priority)
    {
      if status.None? && priority.None? {
        return Fail(400);
      }
      var found := IndexOf(Ids(tasks, TaskId), id);
      if found.None? {
        return Fail(404);
      }
      var k := found.value;
      var t := Patch(tasks[k], status, priority);
      if t == tasks[k] {
        return Fail(404);
      }
      tasks := tasks[k := t];
      out := Ok(());
    }

    /** DELETE /tasks/{id}. */
    method DeleteTask(id: string) returns (out: Outcome<()>)
      modifies this
      ensures (Snapshot(), out) == Backend.DeleteTask(old(Snapshot()), id)
    {
      var found := IndexOf(Ids(tasks, TaskId), id);
      if found.None? {
        return Fail(404);
      }
      tasks := RemoveAt(tasks, found.value);
      out := Ok(());
    }

    /** DELETE /events/{id}. */
    method DeleteEvent(id: string) returns (out: Outcome<()>)
      modifies this
      ensures (Snapshot(), out) == Backend.DeleteEvent(old(Snapshot()), id)
    {
      var found := IndexOf(Ids(events, EventId), id);
      if found.None? {
        return Fail(404);
      }
      events := RemoveAt(events, found.value);
      out := Ok(());
    }

    /** GET /stats: the stored counters, or every counter at zero while no document exists. */
    method GetStats() returns (r: Stats)
      ensures stats.Some? ==> r == stats.value
      ensures stats.None? ==> r == ZeroStats
      ensures r == Backend.GetStats(Snapshot())
    {
      match stats
      case None => r := ZeroStats;
      case Some(s) => r := s;
    }
  }
}
