/**
 * TaskManagerAgent.process: classify the lower-cased text (create, then
 * list, then complete, then help) and apply the result to the tasks
 * collection.
 */
module TaskManager {
  import opened Options
  import opened Text
  import opened Patterns
  import opened Sequences
  import opened Records

  const CreateWords: seq<string> := ["task", "create", "add", "todo", "new task"]
  const ListWords: seq<string> := ["list", "show", "tasks", "my tasks"]
  const CompleteWords: seq<string> := ["complete", "done", "finish"]

  /** How many tasks a listing shows: `limit(5)`. */
  const ListedTasks := 5

  datatype TaskIntent = CreateTask | ListTasks | CompleteTasks(prefixes: seq<string>) | TaskHelp

  function Classify(lower: string): TaskIntent {
    if ContainsAny(lower, CreateWords) then CreateTask
    else if ContainsAny(lower, ListWords) then ListTasks
    else if ContainsAny(lower, CompleteWords) then CompleteTasks(HexTokens(lower))
    else TaskHelp
  }

  /**
   * The precedence, keyword by keyword. "tasks" and "my tasks" contain
   * "task", so they always create: only "list" or "show" can list, and only
   * a text with no create or list keyword can complete.
   */
  lemma {:induction false} ClassifyPrecedence(lower: string)
    ensures Classify(lower) == CreateTask <==>
      Contains(lower, "task") || Contains(lower, "create") || Contains(lower, "add") || Contains(lower, "todo")
    ensures Classify(lower) == ListTasks <==>
      Classify(lower) != CreateTask && (Contains(lower, "list") || Contains(lower, "show"))
    ensures Classify(lower).CompleteTasks? <==>
      Classify(lower) != CreateTask && Classify(lower) != ListTasks &&
      (Contains(lower, "complete") || Contains(lower, "done") || Contains(lower, "finish"))
    ensures Classify(lower).CompleteTasks? ==> Classify(lower).prefixes == HexTokens(lower)
  {
    assert CreateWords[0] == "task" && CreateWords[1] == "create" && CreateWords[2] == "add";
    assert CreateWords[3] == "todo" && CreateWords[4] == "new task";
    assert ListWords[0] == "list" && ListWords[1] == "show" && ListWords[2] == "tasks" && ListWords[3] == "my tasks";
    assert CompleteWords[0] == "complete" && CompleteWords[1] == "done" && CompleteWords[2] == "finish";
    assert OccursAt("new task", "task", 4);
    assert OccursAt("tasks", "task", 0);
    assert OccursAt("my tasks", "task", 3);
    if Contains(lower, "new task") { ContainsTrans(lower, "new task", "task"); }
    if Contains(lower, "tasks") { ContainsTrans(lower, "tasks", "task"); }
    if Contains(lower, "my tasks") { ContainsTrans(lower, "my tasks", "task"); }
  }

  /** "Complete task <id>", the command the help text suggests, creates a task instead. */
  lemma CompleteTaskCommandCreates(id: string)
    ensures Classify(Lower("Complete task " + id)) == CreateTask
  {
    var t := "Complete task " + id;
    var s := Lower(t);
    assert t[9] == 't' && t[10] == 'a' && t[11] == 's' && t[12] == 'k';
    assert s[9..13] == "task";
    assert OccursAt(s, "task", 9);
    ClassifyPrecedence(s);
  }

  /** A text of at most seven characters and a space in front of `rest` yields only the tokens of `rest`. */
  lemma {:induction false} HexTokensSkipWord(w: string, rest: string)
    requires |w| < 8
    ensures HexTokens(w + " " + rest) == HexTokens(rest)
    decreases |w|
  {
    var s := w + " " + rest;
    if |s| >= 8 {
      assert s[..8][|w|] == ' ';
      assert !IsHexRun(s[..8]);
    }
    if w == [] {
      assert s[1..] == rest;
    } else {
      assert s[1..] == w[1..] + " " + rest;
      HexTokensSkipWord(w[1..], rest);
    }
  }

  /** A keyword with a letter the text lacks does not occur in it. */
  lemma MissingLetter(s: string, w: string, c: char)
    requires c in w
    requires forall k :: 0 <= k < |s| ==> s[k] != c
    ensures !Contains(s, w)
  {
    if Contains(s, w) {
      CharsOfOccurrence(s, w, c);
    }
  }

  /** "done " followed by hex digits has no letter outside "done" and a-f. */
  lemma DoneIdLetters(id: string, c: char)
    requires IsHexRun(id)
    requires !IsHexDigit(c) && c != 'o' && c != 'n' && c != ' '
    ensures forall k :: 0 <= k < |"done " + id| ==> ("done " + id)[k] != c
  {
    var s := "done " + id;
    forall k | 0 <= k < |s| ensures s[k] != c {
      if k >= 5 { assert s[k] == id[k - 5]; }
    }
  }

  lemma DoneIdLacksAdd(id: string)
    requires IsHexRun(id)
    requires !Contains(id, "add")
    ensures !Contains("done " + id, "add")
  {
    var s := "done " + id;
    assert s == "done" + [' '] + id;
    if Contains(s, "add") {
      ContainsAcrossSeparator("done", ' ', id, "add");
      MissingLetter("done", "add", 'a');
    }
  }

  lemma DoneIdLacksKeywords(id: string)
    requires IsHexRun(id)
    requires !Contains(id, "add")
    ensures var s := "done " + id;
      !Contains(s, "task") && !Contains(s, "create") && !Contains(s, "add") && !Contains(s, "todo") &&
      !Contains(s, "list") && !Contains(s, "show")
  {
    var s := "done " + id;
    DoneIdLetters(id, 't');
    MissingLetter(s, "task", 't');
    MissingLetter(s, "todo", 't');
    MissingLetter(s, "list", 't');
    DoneIdLetters(id, 'r');
    MissingLetter(s, "create", 'r');
    DoneIdLetters(id, 's');
    MissingLetter(s, "show", 's');
    DoneIdLacksAdd(id);
  }

  /** "done <id>" is already lower case. */
  lemma DoneIsLower(id: string)
    requires IsHexRun(id)
    ensures Lower("done " + id) == "done " + id
  {
    var s := "done " + id;
    forall i | 0 <= i < |s| ensures !('A' <= s[i] <= 'Z') {
      if i >= 5 { assert s[i] == id[i - 5]; }
    }
    LowerOfLower(s);
  }

  /** The only hex token of "done <id>" is the id. */
  lemma DoneTokens(id: string)
    requires IsHexRun(id)
    ensures HexTokens("done " + id) == [id]
  {
    HexTokensSkipWord("done", id);
    assert "done" + " " + id == "done " + id;
    HexTokensOfRun(id, []);
    assert id + [] == id;
  }

  /**
   * "done <id>" with an eight-hex-digit id completes by that prefix, as long
   * as the id does not spell "add" (a create keyword made of hex digits).
   */
  lemma DoneCommandCompletes(id: string)
    requires IsHexRun(id)
    requires !Contains(id, "add")
    ensures Classify(Lower("done " + id)) == CompleteTasks([id])
  {
    var s := "done " + id;
    DoneIsLower(id);
    assert OccursAt(s, "done", 0) by { assert s[..4] == "done"; }
    DoneIdLacksKeywords(id);
    ClassifyPrecedence(s);
    DoneTokens(id);
  }

  // ---------------------------------------------------------------------
  // Completing by id prefix

  /** The task's id starts with one of the prefixes: the union of the `^prefix` queries. */
  predicate MatchesAny(id: string, prefixes: seq<string>) {
    exists k :: 0 <= k < |prefixes| && StartsWith(id, prefixes[k])
  }

  function Mark(t: Task, prefixes: seq<string>): Task {
    if MatchesAny(t.id, prefixes) then t.(status := Completed) else t
  }

  /** The collection after one `update_many` per prefix: every matching task is completed. */
  function CompleteAll(ts: seq<Task>, prefixes: seq<string>): (r: seq<Task>)
    ensures |r| == |ts|
  {
    seq(|ts|, i requires 0 <= i < |ts| => Mark(ts[i], prefixes))
  }

  /** The sum of the `modified_count`s: matching tasks that were not already completed. */
  function NewlyCompleted(ts: seq<Task>, prefixes: seq<string>): nat {
    if ts == [] then 0
    else
      var t := ts[|ts| - 1];
      NewlyCompleted(ts[..|ts| - 1], prefixes) + (if MatchesAny(t.id, prefixes) && t.status != Completed then 1 else 0)
  }

  /** The count is positive exactly when some matching task was still open. */
  lemma {:induction false} NewlyCompletedPositive(ts: seq<Task>, prefixes: seq<string>)
    ensures NewlyCompleted(ts, prefixes) > 0 <==>
      exists i :: 0 <= i < |ts| && MatchesAny(ts[i].id, prefixes) && ts[i].status != Completed
    ensures NewlyCompleted(ts, prefixes) <= |ts|
  {
    if ts != [] {
      var init := ts[..|ts| - 1];
      NewlyCompletedPositive(init, prefixes);
      forall i | 0 <= i < |init| ensures init[i] == ts[i] { }
    }
  }

  lemma {:induction false} NothingCompleted(ts: seq<Task>)
    ensures NewlyCompleted(ts, []) == 0
  {
    if ts != [] { NothingCompleted(ts[..|ts| - 1]); }
  }

  /** Tasks matching `p` that no earlier prefix matched and that are still open. */
  function FreshHits(ts: seq<Task>, prefixes: seq<string>, p: string): nat {
    if ts == [] then 0
    else
      var t := ts[|ts| - 1];
      FreshHits(ts[..|ts| - 1], prefixes, p) +
        (if StartsWith(t.id, p) && !MatchesAny(t.id, prefixes) && t.status != Completed then 1 else 0)
  }

  lemma MatchesAnyExtend(id: string, prefixes: seq<string>, p: string)
    ensures MatchesAny(id, prefixes + [p]) <==> MatchesAny(id, prefixes) || StartsWith(id, p)
  {
    var ps := prefixes + [p];
    if MatchesAny(id, prefixes) {
      var k :| 0 <= k < |prefixes| && StartsWith(id, prefixes[k]);
      assert ps[k] == prefixes[k];
    }
    if StartsWith(id, p) { assert ps[|prefixes|] == p; }
    if MatchesAny(id, ps) {
      var k :| 0 <= k < |ps| && StartsWith(id, ps[k]);
      if k < |prefixes| { assert ps[k] == prefixes[k]; }
    }
  }

  /** One more prefix adds exactly the tasks it newly completes. */
  lemma {:induction false} NewlyCompletedExtend(ts: seq<Task>, prefixes: seq<string>, p: string)
    ensures NewlyCompleted(ts, prefixes + [p]) == NewlyCompleted(ts, prefixes) + FreshHits(ts, prefixes, p)
  {
    if ts != [] {
      NewlyCompletedExtend(ts[..|ts| - 1], prefixes, p);
      MatchesAnyExtend(ts[|ts| - 1].id, prefixes, p);
    }
  }

  /**
   * One task under one more prefix: a task already marked for the earlier
   * prefixes is set to completed when its id starts with `p` and it is still
   * open, which happens exactly when it is a fresh hit.
   */
  lemma MarkStep(t: Task, s: Task, done: seq<string>, p: string)
    requires t == Mark(s, done)
    ensures (StartsWith(t.id, p) && t.status != Completed) ==
            (StartsWith(s.id, p) && !MatchesAny(s.id, done) && s.status != Completed)
    ensures (if StartsWith(t.id, p) && t.status != Completed then t.(status := Completed) else t) == Mark(s, done + [p])
  {
    MatchesAnyExtend(s.id, done, p);
  }

  lemma FreshHitsStep(ts: seq<Task>, prefixes: seq<string>, p: string, i: nat)
    requires i < |ts|
    ensures FreshHits(ts[..i + 1], prefixes, p) == FreshHits(ts[..i], prefixes, p) +
      (if StartsWith(ts[i].id, p) && !MatchesAny(ts[i].id, prefixes) && ts[i].status != Completed then 1 else 0)
  {
    assert ts[..i + 1][..i] == ts[..i];
  }

  /** A new task as `Task(title=text)` builds it: pending, medium priority. */
  function NewTask(id: string, title: string, at: Stamp): Task {
    Task(id, title, Pending, Medium, at.shown, at.instant)
  }

  /** How many tasks have status "completed": `count_documents({"status": "completed"})`. */
  function CountCompleted(ts: seq<Task>): (n: nat)
    ensures n <= |ts|
  {
    if ts == [] then 0
    else CountCompleted(ts[..|ts| - 1]) + (if ts[|ts| - 1].status == Completed then 1 else 0)
  }

  /** One classified command applied to the tasks collection: the new collection and the reply. */
  function Apply(tasks: seq<Task>, intent: TaskIntent, text: string, id: string, at: Stamp): (seq<Task>, Reply) {
    match intent
    case CreateTask =>
      var t := NewTask(id, text, at);
      (tasks + [t], TaskCreated(t, |tasks| + 1))
    case ListTasks =>
      if tasks == [] then (tasks, NoTasks)
      else (tasks, TasksListed(NewestFirst(tasks, ListedTasks), |tasks|, CountCompleted(tasks)))
    case CompleteTasks(prefixes) =>
      var n := NewlyCompleted(tasks, prefixes);
      (CompleteAll(tasks, prefixes), if n > 0 then TasksCompleted(n) else Help)
    case TaskHelp =>
      (tasks, Help)
  }

  /** TaskManagerAgent.process on the tasks collection. */
  function Step(tasks: seq<Task>, text: string, id: string, at: Stamp): (seq<Task>, Reply) {
    Apply(tasks, Classify(Lower(text)), text, id, at)
  }

  /** Creating appends one pending, medium-priority task titled with the original text. */
  lemma CreateEffect(tasks: seq<Task>, text: string, id: string, at: Stamp)
    ensures var (after, reply) := Apply(tasks, CreateTask, text, id, at);
      && after == tasks + [Task(id, text, Pending, Medium, at.shown, at.instant)]
      && ActionTag(reply) == TaskCreatedTag && reply.total == |after|
  {
  }

  /** Listing and help leave the collection as it was. */
  lemma ReadOnlyEffect(tasks: seq<Task>, intent: TaskIntent, text: string, id: string, at: Stamp)
    requires intent == ListTasks || intent == TaskHelp
    ensures var (after, reply) := Apply(tasks, intent, text, id, at);
      && after == tasks
      && ActionTag(reply) == (if intent == TaskHelp then HelpTag else if tasks == [] then ListEmptyTag else ListTasksTag)
  {
  }

  /**
   * A listing shows the five newest tasks, newest first, with the number of
   * tasks and of completed ones.
   */
  lemma ListingShowsNewest(tasks: seq<Task>, text: string, id: string, at: Stamp)
    requires tasks != []
    ensures var reply := Apply(tasks, ListTasks, text, id, at).1;
      && reply.TasksListed?
      && |reply.recent| == Min(ListedTasks, |tasks|)
      && (forall i :: 0 <= i < |reply.recent| ==> reply.recent[i] == tasks[|tasks| - 1 - i])
      && reply.total == |tasks|
      && reply.completed == CountCompleted(tasks)
  {
    var recent := NewestFirst(tasks, ListedTasks);
    assert Apply(tasks, ListTasks, text, id, at).1 == TasksListed(recent, |tasks|, CountCompleted(tasks));
  }

  /**
   * Completing changes only the status of tasks whose id starts with one of
   * the prefixes, and reports `task_completed` exactly when one of them was
   * not completed before; otherwise it answers with help and nothing changed.
   */
  lemma CompleteEffect(tasks: seq<Task>, prefixes: seq<string>, text: string, id: string, at: Stamp)
    ensures var (after, reply) := Apply(tasks, CompleteTasks(prefixes), text, id, at);
      && |after| == |tasks|
      && (forall i :: 0 <= i < |tasks| ==> after[i] == tasks[i].(status := after[i].status))
      && (forall i :: 0 <= i < |tasks| ==>
            after[i].status == (if MatchesAny(tasks[i].id, prefixes) then Completed else tasks[i].status))
      && (ActionTag(reply) == TaskCompletedTag <==>
            exists i :: 0 <= i < |tasks| && MatchesAny(tasks[i].id, prefixes) && tasks[i].status != Completed)
      && (ActionTag(reply) == TaskCompletedTag ==> reply == TasksCompleted(NewlyCompleted(tasks, prefixes)))
      && (ActionTag(reply) != TaskCompletedTag ==> ActionTag(reply) == HelpTag && after == tasks)
  {
    var n := NewlyCompleted(tasks, prefixes);
    assert Apply(tasks, CompleteTasks(prefixes), text, id, at) ==
      (CompleteAll(tasks, prefixes), if n > 0 then TasksCompleted(n) else Help);
    NewlyCompletedPositive(tasks, prefixes);
    CompleteAllEffect(tasks, prefixes);
  }

  /**
   * Completing touches only statuses: a task matching a prefix becomes
   * completed, every other task is kept; when nothing was newly completed
   * the collection is unchanged.
   */
  lemma CompleteAllEffect(ts: seq<Task>, prefixes: seq<string>)
    ensures var after := CompleteAll(ts, prefixes);
      && (forall i :: 0 <= i < |ts| ==> after[i] == ts[i].(status := after[i].status))
      && (forall i :: 0 <= i < |ts| ==>
            after[i].status == (if MatchesAny(ts[i].id, prefixes) then Completed else ts[i].status))
      && (NewlyCompleted(ts, prefixes) == 0 ==> after == ts)
  {
    var after := CompleteAll(ts, prefixes);
    forall i | 0 <= i < |ts| ensures after[i] == Mark(ts[i], prefixes) { }
    NewlyCompletedPositive(ts, prefixes);
    if NewlyCompleted(ts, prefixes) == 0 {
      forall i | 0 <= i < |ts| ensures after[i] == ts[i] { }
      assert after == ts;
    }
  }
}
