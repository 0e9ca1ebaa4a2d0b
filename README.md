# LogicLens backend — a Dafny model

LogicLens is a small multi-agent assistant. Its backend (`server.py`) keeps four
collections: tasks, events, chat messages and one stats document. It routes each
chat message to one of four keyword-driven agents:

- the **task manager** creates, lists and completes tasks;
- the **scheduler** creates and lists events;
- the **reception** desk greets, routes calls, offers support or gives help;
- the **knowledge base** answers questions about the company, its features, its pricing and its support, or reports a search.

`POST /messages` stores the user's message, runs the agent and stores the
agent's answer. It then bumps at most one counter of the stats document. The
other routes read the message window, clear the messages, patch or delete a
task, delete an event and read the stats.

The model has three layers:

- **Agents, as pure functions on the lower-cased text.**
  - `Reception.Receive` and `KnowledgeBase.Lookup` answer from the text alone.
  - `TaskManager.Step` and `Scheduler.Step` also take the collection they work on and return the new collection with a structured reply.
  - The reply carries the `action` tag and the fields the response text is built from.
  - The regular expressions become explicit scanners in `Patterns`: the eight-hex-digit `findall` and the `at\s*(\d{1,2})(?::(\d{2}))?\s*(am|pm)?` search.
- **Routes, as functions on a value of the whole database (`Backend`).** Each route gives the database after the request together with the response, or with the HTTP status it raises. The properties are lemmas about these functions.
- **The store, updated in place (`Server.Database`).** It is a class whose fields are the collections. Its methods perform the routes step by step: the completion loop with one `update_many` per prefix, the `$inc` chain, and the backward cursor of `GET /messages`. Each method is proved to leave the store, and to answer, exactly as the matching `Backend` function says.

Values the program draws from `uuid.uuid4()` and `datetime.now()` are parameters:

- `Records.Stamp` holds an instant and its `strftime` text;
- `Backend.Request` holds every id and stamp one message needs, and tomorrow's date.

Collections are sequences in insertion order. MongoDB's
`sort(timestamp, -1).limit(n)` is modelled as "the last n, newest first". The
lemmas show that this is the newest n whenever the collection is sorted by
timestamp. The lemmas also show that each modelled route that writes keeps the
collections sorted: `POST /messages` provided the clock does not run backwards,
and `PATCH /tasks/{id}`, `DELETE /tasks/{id}`, `DELETE /events/{id}` and
`DELETE /messages` unconditionally.

## Model

| member | source | states |
|---|---|---|
| TaskManager.ClassifyPrecedence | server.py:86-121 | A text creates a task iff it contains "task", "create", "add" or "todo". Otherwise it lists iff it contains "list" or "show". Otherwise it completes iff it contains "complete", "done" or "finish", using the hex tokens of the text as prefixes. |
| TaskManager.CompleteTaskCommandCreates | server.py:87 | "Complete task <id>", the command the help text suggests, is classified as creating a task, for every id. |
| TaskManager.DoneCommandCompletes | server.py:121-122 | "done <id>" with an eight-hex-digit id not spelling "add" is classified as completing by exactly that one prefix. |
| TaskManager.CreateEffect | server.py:87-97 | Creating appends one task titled with the original text, status pending and priority medium. It reports `task_created` with the new total. |
| TaskManager.ReadOnlyEffect | server.py:100-118 | Listing and help leave the tasks unchanged. The tag is `list_empty` on an empty collection, `list_tasks` otherwise, and `help` for help. |
| TaskManager.ListingShowsNewest | server.py:101-118 | A listing shows the min(5, n) last-inserted tasks, newest first, with the number of tasks and of completed tasks. |
| TaskManager.CompleteEffect | server.py:120-141 | Completing changes only statuses. A task becomes completed iff its id starts with a prefix; every other task keeps its status. The reply is `task_completed` iff some matching task was still open, with the number of such tasks. Otherwise the reply is `help` and nothing changed. |
| TaskManager.CompleteAllEffect | server.py:125-130 | After the prefix updates every matching task is completed and every other field is kept. When nothing was newly completed the collection is unchanged. |
| TaskManager.NewlyCompletedPositive | server.py:124-132 | The summed `modified_count` is positive iff some matching task was not yet completed, and it never exceeds the number of tasks. |
| TaskManager.NewlyCompletedExtend | server.py:125-130 | Adding a prefix adds exactly the open tasks that it matches and no earlier prefix matched. |
| TaskManager.CountCompleted | server.py:115 | The count of completed tasks is at most the number of tasks. |
| Server.Database.CompletePrefix | server.py:126-130 | One `update_many` completes every task whose id starts with the prefix. It returns how many tasks actually changed and leaves the other collections alone. |
| Server.Database.CompleteMatching | server.py:122-130 | The loop over the prefixes leaves the tasks as `CompleteAll` and returns `NewlyCompleted`, the total the agent reports. |
| Server.Database.ServeTasks | server.py:81-146 | The task manager run in place leaves the tasks and gives the reply exactly as `TaskManager.Step`. |
| Patterns.HexTokens | server.py:122 | Every token found is a run of eight lower-case hex digits. |
| Patterns.HexTokensOccur | server.py:122 | Every token `findall` returns occurs in the scanned text. |
| Patterns.HexTokensEmptyIff | server.py:122-123 | `findall` returns nothing iff no eight consecutive characters are hex digits. |
| Patterns.HexTokensOfRun | server.py:122 | An eight-hex-digit run at the start of the text is the first token found. |
| Patterns.MatchAt | server.py:155 | A match anchored at i needs "at" at i. Its hour and minute groups are below 100. |
| Patterns.SearchFrom | server.py:155 | The search reports the match at the leftmost position that has one, or nothing when no position matches. |
| Patterns.SearchFromBounded | server.py:155 | What the search reports is a match of the pattern, so its hour and minute groups are below 100. |
| Patterns.SearchFindsFirst | server.py:155 | When the first position with a match is n, the search reports the match at n. |
| Patterns.MatchAtShift | server.py:155 | A match inside a longer text captures the same groups as on the text after it. |
| Scheduler.ClassifyPrecedence | server.py:154-188 | The text creates an event iff it contains "schedule", "meeting", "appointment" or "book". Otherwise it lists iff it contains "show", "calendar" or "events". The title is Call, else Appointment, else Meeting, each stated in both directions. |
| Scheduler.ClockTime | server.py:155-165 | The extracted hour is below 112 and the minute below 100. These are the bounds two-digit groups allow after the pm rule. |
| Scheduler.NoTimeDefaults | server.py:155-159 | When the time pattern matches at no position, whether or not the text says "at", the event is set at 14:00. |
| Scheduler.NoAtDefaults | server.py:155-159 | With no "at" in the text the event is set at 14:00. |
| Scheduler.NoonDefaults | server.py:155-159 | "meeting at noon" has "at" but no digit after it, so it is set at 14:00. |
| Scheduler.PhraseMatches | server.py:155 | The pattern captures exactly the hour, minute and am/pm of a written time such as "at 3:30 pm". |
| Scheduler.ClockOfPhrase | server.py:155-165 | A time written after text holding no "a" gives the conventional 24-hour clock. "12 am" is 0, "12 pm" is 12, pm adds 12 to 1-11, and a missing minute is 0. |
| Scheduler.AdjustIsTo24 | server.py:162-165 | For hours 1-12 with am/pm, or any hour without, the am/pm rule is the conventional 12-to-24-hour conversion. |
| Scheduler.Decimal | server.py:173 | The decimal digits read back as the number, with one digit below 10. |
| Scheduler.Pad2 | server.py:173 | The `:02d` text reads back as the number and is exactly two characters below 100. |
| Scheduler.RenderTimeReadsBack | server.py:173 | For hour and minute below 100 the event time is "HH:MM", and both fields read back as the numbers. |
| Scheduler.StepCreates | server.py:154-185 | Creating appends one event with the chosen title, the extracted time rendered HH:MM and tomorrow's date. It reports `event_created` with the new total. |
| Scheduler.ReadOnlyEffect | server.py:187-209 | Listing and help leave the events unchanged. The tag is `list_empty` on an empty collection, `list_events` otherwise, and `help` for help. |
| Scheduler.ListingShowsNewest | server.py:189-204 | A listing shows the min(3, n) last-inserted events, newest first, with the number of events. |
| Server.Database.ServeEvents | server.py:148-209 | The scheduler run in place leaves the events and gives the reply exactly as `Scheduler.Step`. |
| Reception.ReceivePrecedence | server.py:216-238 | The answer is a greeting iff a greeting word occurs. Otherwise it is call routing iff a call word occurs. Otherwise it is support iff a support word occurs. Since "hi" is matched as a substring, any text containing "hi" is greeted. |
| Reception.TransferThisCallIsGreeted | server.py:216-227 | "please transfer this call" is greeted, not routed, because "this" contains "hi". |
| KnowledgeBase.FirstKey | server.py:255-257 | The topic reported is that of the first key in dictionary order that occurs in the text, and none is reported when no key occurs. |
| KnowledgeBase.LookupCharacterised | server.py:255-269 | Each topic, and the fallback search, is characterised in both directions by the words the text contains: the dictionary keys, then price/cost/plan, then help/support/contact, then "feature". |
| Records.Inc | server.py:371-379 | `$inc` raises the chosen counter by one, leaves the others alone, and so raises the total by one. |
| Records.ActionNamesDistinct | server.py:370-374 | Two actions are equal iff their wire names are equal, so comparing tags is comparing the `action` strings. |
| Records.BumpRule | server.py:369-379 | At most one counter moves, by one. Reception always counts a call and the knowledge base always counts a query. The task manager counts only when the action is `task_created` or `task_completed`. |
| Backend.ParseAgent | server.py:350-359 | An agent is found iff the name is one of the four registered names, and the agent found carries that name. |
| Backend.Dispatch | server.py:357-361 | Running an agent never touches messages or stats. Only the task manager changes tasks and only the scheduler changes events. |
| Backend.UnknownAgentRejected | server.py:343-359 | The request fails iff the agent name is unknown. The failure is 400, and the user message has already been stored; nothing else changes. |
| Backend.KnownAgentAnswered | server.py:357-385 | A known agent adds exactly the user message and then the assistant message, both under that agent name. The response carries the reply's action, and the stats move by the counter rule. |
| Backend.ProcessMessageCounts | server.py:368-379 | Over a whole message at most one counter rises, by one. An unknown agent counts nothing, reception always counts a call and the knowledge base a query. |
| Backend.ProcessMessageCollections | server.py:341-385 | Tasks change only for the task manager and events only for the scheduler, each as that agent's step says. |
| Backend.ProcessMessageKeepsOrder | server.py:341-385 | With a clock that does not run backwards, a message keeps tasks, events and messages sorted by timestamp. |
| Backend.Select | server.py:389 | The query keeps only messages of the requested agent, or every message when no agent or the empty name is given. |
| Backend.SelectFrom | server.py:389-390 | Every selected message comes from the collection. |
| Backend.SelectKeeps | server.py:389-390 | Every message of the requested agent is selected. |
| Backend.SelectSorted | server.py:390 | A selection from a collection sorted by `created_at` is sorted by it. |
| Backend.SuffixWindow | server.py:390 | Once a backward scan has collected `limit` selected messages, or reached the start, it holds exactly the window. |
| Backend.GetMessagesWindow | server.py:387-394 | The window has min(limit, selected) messages, all of the requested agent and all from the store, oldest first. Every selected message left out is no newer than any message returned. |
| Backend.UpdateTaskEffect | server.py:293-307 | The result is 400 iff no field is supplied. It is 404 iff the first task with that id would not change, or there is none. A failure changes nothing. A success changes exactly the supplied fields of the first task with that id. Sortedness is preserved. |
| Backend.DeleteTaskEffect | server.py:309-314 | The result is 404 iff no task has that id. Otherwise one task with that id is removed, the rest are kept in order, and sortedness is preserved. |
| Backend.DeleteEventEffect | server.py:333-338 | The result is 404 iff no event has that id. Otherwise one event with that id is removed, the rest are kept in order, and sortedness is preserved. |
| Sequences.NewestWindow | server.py:389-390 | On a sorted sequence the last k elements are sorted and are the newest. Every element left out is no newer than any kept. |
| Server.Database.ProcessMessage | server.py:341-385 | The handler run in place leaves the store and answers as `Backend.ProcessMessage`. A sorted store stays sorted under a clock that does not run backwards. |
| Server.Database.BumpStats | server.py:369-379 | The elif chain of `$inc` upserts leaves the stats document as `Bump` says. |
| Server.Database.NewestSelected | server.py:389-390 | The backward cursor returns the window of `GET /messages`, newest first. |
| Server.Database.GetMessages | server.py:387-394 | The handler returns exactly `Backend.GetMessages`: the newest `limit` selected messages, oldest first. |
| Backend.ClearMessagesEffect | server.py:396-399 | After clearing, `GET /messages` returns nothing for any agent. Tasks, events and stats are unchanged, and sortedness is preserved. |
| Server.Database.ClearMessages | server.py:396-399 | Clearing empties the messages and keeps tasks, events and stats. |
| Server.Database.UpdateTask | server.py:293-307 | The handler leaves the store and answers as `Backend.UpdateTask`. |
| Server.Database.DeleteTask | server.py:309-314 | The handler leaves the store and answers as `Backend.DeleteTask`. |
| Server.Database.DeleteEvent | server.py:333-338 | The handler leaves the store and answers as `Backend.DeleteEvent`. |
| Server.Database.GetStats | server.py:402-407 | The stats read are the stored document, or every counter at 0 while none exists. This is `Backend.GetStats` of the store. |

## Left out

- The front end (`App.js`), FastAPI routing, CORS, logging and the asynchronous MongoDB driver are not modelled. The routes are run one at a time, so concurrent requests and the race of two upserts of the stats document are not covered.
- `uuid.uuid4()` and `datetime.now()` are parameters (`Records.Stamp`, `Backend.Request`). Tomorrow's date, computed with `timedelta(days=1)`, is a parameter too.
- Timestamps are stored by the source as ISO-8601 strings. The model stores the instant as an integer and sorts on it. The `fromisoformat` conversions on read do not change the data and are not modelled.
- Response text is not modelled: the emoji strings and the loops that concatenate the listings. Each reply carries its `action` and the structured fields the text shows. The assistant message stores that reply instead of its rendered text.
- `str.lower()` is modelled on ASCII letters only. Likewise `\d` matches only ASCII digits; Python's full Unicode digit set is not modelled. `\s` is modelled exactly, as the characters `str.isspace()` accepts.
- Only the two regular expressions the agents use are modelled, each as its own scanner. A general regular-expression engine is not part of this model.
- `create_task`, `get_tasks`, `create_event`, `get_events` and the root route are outside the modelled core. Tasks and events arrive only through the agents.
- Backend.GetMessages: requires `limit >= 1`. MongoDB treats `limit(0)` as no limit and rejects negative limits differently, so those cases are not modelled. The same precondition holds for Server.Database.GetMessages and Server.Database.NewestSelected.
- Backend.ProcessMessageKeepsOrder: assumes the clock does not run backwards while a request is served. Among documents with equal timestamps the model keeps insertion order, while MongoDB's order for ties is unspecified.
- Backend.UpdateTask: `update_one` and `delete_one` act on the first document in insertion order with that id, which stands for MongoDB's natural order. Ids are fresh uuids, so in practice at most one document matches.
- The `_id` field MongoDB adds, and its projection away on reads, are not modelled.
