# ai2ch core in Dafny

A model of the posting core of ai2ch ("Нейродвач"), an anonymous imageboard
where a language model answers in threads next to human posters. Four
pieces are modelled, each taken out of its I/O:

- **Prompt rendering and reply fallback** (`src/gemini/client.js`,
  `generateReplyForThread`). `Prompt.Render` builds the prompt. It holds a
  context header naming the board and thread, then one entry per post of
  the last twenty posts (`posts.slice(-20)`), then the task line.
  `Prompt.Finish` turns the backend outcome (`NoClient | Ok(text) | Fault`)
  into reply text that is never empty. `Prompt.GenerateReply` joins the two
  around a backend that is passed in as a function.
- **The reply handler** (`src/routes/threads.js`) as a transition
  `Threads.Reply` on an immutable store. Thread viewing is the query
  `Threads.ViewThread`.
- **The new-thread handler** (`src/routes/boards.js`) as a transition
  `Boards.CreateThread`. The index and board pages are the queries
  `Boards.ListBoards` and `Boards.ViewBoard`.
- **The board seeding rule** of `initDb` (`src/db.js`) as `Seed.SeedBoards`.

The store (`Store.Db`) holds the `boards`, `threads` and `posts` tables as
sequences in insertion order. It also holds one id counter per table and an
abstract clock standing in for `CURRENT_TIMESTAMP`. `Store.Valid` is the
store invariant. Ids ascend along every table and stay below their
counters. Every `board_id` and `thread_id` names an existing row. Every
transition keeps this invariant, so `ORDER BY id` is each table's own
order.

The AI step in the route handlers is `generateRepliesForThread`. It is a
parameter `gen: GenRequest -> Generated`, where `Generated` is
`Replies(texts) | Failed`. Every lemma about the handlers holds for every
generator. The reply count, API key and model override that the handlers
pass along are folded into the generator value, and nothing is claimed
about them. Each mutating request takes two clock readings. `now` is read when
the request first writes. `later` is read once the generator has answered.
At each reading the store clock becomes `max(clock, reading)`, so
timestamps never run backwards.

Modules: `Wrappers` (Option), `Forms` (JavaScript falsiness and
`String.prototype.trim`), `Store`, `Prompt`, `Seed`, `Flow` (the generator,
the response and the reply-storing step that both handlers share),
`Threads` and `Boards`.

The route files import `generateRepliesForThread` and `clampReplyCount`
from `src/gemini/client.js`. The version of that file modelled here exports
only `generateReplyForThread`, which renders one prompt from the last
twenty posts and returns one reply. What the imported generator does with
its reply count, API key and model is therefore not part of this model.
The new-thread handler checks only that the title is truthy (`!title`), so a
title made of spaces is accepted, and the model does the same.

Each accepted request also takes a `Flow.Storage` value. It says whether the
first write goes through: the user post of a reply, or the create transaction
of a new thread. When it `Throws`, nothing is stored. The reply handler still
redirects to the thread, and the new-thread handler answers 500.

## Model

| member | source | states |
|---|---|---|
| Prompt.Window | src/gemini/client.js:32-33 | the window has min(20, n) posts and is exactly the input's suffix of that length, in input order |
| Prompt.Label | src/gemini/client.js:36 | the label is `Анон` exactly when `author_type` is `user`, and `Нейросеть` for every other author type |
| Prompt.Decimal | src/gemini/client.js:37 | the id is written as a non-empty run of decimal digits with no leading zero unless the id is 0, the shortest form `${p.id}` gives; `DecimalRoundTrip` shows those digits denote the id |
| Prompt.WindowAt | src/gemini/client.js:33 | the window's i-th post is the input's post at position n minus the window length plus i |
| Prompt.Render | src/gemini/client.js:30-40 | the prompt starts with the context header `Контекст:\nБорда: /<slug>/ - <board title>\nТред: <thread title>\n\n` and ends with the task line `\nТвоя задача: Написать следующий пост в этот тред.`; a history of at most twenty posts is rendered in full, in order, between them |
| Prompt.RenderLayout | src/gemini/client.js:30-40 | the prompt is the context header, then the entries of the window's posts before the i-th, then the i-th post's entry `[Пост #<id> от <label>]:\n<content>\n---\n` (id in decimal, label from `Label`), then the entries after it, then the task line |
| Prompt.RenderSameRecentPosts | src/gemini/client.js:33 | two histories with the same last twenty posts render to the same prompt, so older posts do not matter |
| Prompt.BuildPrompt | src/gemini/client.js:30-40 | the loop that appends one entry per windowed post yields exactly the prompt `Render` describes |
| Prompt.JoinedAppend | src/gemini/client.js:35-38 | rendering posts one after another, each by the same rule, turns two joined lists into the two texts joined |
| Prompt.EntriesAppend | src/gemini/client.js:35-38 | the entries of two post lists joined are the two entry texts joined, so entries concatenate in window order |
| Prompt.EntriesSnoc | src/gemini/client.js:35-38 | adding one post at the end of a list adds exactly that post's entry at the end of the text |
| Prompt.EntriesAt | src/gemini/client.js:35-38 | the entries of a list are the entries before the i-th post, its entry, then the entries after it |
| Prompt.EntryIdentifiesPost | src/gemini/client.js:37 | equal entries come from posts with equal id, equal content and the same user-or-not label, so an entry names one post |
| Prompt.DecimalRoundTrip | src/gemini/client.js:37 | reading the rendered decimal id back gives the id |
| Prompt.Finish | src/gemini/client.js:23-56 | the reply is never empty; a non-empty backend text is kept, an empty one becomes the silence notice, no client gives the not-configured notice, a fault gives the unavailable notice |
| Prompt.GenerateReply | src/gemini/client.js:23-56 | whatever the backend does, the reply text is non-empty |
| Prompt.NoClientIgnoresBackend | src/gemini/client.js:24-26 | with no client the reply is the not-configured notice for every backend, so no backend is consulted |
| Prompt.ReplyFromBackend | src/gemini/client.js:48-55 | with a client, the backend's non-empty text is the reply, an empty text gives the silence notice, and a raised error gives the unavailable notice instead of escaping |
| Prompt.ReplySameRecentPosts | src/gemini/client.js:33 | the reply depends on the history only through its last twenty posts |
| Forms.TrimStart | src/routes/threads.js:39 | the result is the suffix of the input that starts at its first non-space character |
| Forms.TrimEnd | src/routes/threads.js:39 | the result is the prefix of the input that ends at its last non-space character |
| Forms.Trim | src/routes/threads.js:39 | `s.trim()` is empty if and only if every character of `s` is a JavaScript space or line terminator; a non-empty result starts and ends with a non-space character and is no longer than `s` |
| Forms.MissingOrBlank | src/routes/boards.js:42 | the content check rejects exactly an absent content and a content made of spaces only |
| Store.FirstWithSlug | src/routes/threads.js:10 | the board lookup finds a board with that slug if and only if one exists |
| Store.FindThread | src/routes/threads.js:13 | the thread lookup finds a thread with that id on that board if and only if one exists |
| Store.OfThread | src/routes/threads.js:16 | a thread's posts are exactly the stored posts whose thread id matches |
| Store.ThreadPosts | src/routes/threads.js:16 | the query returns every post whose `thread_id` matches and no other post |
| Store.OfThreadAppend | src/routes/threads.js:49 | selecting a thread's posts distributes over appended rows |
| Store.OfThreadAscending | src/routes/threads.js:49 | selecting a thread's posts keeps ascending ids, which gives `ORDER BY id ASC` |
| Store.ThreadPostsAscending | src/routes/threads.js:16 | in a valid store a thread's posts come in ascending id order |
| Store.AppendElsewhereKeepsPosts | src/routes/threads.js:63-66 | appending only posts of one thread leaves every other thread's post list as it was |
| Store.UnissuedThreadHasNoPosts | src/routes/boards.js:50-52 | a thread id not issued yet owns no posts in a valid store |
| Store.InsertPosts | src/routes/threads.js:63-66 | inserting texts one by one appends one post per text, in order, with consecutive fresh ids, and changes nothing else |
| Store.Touch | src/routes/threads.js:69 | the update sets `updated_at` of the threads with that id to the clock and leaves every other row as it was |
| Store.Tick | src/routes/threads.js:69 | the clock reading used by a request is not earlier than the previous one or than `now` |
| Store.InsertPostsValid | src/routes/threads.js:63-66 | appending posts to an existing thread keeps the store invariant |
| Store.InsertThreadValid | src/routes/boards.js:50-52 | inserting a thread on an existing board keeps the store invariant and issues the new thread id |
| Store.TouchValid | src/routes/threads.js:69 | the `updated_at` bump keeps the store invariant |
| Flow.AddAiReplies | src/routes/threads.js:63-69 | storing replies appends exactly one `ai`/`Нейросеть` post per text, in the order returned, after all existing posts; only the target thread's `updated_at` moves, to a clock reading not earlier than the end of generation; boards and other thread rows stay as they were |
| Flow.AddAiRepliesTouchesNewest | src/routes/boards.js:79-80 | when the target is the newest thread, only that last row's `updated_at` moves |
| Flow.AddAiRepliesThreadPosts | src/routes/threads.js:63-66 | the replies join the target thread's posts at their end and no other thread's posts change |
| Flow.AddAiRepliesValid | src/routes/boards.js:74-80 | storing replies keeps the store invariant |
| Threads.ViewThread | src/routes/threads.js:7-16 | a thread page exists if and only if the board slug is known and the thread belongs to that board; it lists exactly that thread's posts, in ascending id order in a valid store |
| Threads.Reply | src/routes/threads.js:28-78 | `next()` if and only if the board is unknown or the thread is not on it, with no write; otherwise always a redirect to the thread; missing or blank content, or a user post insert that throws, writes nothing |
| Threads.ReplyGuardsPrecedeContent | src/routes/threads.js:33-41 | whether the answer is `next()` does not depend on the content, so the board and thread checks come before content validation |
| Threads.ReplyContext | src/routes/threads.js:45-49 | the generator's context is the thread's earlier posts followed by the new `user`/`Анон` post with the content untrimmed; it ascends by id and ends with that post |
| Threads.AcceptReply | src/routes/threads.js:43-77 | once the checks pass, the answer is the redirect to the thread whatever the generator does; if the user post insert throws, the `catch` redirects and nothing is stored |
| Threads.ReplyGeneratorFailed | src/routes/threads.js:73-77 | if the generator fails, the user post stays appended after all existing posts, the threads are unchanged and the answer is still the redirect |
| Threads.ReplyGeneratorAnswered | src/routes/threads.js:45-71 | if the generator answers, the user post comes first, then its texts in the order returned as AI posts; the thread's row keeps every column but `updated_at`, which moves to a clock reading not earlier than the end of generation; no thread row is added or removed and the boards stay as they were |
| Threads.ReplyFrame | src/routes/threads.js:45-69 | boards, every other thread's row and every other thread's posts stay as they were |
| Threads.ReplyValid | src/routes/threads.js:28-78 | a reply keeps the store invariant |
| Boards.ListBoards | src/routes/boards.js:8 | the index lists every board once, in ascending id order in a valid store |
| Boards.OnBoard | src/routes/boards.js:25 | the selected threads are exactly the stored threads of that board |
| Boards.OnBoardAscending | src/routes/boards.js:25-26 | selecting a board's threads keeps ascending ids |
| Boards.Summaries | src/routes/boards.js:21-26 | the grouped rows are exactly the board's threads, each with its post count; over threads in ascending id order the rows ascend by thread id, so each thread has one row |
| Boards.SortByRecency | src/routes/boards.js:27 | the ordered rows are a permutation of the input, most recently updated first |
| Boards.InsertByRecency | src/routes/boards.js:27 | placing a row into a most-recent-first list keeps that order and adds exactly that row |
| Boards.InsertKeepsOnce | src/routes/boards.js:26-27 | placing a thread not yet listed keeps every thread listed once |
| Boards.SortKeepsOnce | src/routes/boards.js:26-27 | ordering by recency keeps every thread listed once |
| Boards.ViewBoard | src/routes/boards.js:13-30 | a board page exists if and only if the slug is known; it lists every thread of that board and no other, each with its post count, most recently updated first, and in a valid store each thread once |
| Boards.CreateThread | src/routes/boards.js:34-88 | `next()` if and only if the board is unknown; 400 if and only if the board is known and the title is falsy or the content missing or blank (the title is not trimmed); both write nothing; a create transaction that throws writes nothing and answers 500; a redirect goes to the new thread id |
| Boards.CreateContext | src/routes/boards.js:49-63 | the generator's context for a new thread is exactly its one freshly stored post |
| Boards.AcceptThread | src/routes/boards.js:46-87 | once the checks pass, the answer is either the redirect to the new thread or 500; a create transaction that throws leaves the store as it was and answers 500 |
| Boards.OpenThread | src/routes/boards.js:49-60 | the create transaction appends the thread row (title as given) and its first `user`/`Анон` post, and changes nothing else |
| Boards.CreateGeneratorFailed | src/routes/boards.js:84-87 | if the generator fails, the answer is 500, yet the new thread and its first post stay stored |
| Boards.CreateGeneratorAnswered | src/routes/boards.js:62-82 | if the generator answers, its texts follow the first post in the order returned as AI posts, the new thread's `updated_at` moves to a reading not earlier than the end of generation, and the answer redirects to the new thread |
| Boards.CreateAtomic | src/routes/boards.js:46-60 | either nothing is written (a guard failed, or the transaction threw and was rolled back), or the new thread and its first post both are, that post first in the thread |
| Boards.CreateOnlyAppends | src/routes/boards.js:49-80 | a create writes nothing or only appends: one thread row, and posts that all belong to the new thread |
| Boards.CreateFrame | src/routes/boards.js:46-80 | boards, existing thread rows and the posts of every other thread stay as they were |
| Boards.CreateValid | src/routes/boards.js:34-88 | creating a thread keeps the store invariant |
| Seed.InsertBoards | src/db.js:35-38 | the transaction inserts every item as a board, in order, with consecutive fresh ids, and changes nothing else |
| Seed.SeedBoards | src/db.js:24-40 | an empty boards table gets exactly the four boards `b`, `pr`, `ai`, `news` in that order; a non-empty one is left alone; existing boards and the other tables never change |
| Seed.SeedAllOrNothing | src/db.js:35-38 | the boards table grows by all four boards or not at all |
| Seed.SeedIdempotent | src/db.js:24-25 | seeding a second time changes nothing |
| Seed.InsertBoardsValid | src/db.js:35-38 | inserting boards with fresh ascending ids keeps the store invariant |
| Seed.SeedValid | src/db.js:24-40 | seeding keeps the store invariant |
| Seed.SeedFreshStore | src/db.js:24-38 | seeding the empty schema gives a valid store with the four default boards at ids 1 to 4 |

## Left out

- The Google Generative AI SDK calls (`getGenerativeModel`, `generateContent`), the model id from `src/config.js` and the system instruction are not modelled. The backend is the function parameter of `Prompt.GenerateReply`, and a raised error is its `Raises` result.
- `generateRepliesForThread` and `clampReplyCount` are not defined in the modelled client. They are the uninterpreted generator parameter. Reply splitting, delimiters, reply-count clamping and per-request key or model override are not modelled.
- A throw from `clampReplyCount`, which both handlers call before the board lookup, is not modelled.
- Express routing, `res.render`, redirect mechanics, the EJS views and the 404 handler of `src/server.js` are plumbing. Responses are the `Flow.Response` datatype, and `next()` is `PassOn`.
- Environment reading in `src/config.js` and all `console` logging are I/O.
- The filesystem work, schema loading and WAL pragma of `src/db.js` are I/O. The schema file is not part of this model. Ids are assumed to come from a per-table counter starting at 1. The columns `threads.created_at`, `threads.updated_at` and `posts.created_at` are assumed to default to `CURRENT_TIMESTAMP`, so a new thread and a new post carry the current clock even though the inserts do not name those columns.
- Ids are unbounded natural numbers. SQLite's 64-bit rowid limit (2^63 − 1) is not modelled. Nor is the 2^53 precision limit of JavaScript numbers, which better-sqlite3 uses for rowids by default; above it `${p.id}` in the prompt and the redirect id from `lastInsertRowid` would no longer be the row's exact decimal id.
- The unique constraint on `slug` is not modelled. The board lookup returns the first board with that slug.
- Real `CURRENT_TIMESTAMP` values are replaced by two monotonic clock readings per request, one before and one after generation. Differences between statements on the same side of generation are not modelled.
- Concurrent requests and their races on a thread are not modelled. Each request is one atomic transition.
- Threads.Reply: a throw from a statement after the user post (one of the AI inserts, or the `updated_at` update) is not modelled. The source would keep the rows written so far and redirect from the `catch`. Only a generator failure is modelled there.
- Boards.CreateThread: a throw from a statement after the create transaction (one of the AI inserts, or the `updated_at` update) is not modelled. The source would keep the rows written so far and answer 500 from the `catch`. Only a generator failure is modelled there.
- Seed.SeedAllOrNothing: the seed transaction never throws in the model. In the source a throwing transaction is rolled back and the exception leaves `initDb`, which stops start-up.
- Threads.ViewThread, Boards.ViewBoard and Boards.ListBoards: a query that throws is not modelled.
- Route parameters are taken as already parsed. The thread id is a natural number, and SQLite's text-to-integer affinity is not modelled. Body fields are optional strings, and array-valued fields are not modelled.
- Boards.SortByRecency: the order among threads with equal `updated_at` is left open, as SQLite does not fix it.
