/**
 * What the two posting handlers (src/routes/boards.js and
 * src/routes/threads.js) share: the generator they call, the response they
 * give, and the step that stores the generated replies.
 */
module Flow {
  import opened Store

  /** The arguments both handlers pass to `generateRepliesForThread`. The
      handlers select only `id, author_type, content` of each post; the model
      hands over whole rows, a superset of those fields. The reply count, API
      key and model the caller asked for are fixed inside the generator value
      itself; how it uses them is not modelled. */
  datatype GenRequest = GenRequest(boardSlug: string, boardTitle: string, threadTitle: string,
                                   posts: seq<Post>)

  /** The generator either resolves to reply texts or rejects. */
  datatype Generated = Replies(texts: seq<string>) | Failed

  type Generator = GenRequest -> Generated

  /** `next()` (no route of this handler matches), a redirect to a thread
      page, or a status with a plain-text body. */
  datatype Response =
    | PassOn
    | RedirectToThread(boardSlug: string, threadId: nat)
    | Status(code: nat, message: string)

  /** Whether the first write of an accepted request goes through: the user
      post of a reply, or the create transaction of a new thread. A write that
      `Throws` stores nothing (better-sqlite3 rolls a transaction back when its
      function throws) and control passes to the handler's `catch`. */
  datatype Storage = Stores | Throws

  /** The store after a request, and what the client receives. */
  datatype Handled = Handled(db: Db, response: Response)

  /** The user's post: `author_type 'user'`, `author_name 'Анон'`, the content as given. */
  function AddUserPost(db: Db, tid: nat, content: string): Db
  {
    InsertPost(db, tid, UserType, AnonName, content)
  }

  /** The posts of the AI replies to `texts`, as they are stored. */
  function AiRows(db: Db, tid: nat, texts: seq<string>, later: nat): seq<Post>
  {
    Rows(db.nextPostId, tid, AiType, AiName, texts, Tick(db, later).clock)
  }

  /** Stores the generator's answer at the clock reading `later` taken once
      generation is over: exactly one `ai` post per text, in the order
      returned, after every existing post; then only the target thread's
      `updated_at` moves, to a reading not earlier than `later`; boards and
      the other threads stay as they were. */
  function AddAiReplies(db: Db, tid: nat, texts: seq<string>, later: nat): (r: Db)
    ensures r.posts == db.posts + AiRows(db, tid, texts, later)
    ensures forall i :: 0 <= i < |texts| ==>
              && r.posts[|db.posts| + i].content == texts[i]
              && r.posts[|db.posts| + i].authorType == AiType
              && r.posts[|db.posts| + i].authorName == AiName
              && r.posts[|db.posts| + i].threadId == tid
    ensures r.boards == db.boards
    ensures |r.threads| == |db.threads|
    ensures forall i :: 0 <= i < |db.threads| ==>
              r.threads[i] == if db.threads[i].id == tid
                              then db.threads[i].(updatedAt := r.clock)
                              else db.threads[i]
    ensures r.clock >= later && r.clock >= db.clock
    ensures r.nextPostId == db.nextPostId + |texts|
    ensures r.nextThreadId == db.nextThreadId && r.nextBoardId == db.nextBoardId
  {
    Touch(InsertPosts(Tick(db, later), tid, AiType, AiName, texts), tid)
  }

  /** When the target is the newest thread, storing replies moves its row's
      `updated_at` and leaves the rows before it alone. */
  lemma AddAiRepliesTouchesNewest(db: Db, tid: nat, texts: seq<string>, later: nat,
                                  before: seq<Thread>, row: Thread)
    requires db.threads == before + [row] && row.id == tid
    requires forall i :: 0 <= i < |before| ==> before[i].id != tid
    ensures var r := AddAiReplies(db, tid, texts, later);
            r.threads == before + [row.(updatedAt := r.clock)]
  {
    var r := AddAiReplies(db, tid, texts, later);
    forall i | 0 <= i < |before|
      ensures r.threads[i] == before[i]
    {
      assert db.threads[i] == before[i];
    }
    assert r.threads[|before|] == row.(updatedAt := r.clock) by {
      assert db.threads[|before|] == row;
    }
  }

  /** The AI posts join the target thread only: every other thread's post
      list is unchanged, and the target's gains the replies at its end. */
  lemma AddAiRepliesThreadPosts(db: Db, tid: nat, texts: seq<string>, later: nat, other: nat)
    ensures other != tid ==>
              ThreadPosts(AddAiReplies(db, tid, texts, later), other) == ThreadPosts(db, other)
    ensures ThreadPosts(AddAiReplies(db, tid, texts, later), tid)
         == ThreadPosts(db, tid) + AiRows(db, tid, texts, later)
  {
    var rows := AiRows(db, tid, texts, later);
    OfThreadAppend(db.posts, rows, other);
    OfThreadAppend(db.posts, rows, tid);
    if other != tid {
      OfThreadNone(rows, other);
    }
    OfThreadAll(rows, tid);
  }

  /** Storing replies keeps the store invariant. */
  lemma AddAiRepliesValid(db: Db, tid: nat, texts: seq<string>, later: nat)
    requires Valid(db) && tid in ThreadIds(db)
    ensures Valid(AddAiReplies(db, tid, texts, later))
  {
    TickValid(db, later);
    InsertPostsValid(Tick(db, later), tid, AiType, AiName, texts);
    TouchValid(InsertPosts(Tick(db, later), tid, AiType, AiName, texts), tid);
  }
}
