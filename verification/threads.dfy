/**
 * The thread routes (src/routes/threads.js): viewing a thread and the reply
 * handler as a transition on the store.
 */
module Threads {
  import opened Wrappers
  import opened Store
  import opened Forms
  import opened Flow

  datatype ThreadPage = ThreadPage(board: Board, thread: Thread, posts: seq<Post>)

  /** GET `/:boardSlug/thread/:threadId`: the board by slug, the thread by id
      on that board, and the thread's posts ordered by id. */
  function ViewThread(db: Db, boardSlug: string, threadId: nat): (r: Option<ThreadPage>)
    ensures r.Some? ==>
              && r.value.board in db.boards && r.value.board.slug == boardSlug
              && r.value.thread in db.threads && r.value.thread.id == threadId
              && r.value.thread.boardId == r.value.board.id
              && (forall p :: p in r.value.posts <==> p in db.posts && p.threadId == threadId)
    ensures r.Some? && Valid(db) ==> PostsAscending(r.value.posts)
    ensures r.None? <==>
              || (forall i :: 0 <= i < |db.boards| ==> db.boards[i].slug != boardSlug)
              || (forall i :: 0 <= i < |db.threads| ==>
                    !(db.threads[i].id == threadId && db.threads[i].boardId == BoardBySlug(db, boardSlug).value.id))
  {
    OfThreadAscending(db.posts, threadId);
    match BoardBySlug(db, boardSlug)
    case None => None
    case Some(board) =>
      match ThreadInBoard(db, threadId, board.id)
      case None => None
      case Some(thread) => Some(ThreadPage(board, thread, ThreadPosts(db, threadId)))
  }

  /** The post a valid reply stores first. */
  function UserReply(db: Db, threadId: nat, content: string, now: nat): Post
  {
    NextPost(Tick(db, now), threadId, UserType, AnonName, content)
  }

  /** POST `/:boardSlug/thread/:threadId/reply`. The board and thread checks
      come first and answer `next()`; a missing or blank content redirects
      back without writing; otherwise the reply is accepted, and if storing
      the user post throws, the `catch` redirects with nothing stored. `now` is the
      clock when the request writes first, `later` the clock once the
      generator has answered. */
  function Reply(db: Db, boardSlug: string, threadId: nat, content: Option<string>,
                 gen: Generator, storage: Storage, now: nat, later: nat): (h: Handled)
    ensures h.response.PassOn? <==>
              || BoardBySlug(db, boardSlug).None?
              || ThreadInBoard(db, threadId, BoardBySlug(db, boardSlug).value.id).None?
    ensures !h.response.PassOn? ==> h.response == RedirectToThread(boardSlug, threadId)
    ensures h.response.PassOn? || MissingOrBlank(content) || storage.Throws? ==> h.db == db
  {
    match BoardBySlug(db, boardSlug)
    case None => Handled(db, PassOn)
    case Some(board) =>
      match ThreadInBoard(db, threadId, board.id)
      case None => Handled(db, PassOn)
      case Some(thread) =>
        if MissingOrBlank(content) then Handled(db, RedirectToThread(boardSlug, threadId))
        else AcceptReply(db, boardSlug, board, thread, content.value, gen, storage, now, later)
  }

  /** The `try` block: the user post is stored, the generator sees the
      thread's posts, and its replies are stored. Every way out redirects to
      the thread: a failed user post insert with nothing stored, a generator
      failure with the user post kept. */
  function AcceptReply(db: Db, boardSlug: string, board: Board, thread: Thread, content: string,
                       gen: Generator, storage: Storage, now: nat, later: nat): (h: Handled)
    ensures h.response == RedirectToThread(boardSlug, thread.id)
    ensures storage.Throws? ==> h.db == db
  {
    if storage.Throws? then Handled(db, RedirectToThread(boardSlug, thread.id))
    else
      var db1 := AddUserPost(Tick(db, now), thread.id, content);
      match gen(GenRequest(boardSlug, board.title, thread.title, ThreadPosts(db1, thread.id)))
      case Failed => Handled(db1, RedirectToThread(boardSlug, thread.id))
      case Replies(texts) =>
        Handled(AddAiReplies(db1, thread.id, texts, later), RedirectToThread(boardSlug, thread.id))
  }

  /** The guard precedence: for an unknown board or a thread of another
      board the answer is `next()` with no write, whatever the content. */
  lemma ReplyGuardsPrecedeContent(db: Db, boardSlug: string, threadId: nat,
                                  c1: Option<string>, c2: Option<string>,
                                  gen: Generator, storage: Storage, now: nat, later: nat)
    ensures Reply(db, boardSlug, threadId, c1, gen, storage, now, later).response.PassOn?
        <==> Reply(db, boardSlug, threadId, c2, gen, storage, now, later).response.PassOn?
  {
  }

  /** The generator's context for a valid reply: the thread's posts as they
      were, followed by the new user post; so the context ascends by id and
      ends with that post, which carries the content untrimmed. */
  lemma ReplyContext(db: Db, threadId: nat, content: string, now: nat)
    requires Valid(db) && threadId in ThreadIds(db)
    ensures var user := UserReply(db, threadId, content, now);
            var context := ThreadPosts(AddUserPost(Tick(db, now), threadId, content), threadId);
            && context == ThreadPosts(db, threadId) + [user]
            && PostsAscending(context)
            && context[|context| - 1] == user
            && user.authorType == UserType && user.authorName == AnonName && user.content == content
  {
    var d0 := Tick(db, now);
    var user := UserReply(db, threadId, content, now);
    var db1 := AddUserPost(d0, threadId, content);
    OfThreadAppend(db.posts, [user], threadId);
    OfThreadAll([user], threadId);
    TickValid(db, now);
    InsertPostValid(d0, threadId, UserType, AnonName, content);
    ThreadPostsAscending(db1, threadId);
  }

  /** If the generator fails, the reply leaves the user post alone: it is
      appended after every existing post, and the threads are unchanged. */
  lemma ReplyGeneratorFailed(db: Db, boardSlug: string, threadId: nat, content: Option<string>,
                             gen: Generator, now: nat, later: nat)
    requires Valid(db)
    requires BoardBySlug(db, boardSlug).Some?
    requires ThreadInBoard(db, threadId, BoardBySlug(db, boardSlug).value.id).Some?
    requires !MissingOrBlank(content)
    requires var board := BoardBySlug(db, boardSlug).value;
             var thread := ThreadInBoard(db, threadId, board.id).value;
             gen(GenRequest(boardSlug, board.title, thread.title,
                            ThreadPosts(db, threadId) + [UserReply(db, threadId, content.value, now)]))
               == Failed
    ensures var h := Reply(db, boardSlug, threadId, content, gen, Stores, now, later);
            && h.response == RedirectToThread(boardSlug, threadId)
            && h.db.posts == db.posts + [UserReply(db, threadId, content.value, now)]
            && h.db.threads == db.threads && h.db.boards == db.boards
  {
    var board := BoardBySlug(db, boardSlug).value;
    var thread := ThreadInBoard(db, threadId, board.id).value;
    assert thread in db.threads;
    ReplyContext(db, threadId, content.value, now);
  }

  /** If the generator answers, the reply appends the user post, then the
      answered texts in order as `ai` posts, and moves the thread's
      `updated_at` to a reading not earlier than `later`; the thread's other
      columns, the number of threads and the boards stay as they were. */
  lemma ReplyGeneratorAnswered(db: Db, boardSlug: string, threadId: nat, content: Option<string>,
                               gen: Generator, now: nat, later: nat, texts: seq<string>)
    requires Valid(db)
    requires BoardBySlug(db, boardSlug).Some?
    requires ThreadInBoard(db, threadId, BoardBySlug(db, boardSlug).value.id).Some?
    requires !MissingOrBlank(content)
    requires var board := BoardBySlug(db, boardSlug).value;
             var thread := ThreadInBoard(db, threadId, board.id).value;
             gen(GenRequest(boardSlug, board.title, thread.title,
                            ThreadPosts(db, threadId) + [UserReply(db, threadId, content.value, now)]))
               == Replies(texts)
    ensures var user := UserReply(db, threadId, content.value, now);
            var d1 := AddUserPost(Tick(db, now), threadId, content.value);
            var h := Reply(db, boardSlug, threadId, content, gen, Stores, now, later);
            && h.response == RedirectToThread(boardSlug, threadId)
            && h.db.posts == db.posts + [user] + AiRows(d1, threadId, texts, later)
            && h.db.clock >= later
            && (forall i :: 0 <= i < |h.db.threads| && h.db.threads[i].id == threadId ==>
                  h.db.threads[i].updatedAt == h.db.clock)
            && |h.db.threads| == |db.threads|
            && (forall i :: 0 <= i < |db.threads| && db.threads[i].id == threadId ==>
                  h.db.threads[i] == db.threads[i].(updatedAt := h.db.clock))
            && h.db.boards == db.boards
  {
    var board := BoardBySlug(db, boardSlug).value;
    var thread := ThreadInBoard(db, threadId, board.id).value;
    assert thread in db.threads;
    ReplyContext(db, threadId, content.value, now);
    var d1 := AddUserPost(Tick(db, now), threadId, content.value);
  }

  /** Nothing outside the target thread changes: boards, every other
      thread's row and every other thread's posts stay as they were. */
  lemma ReplyFrame(db: Db, boardSlug: string, threadId: nat, content: Option<string>,
                   gen: Generator, storage: Storage, now: nat, later: nat, other: nat)
    requires other != threadId
    ensures var h := Reply(db, boardSlug, threadId, content, gen, storage, now, later);
            && h.db.boards == db.boards
            && |h.db.threads| == |db.threads|
            && (forall i :: 0 <= i < |db.threads| && db.threads[i].id != threadId ==>
                  h.db.threads[i] == db.threads[i])
            && ThreadPosts(h.db, other) == ThreadPosts(db, other)
  {
    var h := Reply(db, boardSlug, threadId, content, gen, storage, now, later);
    if h.db != db {
      var d0 := Tick(db, now);
      var d1 := AddUserPost(d0, threadId, content.value);
      var user := NextPost(d0, threadId, UserType, AnonName, content.value);
      OfThreadAppend(db.posts, [user], other);
      OfThreadNone([user], other);
      assert ThreadPosts(d1, other) == ThreadPosts(db, other);
      var board := BoardBySlug(db, boardSlug).value;
      var thread := ThreadInBoard(db, threadId, board.id).value;
      match gen(GenRequest(boardSlug, board.title, thread.title, ThreadPosts(d1, threadId)))
      case Failed =>
      case Replies(texts) =>
        AddAiRepliesThreadPosts(d1, threadId, texts, later, other);
    }
  }

  /** A reply keeps the store invariant. */
  lemma ReplyValid(db: Db, boardSlug: string, threadId: nat, content: Option<string>,
                   gen: Generator, storage: Storage, now: nat, later: nat)
    requires Valid(db)
    ensures Valid(Reply(db, boardSlug, threadId, content, gen, storage, now, later).db)
  {
    var h := Reply(db, boardSlug, threadId, content, gen, storage, now, later);
    if h.db != db {
      var board := BoardBySlug(db, boardSlug).value;
      var thread := ThreadInBoard(db, threadId, board.id).value;
      assert thread in db.threads;
      var d0 := Tick(db, now);
      TickValid(db, now);
      InsertPostValid(d0, threadId, UserType, AnonName, content.value);
      var d1 := AddUserPost(d0, threadId, content.value);
      match gen(GenRequest(boardSlug, board.title, thread.title, ThreadPosts(d1, threadId)))
      case Failed =>
      case Replies(texts) =>
        assert ThreadIds(d1) == ThreadIds(db);
        AddAiRepliesValid(d1, threadId, texts, later);
    }
  }
}
