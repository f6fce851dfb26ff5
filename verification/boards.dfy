/**
 * The board routes (src/routes/boards.js): the board index, a board's
 * thread list, and the new-thread handler as a transition on the store.
 */
module Boards {
  import opened Wrappers
  import opened Store
  import opened Forms
  import opened Flow

  const MissingFields := "Заголовок и текст обязательны!"
  const CreateFailed := "Ошибка при создании треда."

  /** GET `/`: every board, ordered by id. */
  function ListBoards(db: Db): (r: seq<Board>)
    ensures |r| == |db.boards|
    ensures forall b :: b in r <==> b in db.boards
    ensures Valid(db) ==> BoardsAscending(r)
  {
    db.boards
  }

  /** One row of a board page: a thread and its number of posts. */
  datatype ThreadSummary = ThreadSummary(thread: Thread, postCount: nat)

  datatype BoardPage = BoardPage(board: Board, threads: seq<ThreadSummary>)

  /** The threads of board `boardId` (`WHERE t.board_id = ?`), in table order. */
  function OnBoard(ts: seq<Thread>, boardId: nat): (r: seq<Thread>)
    ensures forall t :: t in r <==> t in ts && t.boardId == boardId
    decreases |ts|
  {
    if |ts| == 0 then []
    else
      var rest := OnBoard(ts[1..], boardId);
      assert forall t :: t in ts <==> t == ts[0] || t in ts[1..];
      if ts[0].boardId == boardId then [ts[0]] + rest else rest
  }

  /** In ascending id order, the first thread has the least id. */
  lemma HeadBelowTail(ts: seq<Thread>)
    requires |ts| > 0 && ThreadsAscending(ts)
    ensures forall t :: t in ts[1..] ==> ts[0].id < t.id
  {
    forall t | t in ts[1..]
      ensures ts[0].id < t.id
    {
      var k :| 0 <= k < |ts[1..]| && ts[1..][k] == t;
      assert ts[k + 1] == t;
    }
  }

  /** Selecting a board's threads keeps ascending ids. */
  lemma {:induction false} OnBoardAscending(ts: seq<Thread>, boardId: nat)
    ensures ThreadsAscending(ts) ==> ThreadsAscending(OnBoard(ts, boardId))
    decreases |ts|
  {
    if |ts| > 0 && ThreadsAscending(ts) {
      var rest := OnBoard(ts[1..], boardId);
      assert ThreadsAscending(ts[1..]);
      OnBoardAscending(ts[1..], boardId);
      if ts[0].boardId == boardId {
        HeadBelowTail(ts);
        var r := [ts[0]] + rest;
        forall i, j | 0 <= i < j < |r|
          ensures r[i].id < r[j].id
        {
          assert r[j] == rest[j - 1] && rest[j - 1] in rest;
          if i > 0 {
            assert r[i] == rest[i - 1];
          }
        }
      }
    }
  }

  /** The `LEFT JOIN ... GROUP BY t.id` rows of board `boardId`, before
      ordering: a row for every thread of that board and for no other, each
      with its post count; over threads in ascending id order the rows
      ascend by thread id, so no thread comes twice. */
  function Summaries(db: Db, ts: seq<Thread>, boardId: nat): (r: seq<ThreadSummary>)
    ensures forall s :: s in r ==>
              s.thread in ts && s.thread.boardId == boardId && s.postCount == |ThreadPosts(db, s.thread.id)|
    ensures forall t :: t in ts && t.boardId == boardId ==> ThreadSummary(t, |ThreadPosts(db, t.id)|) in r
    ensures ThreadsAscending(ts) ==> forall i, j :: 0 <= i < j < |r| ==> r[i].thread.id < r[j].thread.id
  {
    var sel := OnBoard(ts, boardId);
    var r := seq(|sel|, i requires 0 <= i < |sel| => ThreadSummary(sel[i], |ThreadPosts(db, sel[i].id)|));
    OnBoardAscending(ts, boardId);
    assert forall t :: t in sel ==> ThreadSummary(t, |ThreadPosts(db, t.id)|) in r by {
      forall t | t in sel
        ensures ThreadSummary(t, |ThreadPosts(db, t.id)|) in r
      {
        var i :| 0 <= i < |sel| && sel[i] == t;
        assert r[i] == ThreadSummary(t, |ThreadPosts(db, t.id)|);
      }
    }
    r
  }

  predicate MostRecentFirst(s: seq<ThreadSummary>)
  {
    forall i, j :: 0 <= i < j < |s| ==> s[i].thread.updatedAt >= s[j].thread.updatedAt
  }

  /** No thread is listed twice. */
  predicate OncePerThread(s: seq<ThreadSummary>)
  {
    forall i, j :: 0 <= i < j < |s| ==> s[i].thread.id != s[j].thread.id
  }

  /** Places `x` into a list ordered most recent first. */
  function InsertByRecency(x: ThreadSummary, s: seq<ThreadSummary>): (r: seq<ThreadSummary>)
    requires MostRecentFirst(s)
    ensures MostRecentFirst(r)
    ensures multiset(r) == multiset(s) + multiset{x}
    ensures |r| > 0 && (r[0] == x || (|s| > 0 && r[0] == s[0]))
    decreases |s|
  {
    if |s| == 0 || x.thread.updatedAt >= s[0].thread.updatedAt then
      assert MostRecentFirst([x] + s) by {
        forall i, j | 0 <= i < j < |[x] + s|
          ensures ([x] + s)[i].thread.updatedAt >= ([x] + s)[j].thread.updatedAt
        {
          if i == 0 && j > 1 {
            assert s[0].thread.updatedAt >= s[j - 1].thread.updatedAt;
          }
        }
      }
      [x] + s
    else
      var rest := InsertByRecency(x, s[1..]);
      assert s == [s[0]] + s[1..];
      assert MostRecentFirst([s[0]] + rest) by {
        assert s[0].thread.updatedAt >= rest[0].thread.updatedAt;
        forall i, j | 0 <= i < j < |[s[0]] + rest|
          ensures ([s[0]] + rest)[i].thread.updatedAt >= ([s[0]] + rest)[j].thread.updatedAt
        {
          if i == 0 && j > 1 {
            assert rest[0].thread.updatedAt >= rest[j - 1].thread.updatedAt;
          }
        }
      }
      [s[0]] + rest
  }

  /** `ORDER BY t.updated_at DESC`; rows with equal timestamps may come in
      any order, so only the ordering and the row set are promised. */
  function SortByRecency(s: seq<ThreadSummary>): (r: seq<ThreadSummary>)
    ensures MostRecentFirst(r)
    ensures multiset(r) == multiset(s)
    decreases |s|
  {
    if |s| == 0 then []
    else
      assert s == [s[0]] + s[1..];
      InsertByRecency(s[0], SortByRecency(s[1..]))
  }

  /** Placing a thread not yet listed keeps every thread listed once. */
  lemma {:induction false} InsertKeepsOnce(x: ThreadSummary, s: seq<ThreadSummary>)
    requires MostRecentFirst(s) && OncePerThread(s)
    requires forall y :: y in s ==> y.thread.id != x.thread.id
    ensures OncePerThread(InsertByRecency(x, s))
    decreases |s|
  {
    var r := InsertByRecency(x, s);
    if |s| == 0 || x.thread.updatedAt >= s[0].thread.updatedAt {
      forall i, j | 0 <= i < j < |r|
        ensures r[i].thread.id != r[j].thread.id
      {
        assert r[j] == s[j - 1];
        if i > 0 {
          assert r[i] == s[i - 1];
        }
      }
    } else {
      var rest := InsertByRecency(x, s[1..]);
      InsertKeepsOnce(x, s[1..]);
      assert r == [s[0]] + rest;
      forall j | 0 < j < |r|
        ensures r[0].thread.id != r[j].thread.id
      {
        var y := rest[j - 1];
        assert y in multiset(rest);
        if y != x {
          assert y in s[1..];
          var k :| 0 <= k < |s[1..]| && s[1..][k] == y;
          assert s[k + 1] == y;
        }
      }
    }
  }

  /** Sorting keeps every thread listed once. */
  lemma {:induction false} SortKeepsOnce(s: seq<ThreadSummary>)
    ensures OncePerThread(s) ==> OncePerThread(SortByRecency(s))
    decreases |s|
  {
    if |s| > 0 && OncePerThread(s) {
      var sorted := SortByRecency(s[1..]);
      SortKeepsOnce(s[1..]);
      forall y | y in sorted
        ensures y.thread.id != s[0].thread.id
      {
        assert y in multiset(sorted);
        assert y in s[1..];
        var k :| 0 <= k < |s[1..]| && s[1..][k] == y;
        assert s[k + 1] == y;
      }
      InsertKeepsOnce(s[0], sorted);
    }
  }

  /** Rows reordered without loss or gain are the same rows. */
  lemma SameMembers(a: seq<ThreadSummary>, b: seq<ThreadSummary>)
    requires multiset(a) == multiset(b)
    ensures forall s :: s in a <==> s in b
  {
    forall s | s in a
      ensures s in b
    {
      assert s in multiset(a);
    }
    forall s | s in b
      ensures s in a
    {
      assert s in multiset(b);
    }
  }

  /** GET `/:boardSlug`: a page exists exactly for a known slug. It lists
      every thread of that board and no other, each with its post count,
      most recently updated first, and in a valid store each thread once. */
  function ViewBoard(db: Db, boardSlug: string): (r: Option<BoardPage>)
    ensures r.None? <==> forall i :: 0 <= i < |db.boards| ==> db.boards[i].slug != boardSlug
    ensures r.Some? ==>
              && r.value.board.slug == boardSlug && r.value.board in db.boards
              && MostRecentFirst(r.value.threads)
              && (forall s :: s in r.value.threads ==>
                    s.thread in db.threads && s.thread.boardId == r.value.board.id
                    && s.postCount == |ThreadPosts(db, s.thread.id)|)
              && (forall t :: t in db.threads && t.boardId == r.value.board.id ==>
                    ThreadSummary(t, |ThreadPosts(db, t.id)|) in r.value.threads)
    ensures r.Some? && Valid(db) ==> OncePerThread(r.value.threads)
  {
    match BoardBySlug(db, boardSlug)
    case None => None
    case Some(board) =>
      var all := Summaries(db, db.threads, board.id);
      var sorted := SortByRecency(all);
      SameMembers(all, sorted);
      assert Valid(db) ==> OncePerThread(all) by {
        if Valid(db) {
          assert ThreadsAscending(db.threads);
        }
      }
      SortKeepsOnce(all);
      Some(BoardPage(board, sorted))
  }

  /** The first post of a new thread. */
  function OpeningPost(db: Db, content: string, now: nat): Post
  {
    var d0 := Tick(db, now);
    NextPost(d0, d0.nextThreadId, UserType, AnonName, content)
  }

  /** The row of a new thread: its title as given, both timestamps now. */
  function NewThread(db: Db, boardId: nat, title: string, now: nat): Thread
  {
    var d0 := Tick(db, now);
    Thread(d0.nextThreadId, boardId, title, d0.clock, d0.clock)
  }

  /** The create transaction: it appends the thread row (title as given,
      both timestamps the current clock) and its first user post, and
      changes nothing else. */
  function OpenThread(db: Db, boardId: nat, title: string, content: string): (r: Db)
    ensures r.threads == db.threads + [Thread(db.nextThreadId, boardId, title, db.clock, db.clock)]
    ensures r.posts == db.posts + [Post(db.nextPostId, db.nextThreadId, UserType, AnonName, content, db.clock)]
    ensures r.boards == db.boards && r.clock == db.clock
    ensures r.nextThreadId == db.nextThreadId + 1 && r.nextPostId == db.nextPostId + 1
    ensures r.nextBoardId == db.nextBoardId
  {
    AddUserPost(InsertThread(db, boardId, title), db.nextThreadId, content)
  }

  /** POST `/:boardSlug/thread`. An unknown board answers `next()`; a falsy
      title or a missing or blank content answers 400 with no write;
      otherwise the thread is created; if the create transaction throws, it
      is rolled back and the `catch` answers 500. `now` is the clock when the
      request writes first, `later` the clock once the generator has answered. */
  function CreateThread(db: Db, boardSlug: string, title: Option<string>, content: Option<string>,
                        gen: Generator, storage: Storage, now: nat, later: nat): (h: Handled)
    ensures h.response.PassOn? <==> BoardBySlug(db, boardSlug).None?
    ensures h.response == Status(400, MissingFields) <==>
              BoardBySlug(db, boardSlug).Some? && (!Truthy(title) || MissingOrBlank(content))
    ensures h.response.PassOn? || (h.response.Status? && h.response.code == 400) || storage.Throws? ==> h.db == db
    ensures h.response.RedirectToThread? ==>
              h.response == RedirectToThread(boardSlug, db.nextThreadId)
    ensures storage.Throws? && BoardBySlug(db, boardSlug).Some? && Truthy(title) && !MissingOrBlank(content) ==>
              h.response == Status(500, CreateFailed)
  {
    match BoardBySlug(db, boardSlug)
    case None => Handled(db, PassOn)
    case Some(board) =>
      if !Truthy(title) || MissingOrBlank(content) then Handled(db, Status(400, MissingFields))
      else AcceptThread(db, boardSlug, board, title.value, content.value, gen, storage, now, later)
  }

  /** The `try` block: the thread and its first post are stored together,
      the generator sees the thread's posts, and its replies are stored. A
      create transaction that throws stores nothing and answers 500; a
      generator failure answers 500 but keeps the new thread. */
  function AcceptThread(db: Db, boardSlug: string, board: Board, title: string, content: string,
                        gen: Generator, storage: Storage, now: nat, later: nat): (h: Handled)
    ensures h.response == RedirectToThread(boardSlug, db.nextThreadId)
         || h.response == Status(500, CreateFailed)
    ensures storage.Throws? ==> h == Handled(db, Status(500, CreateFailed))
  {
    if storage.Throws? then Handled(db, Status(500, CreateFailed))
    else
      var threadId := db.nextThreadId;
      var db1 := OpenThread(Tick(db, now), board.id, title, content);
      match gen(GenRequest(boardSlug, board.title, title, ThreadPosts(db1, threadId)))
      case Failed => Handled(db1, Status(500, CreateFailed))
      case Replies(texts) =>
        Handled(AddAiReplies(db1, threadId, texts, later), RedirectToThread(boardSlug, threadId))
  }

  /** The generator's context for a new thread is its one freshly stored post. */
  lemma CreateContext(db: Db, boardId: nat, title: string, content: string, now: nat)
    requires Valid(db) && boardId in BoardIds(db)
    ensures ThreadPosts(OpenThread(Tick(db, now), boardId, title, content), db.nextThreadId)
              == [OpeningPost(db, content, now)]
  {
    var d0 := Tick(db, now);
    TickValid(db, now);
    var first := OpeningPost(db, content, now);
    var dt := InsertThread(d0, boardId, title);
    assert ThreadPosts(dt, db.nextThreadId) == ThreadPosts(d0, d0.nextThreadId);
    UnissuedThreadHasNoPosts(d0);
    OfThreadAppend(dt.posts, [first], db.nextThreadId);
    OfThreadAll([first], db.nextThreadId);
  }

  /** The generator request of an accepted creation. */
  function CreateRequest(db: Db, boardSlug: string, board: Board, title: string, content: string,
                         now: nat): GenRequest
  {
    GenRequest(boardSlug, board.title, title, [OpeningPost(db, content, now)])
  }

  /** If the generator fails, the answer is 500, yet the thread (title as
      given) and its first user post stay stored. */
  lemma CreateGeneratorFailed(db: Db, boardSlug: string, title: Option<string>, content: Option<string>,
                              gen: Generator, now: nat, later: nat)
    requires Valid(db)
    requires BoardBySlug(db, boardSlug).Some?
    requires Truthy(title) && !MissingOrBlank(content)
    requires gen(CreateRequest(db, boardSlug, BoardBySlug(db, boardSlug).value, title.value, content.value, now))
             == Failed
    ensures var board := BoardBySlug(db, boardSlug).value;
            var h := CreateThread(db, boardSlug, title, content, gen, Stores, now, later);
            && h.response == Status(500, CreateFailed)
            && h.db.threads == db.threads + [NewThread(db, board.id, title.value, now)]
            && h.db.posts == db.posts + [OpeningPost(db, content.value, now)]
            && h.db.boards == db.boards
  {
    var board := BoardBySlug(db, boardSlug).value;
    CreateFailedOutcome(db, boardSlug, title, content, gen, now, later);
    var d1 := OpenThread(Tick(db, now), board.id, title.value, content.value);
    assert d1.threads == db.threads + [NewThread(db, board.id, title.value, now)];
    assert d1.posts == db.posts + [OpeningPost(db, content.value, now)];
  }

  /** With working storage and a failing generator, the request keeps the
      new thread and its first post and answers 500. */
  lemma CreateFailedOutcome(db: Db, boardSlug: string, title: Option<string>, content: Option<string>,
                            gen: Generator, now: nat, later: nat)
    requires Valid(db)
    requires BoardBySlug(db, boardSlug).Some?
    requires Truthy(title) && !MissingOrBlank(content)
    requires gen(CreateRequest(db, boardSlug, BoardBySlug(db, boardSlug).value, title.value, content.value, now))
             == Failed
    ensures var board := BoardBySlug(db, boardSlug).value;
            var d1 := OpenThread(Tick(db, now), board.id, title.value, content.value);
            CreateThread(db, boardSlug, title, content, gen, Stores, now, later)
              == Handled(d1, Status(500, CreateFailed))
  {
    var board := BoardBySlug(db, boardSlug).value;
    assert board.id in BoardIds(db);
    CreateContext(db, board.id, title.value, content.value, now);
  }

  /** With working storage and an answering generator, the request stores
      the new thread and its first post, then the replies, and redirects. */
  lemma CreateAnsweredOutcome(db: Db, boardSlug: string, title: Option<string>, content: Option<string>,
                              gen: Generator, now: nat, later: nat, texts: seq<string>)
    requires Valid(db)
    requires BoardBySlug(db, boardSlug).Some?
    requires Truthy(title) && !MissingOrBlank(content)
    requires gen(CreateRequest(db, boardSlug, BoardBySlug(db, boardSlug).value, title.value, content.value, now))
             == Replies(texts)
    ensures var board := BoardBySlug(db, boardSlug).value;
            var d1 := OpenThread(Tick(db, now), board.id, title.value, content.value);
            CreateThread(db, boardSlug, title, content, gen, Stores, now, later)
              == Handled(AddAiReplies(d1, db.nextThreadId, texts, later), RedirectToThread(boardSlug, db.nextThreadId))
  {
    var board := BoardBySlug(db, boardSlug).value;
    assert board.id in BoardIds(db);
    CreateContext(db, board.id, title.value, content.value, now);
  }

  /** If the generator answers, the thread and its first post are followed
      by the answered texts in order as `ai` posts, the new thread's
      `updated_at` moves to a reading not earlier than `later`, and the
      answer redirects to the new thread. */
  lemma CreateGeneratorAnswered(db: Db, boardSlug: string, title: Option<string>, content: Option<string>,
                                gen: Generator, now: nat, later: nat, texts: seq<string>)
    requires Valid(db)
    requires BoardBySlug(db, boardSlug).Some?
    requires Truthy(title) && !MissingOrBlank(content)
    requires gen(CreateRequest(db, boardSlug, BoardBySlug(db, boardSlug).value, title.value, content.value, now))
             == Replies(texts)
    ensures var board := BoardBySlug(db, boardSlug).value;
            var d1 := OpenThread(Tick(db, now), board.id, title.value, content.value);
            var h := CreateThread(db, boardSlug, title, content, gen, Stores, now, later);
            && h.response == RedirectToThread(boardSlug, db.nextThreadId)
            && h.db.threads == db.threads + [NewThread(db, board.id, title.value, now).(updatedAt := h.db.clock)]
            && h.db.clock >= later
            && h.db.posts == db.posts + [OpeningPost(db, content.value, now)]
                             + AiRows(d1, db.nextThreadId, texts, later)
            && h.db.boards == db.boards
  {
    var board := BoardBySlug(db, boardSlug).value;
    CreateAnsweredOutcome(db, boardSlug, title, content, gen, now, later, texts);
    var d1 := OpenThread(Tick(db, now), board.id, title.value, content.value);
    var r := AddAiReplies(d1, db.nextThreadId, texts, later);
    var row := NewThread(db, board.id, title.value, now);
    assert d1.threads == db.threads + [row];
    AddAiRepliesTouchesNewest(d1, db.nextThreadId, texts, later, db.threads, row);
    assert r.posts == db.posts + [OpeningPost(db, content.value, now)] + AiRows(d1, db.nextThreadId, texts, later) by {
      assert d1.posts == db.posts + [OpeningPost(db, content.value, now)];
    }
  }

  /** The thread row and its first post appear together or not at all: the
      store is either untouched (a guard failed, or the create transaction
      threw and was rolled back), or holds both the new thread and, as that
      thread's first post, the user's post. */
  lemma CreateAtomic(db: Db, boardSlug: string, title: Option<string>, content: Option<string>,
                     gen: Generator, storage: Storage, now: nat, later: nat)
    requires Valid(db)
    ensures var h := CreateThread(db, boardSlug, title, content, gen, storage, now, later);
            || h.db == db
            || (&& |h.db.threads| == |db.threads| + 1
                && h.db.threads[|db.threads|].id == db.nextThreadId
                && |ThreadPosts(h.db, db.nextThreadId)| > 0
                && ThreadPosts(h.db, db.nextThreadId)[0] == OpeningPost(db, content.value, now))
  {
    var h := CreateThread(db, boardSlug, title, content, gen, storage, now, later);
    if h.db != db {
      var board := BoardBySlug(db, boardSlug).value;
      assert board.id in BoardIds(db);
      CreateContext(db, board.id, title.value, content.value, now);
      var d1 := OpenThread(Tick(db, now), board.id, title.value, content.value);
      match gen(CreateRequest(db, boardSlug, board, title.value, content.value, now))
      case Failed =>
      case Replies(texts) =>
        AddAiRepliesThreadPosts(d1, db.nextThreadId, texts, later, db.nextThreadId);
    }
  }

  /** A create either writes nothing or only appends: one thread row, and
      posts that all belong to the new thread. */
  lemma CreateOnlyAppends(db: Db, boardSlug: string, title: Option<string>, content: Option<string>,
                          gen: Generator, storage: Storage, now: nat, later: nat)
    requires Valid(db)
    ensures var h := CreateThread(db, boardSlug, title, content, gen, storage, now, later);
            || h.db == db
            || (&& h.db.boards == db.boards
                && |h.db.threads| == |db.threads| + 1
                && h.db.threads[..|db.threads|] == db.threads
                && |h.db.posts| > |db.posts|
                && h.db.posts[..|db.posts|] == db.posts
                && forall i :: |db.posts| <= i < |h.db.posts| ==> h.db.posts[i].threadId == db.nextThreadId)
  {
    var h := CreateThread(db, boardSlug, title, content, gen, storage, now, later);
    if h.db != db {
      assert storage == Stores && BoardBySlug(db, boardSlug).Some?;
      assert Truthy(title) && !MissingOrBlank(content);
      var board := BoardBySlug(db, boardSlug).value;
      var first := OpeningPost(db, content.value, now);
      var d1 := OpenThread(Tick(db, now), board.id, title.value, content.value);
      match gen(CreateRequest(db, boardSlug, board, title.value, content.value, now))
      case Failed =>
        CreateGeneratorFailed(db, boardSlug, title, content, gen, now, later);
        assert h.db.posts == db.posts + [first];
      case Replies(texts) =>
        CreateGeneratorAnswered(db, boardSlug, title, content, gen, now, later, texts);
        assert h.db.posts == db.posts + [first] + AiRows(d1, db.nextThreadId, texts, later);
    }
  }

  /** Creating a thread changes no board, no existing thread and no existing
      thread's posts. */
  lemma CreateFrame(db: Db, boardSlug: string, title: Option<string>, content: Option<string>,
                    gen: Generator, storage: Storage, now: nat, later: nat, other: nat)
    requires Valid(db)
    requires other != db.nextThreadId
    ensures var h := CreateThread(db, boardSlug, title, content, gen, storage, now, later);
            && h.db.boards == db.boards
            && |h.db.threads| >= |db.threads|
            && h.db.threads[..|db.threads|] == db.threads
            && ThreadPosts(h.db, other) == ThreadPosts(db, other)
  {
    var h := CreateThread(db, boardSlug, title, content, gen, storage, now, later);
    CreateOnlyAppends(db, boardSlug, title, content, gen, storage, now, later);
    if h.db != db {
      AppendElsewhereKeepsPosts(db, h.db, db.nextThreadId, other);
    }
  }

  /** Creating a thread keeps the store invariant. */
  lemma CreateValid(db: Db, boardSlug: string, title: Option<string>, content: Option<string>,
                    gen: Generator, storage: Storage, now: nat, later: nat)
    requires Valid(db)
    ensures Valid(CreateThread(db, boardSlug, title, content, gen, storage, now, later).db)
  {
    var h := CreateThread(db, boardSlug, title, content, gen, storage, now, later);
    if h.db != db {
      var board := BoardBySlug(db, boardSlug).value;
      assert board.id in BoardIds(db);
      var d0 := Tick(db, now);
      TickValid(db, now);
      InsertThreadValid(d0, board.id, title.value);
      var dt := InsertThread(d0, board.id, title.value);
      InsertPostValid(dt, db.nextThreadId, UserType, AnonName, content.value);
      var d1 := OpenThread(d0, board.id, title.value, content.value);
      assert ThreadIds(d1) == ThreadIds(dt);
      match gen(GenRequest(boardSlug, board.title, title.value, ThreadPosts(d1, db.nextThreadId)))
      case Failed =>
      case Replies(texts) =>
        AddAiRepliesValid(d1, db.nextThreadId, texts, later);
    }
  }
}
