/**
 * The relational store behind the forum: the `boards`, `threads` and
 * `posts` tables, the queries the route handlers issue against them, and
 * the single-row writes they perform.
 *
 * Each table is a sequence of rows in insertion order. Row ids come from a
 * per-table counter (SQLite's rowid), so in a valid store ids strictly
 * increase along each table and `ORDER BY id` is the table's own order.
 * `clock` is an abstract reading of `CURRENT_TIMESTAMP`.
 */
module Store {
  import opened Wrappers

  datatype Board = Board(id: nat, slug: string, title: string, description: string)

  datatype Thread = Thread(id: nat, boardId: nat, title: string, createdAt: nat, updatedAt: nat)

  datatype Post = Post(id: nat, threadId: nat, authorType: string, authorName: string,
                       content: string, createdAt: nat)

  datatype Db = Db(boards: seq<Board>, threads: seq<Thread>, posts: seq<Post>,
                   nextBoardId: nat, nextThreadId: nat, nextPostId: nat, clock: nat)

  /** The `author_type` and `author_name` values the handlers write. */
  const UserType := "user"
  const AiType := "ai"
  const AnonName := "Анон"
  const AiName := "Нейросеть"

  /** A store with empty tables, as the schema leaves it. */
  const EmptyDb := Db([], [], [], 1, 1, 1, 0)

  predicate BoardsAscending(bs: seq<Board>)
  {
    forall i, j :: 0 <= i < j < |bs| ==> bs[i].id < bs[j].id
  }

  predicate ThreadsAscending(ts: seq<Thread>)
  {
    forall i, j :: 0 <= i < j < |ts| ==> ts[i].id < ts[j].id
  }

  predicate PostsAscending(ps: seq<Post>)
  {
    forall i, j :: 0 <= i < j < |ps| ==> ps[i].id < ps[j].id
  }

  function BoardIds(db: Db): set<nat>
  {
    set b | b in db.boards :: b.id
  }

  function ThreadIds(db: Db): set<nat>
  {
    set t | t in db.threads :: t.id
  }

  /** The store invariant: ids ascend in every table and stay below their
      counters, and every foreign key names an existing row. */
  predicate Valid(db: Db)
  {
    && BoardsAscending(db.boards)
    && ThreadsAscending(db.threads)
    && PostsAscending(db.posts)
    && (forall i :: 0 <= i < |db.boards| ==> db.boards[i].id < db.nextBoardId)
    && (forall i :: 0 <= i < |db.threads| ==> db.threads[i].id < db.nextThreadId)
    && (forall i :: 0 <= i < |db.posts| ==> db.posts[i].id < db.nextPostId)
    && (forall i :: 0 <= i < |db.threads| ==> db.threads[i].boardId in BoardIds(db))
    && (forall i :: 0 <= i < |db.posts| ==> db.posts[i].threadId in ThreadIds(db))
  }

  lemma EmptyDbValid()
    ensures Valid(EmptyDb)
  {
  }

  // ---------------------------------------------------------------- queries

  /** The first board whose slug is `slug` (`SELECT * FROM boards WHERE slug = ?`). */
  function FirstWithSlug(bs: seq<Board>, slug: string): (r: Option<Board>)
    ensures r.Some? ==> r.value in bs && r.value.slug == slug
    ensures r.None? <==> forall i :: 0 <= i < |bs| ==> bs[i].slug != slug
    decreases |bs|
  {
    if |bs| == 0 then None
    else if bs[0].slug == slug then Some(bs[0])
    else FirstWithSlug(bs[1..], slug)
  }

  function BoardBySlug(db: Db, slug: string): Option<Board>
  {
    FirstWithSlug(db.boards, slug)
  }

  /** The thread with id `id` on board `boardId`
      (`SELECT * FROM threads WHERE id = ? AND board_id = ?`). */
  function FindThread(ts: seq<Thread>, id: nat, boardId: nat): (r: Option<Thread>)
    ensures r.Some? ==> r.value in ts && r.value.id == id && r.value.boardId == boardId
    ensures r.None? <==> forall i :: 0 <= i < |ts| ==> !(ts[i].id == id && ts[i].boardId == boardId)
    decreases |ts|
  {
    if |ts| == 0 then None
    else if ts[0].id == id && ts[0].boardId == boardId then Some(ts[0])
    else FindThread(ts[1..], id, boardId)
  }

  function ThreadInBoard(db: Db, id: nat, boardId: nat): Option<Thread>
  {
    FindThread(db.threads, id, boardId)
  }

  /** The rows of `ps` that belong to thread `tid`, in their order in `ps`. */
  function OfThread(ps: seq<Post>, tid: nat): (r: seq<Post>)
    ensures forall p :: p in r <==> p in ps && p.threadId == tid
    ensures |r| <= |ps|
    decreases |ps|
  {
    if |ps| == 0 then []
    else
      var init := OfThread(ps[..|ps| - 1], tid);
      assert ps == ps[..|ps| - 1] + [ps[|ps| - 1]];
      if ps[|ps| - 1].threadId == tid then init + [ps[|ps| - 1]] else init
  }

  /** `SELECT ... FROM posts WHERE thread_id = ? ORDER BY id ASC`: exactly the
      thread's posts; `ThreadPostsAscending` shows the table order is already
      the id order. */
  function ThreadPosts(db: Db, tid: nat): (r: seq<Post>)
    ensures forall p :: p in r <==> p in db.posts && p.threadId == tid
  {
    OfThread(db.posts, tid)
  }

  /** Selecting a thread's posts distributes over appended rows. */
  lemma {:induction false} OfThreadAppend(a: seq<Post>, b: seq<Post>, tid: nat)
    ensures OfThread(a + b, tid) == OfThread(a, tid) + OfThread(b, tid)
    decreases |b|
  {
    if |b| == 0 {
      assert a + b == a;
    } else {
      var b' := b[..|b| - 1];
      OfThreadAppend(a, b', tid);
      assert (a + b)[..|a + b| - 1] == a + b';
      assert (a + b)[|a + b| - 1] == b[|b| - 1];
    }
  }

  /** The selection keeps ascending ids, so it is already `ORDER BY id ASC`. */
  lemma {:induction false} OfThreadAscending(ps: seq<Post>, tid: nat)
    ensures PostsAscending(ps) ==> PostsAscending(OfThread(ps, tid))
    decreases |ps|
  {
    if |ps| > 0 && PostsAscending(ps) {
      var init := ps[..|ps| - 1];
      var last := ps[|ps| - 1];
      OfThreadAscending(init, tid);
      var sel := OfThread(init, tid);
      forall i | 0 <= i < |sel|
        ensures sel[i].id < last.id
      {
        assert sel[i] in init;
        var k :| 0 <= k < |init| && init[k] == sel[i];
        assert ps[k] == init[k];
      }
    }
  }

  /** A thread's posts in a valid store come in ascending id order. */
  lemma ThreadPostsAscending(db: Db, tid: nat)
    requires Valid(db)
    ensures PostsAscending(ThreadPosts(db, tid))
  {
    OfThreadAscending(db.posts, tid);
  }

  /** Appending only posts of thread `tid` leaves every other thread's
      post list as it was. */
  lemma AppendElsewhereKeepsPosts(before: Db, after: Db, tid: nat, other: nat)
    requires other != tid
    requires |after.posts| >= |before.posts| && after.posts[..|before.posts|] == before.posts
    requires forall i :: |before.posts| <= i < |after.posts| ==> after.posts[i].threadId == tid
    ensures ThreadPosts(after, other) == ThreadPosts(before, other)
  {
    var extra := after.posts[|before.posts|..];
    assert after.posts == before.posts + extra;
    OfThreadAppend(before.posts, extra, other);
    OfThreadNone(extra, other);
  }

  /** A thread whose id is not yet issued owns no posts in a valid store. */
  lemma UnissuedThreadHasNoPosts(db: Db)
    requires Valid(db)
    ensures ThreadPosts(db, db.nextThreadId) == []
  {
    forall i | 0 <= i < |db.posts|
      ensures db.posts[i].threadId != db.nextThreadId
    {
      assert db.posts[i].threadId in ThreadIds(db);
      var t :| t in db.threads && t.id == db.posts[i].threadId;
      var k :| 0 <= k < |db.threads| && db.threads[k] == t;
      assert t.id < db.nextThreadId;
    }
    OfThreadNone(db.posts, db.nextThreadId);
  }

  lemma {:induction false} OfThreadNone(ps: seq<Post>, tid: nat)
    requires forall i :: 0 <= i < |ps| ==> ps[i].threadId != tid
    ensures OfThread(ps, tid) == []
    decreases |ps|
  {
    if |ps| > 0 {
      OfThreadNone(ps[..|ps| - 1], tid);
    }
  }

  lemma {:induction false} OfThreadAll(ps: seq<Post>, tid: nat)
    requires forall i :: 0 <= i < |ps| ==> ps[i].threadId == tid
    ensures OfThread(ps, tid) == ps
    decreases |ps|
  {
    if |ps| > 0 {
      OfThreadAll(ps[..|ps| - 1], tid);
      assert ps == ps[..|ps| - 1] + [ps[|ps| - 1]];
    }
  }

  // ----------------------------------------------------------------- writes

  /** Reads the clock for one request: `CURRENT_TIMESTAMP` never runs backwards. */
  function Tick(db: Db, now: nat): (r: Db)
    ensures r.clock >= db.clock && r.clock >= now
    ensures r == db.(clock := r.clock)
  {
    db.(clock := if now > db.clock then now else db.clock)
  }

  /** The row `INSERT INTO posts (thread_id, author_type, author_name, content)` creates. */
  function NextPost(db: Db, tid: nat, authorType: string, authorName: string, content: string): Post
  {
    Post(db.nextPostId, tid, authorType, authorName, content, db.clock)
  }

  function InsertPost(db: Db, tid: nat, authorType: string, authorName: string, content: string): Db
  {
    db.(posts := db.posts + [NextPost(db, tid, authorType, authorName, content)],
        nextPostId := db.nextPostId + 1)
  }

  /** The rows that inserting `texts` one by one from id `start` creates. */
  function Rows(start: nat, tid: nat, authorType: string, authorName: string,
                texts: seq<string>, at: nat): (r: seq<Post>)
    ensures |r| == |texts|
  {
    seq(|texts|, i requires 0 <= i < |texts| =>
      Post(start + i, tid, authorType, authorName, texts[i], at))
  }

  /** `texts.forEach(text => INSERT ...)`: one post per text, in the order
      given, with consecutive fresh ids, and nothing else touched. */
  function InsertPosts(db: Db, tid: nat, authorType: string, authorName: string,
                       texts: seq<string>): (r: Db)
    ensures r == db.(posts := db.posts + Rows(db.nextPostId, tid, authorType, authorName, texts, db.clock),
                     nextPostId := db.nextPostId + |texts|)
    decreases |texts|
  {
    if |texts| == 0 then
      assert Rows(db.nextPostId, tid, authorType, authorName, texts, db.clock) == [];
      db
    else
      var db1 := InsertPost(db, tid, authorType, authorName, texts[0]);
      var r := InsertPosts(db1, tid, authorType, authorName, texts[1..]);
      assert Rows(db.nextPostId, tid, authorType, authorName, texts, db.clock)
          == [NextPost(db, tid, authorType, authorName, texts[0])]
             + Rows(db1.nextPostId, tid, authorType, authorName, texts[1..], db.clock);
      r
  }

  /** `INSERT INTO threads (board_id, title)`; both timestamps default to now. */
  function InsertThread(db: Db, boardId: nat, title: string): Db
  {
    db.(threads := db.threads + [Thread(db.nextThreadId, boardId, title, db.clock, db.clock)],
        nextThreadId := db.nextThreadId + 1)
  }

  /** `UPDATE threads SET updated_at = CURRENT_TIMESTAMP WHERE id = ?`. */
  function Touch(db: Db, tid: nat): (r: Db)
    ensures |r.threads| == |db.threads|
    ensures forall i :: 0 <= i < |db.threads| && db.threads[i].id != tid ==> r.threads[i] == db.threads[i]
    ensures forall i :: 0 <= i < |db.threads| && db.threads[i].id == tid ==>
              r.threads[i] == db.threads[i].(updatedAt := db.clock)
    ensures r == db.(threads := r.threads)
  {
    db.(threads := seq(|db.threads|, i requires 0 <= i < |db.threads| =>
          if db.threads[i].id == tid then db.threads[i].(updatedAt := db.clock) else db.threads[i]))
  }

  // -------------------------------------------------- the invariant is kept

  lemma TickValid(db: Db, now: nat)
    requires Valid(db)
    ensures Valid(Tick(db, now))
  {
  }

  lemma InsertPostsValid(db: Db, tid: nat, authorType: string, authorName: string, texts: seq<string>)
    requires Valid(db) && tid in ThreadIds(db)
    ensures Valid(InsertPosts(db, tid, authorType, authorName, texts))
  {
    var r := InsertPosts(db, tid, authorType, authorName, texts);
    var rows := Rows(db.nextPostId, tid, authorType, authorName, texts, db.clock);
    assert ThreadIds(r) == ThreadIds(db);
    forall i, j | 0 <= i < j < |r.posts|
      ensures r.posts[i].id < r.posts[j].id
    {
      if j >= |db.posts| {
        assert r.posts[j] == rows[j - |db.posts|];
      }
    }
    forall i | 0 <= i < |r.posts|
      ensures r.posts[i].id < r.nextPostId && r.posts[i].threadId in ThreadIds(r)
    {
      if i >= |db.posts| {
        assert r.posts[i] == rows[i - |db.posts|];
      }
    }
  }

  lemma InsertPostValid(db: Db, tid: nat, authorType: string, authorName: string, content: string)
    requires Valid(db) && tid in ThreadIds(db)
    ensures Valid(InsertPost(db, tid, authorType, authorName, content))
  {
    var r := InsertPost(db, tid, authorType, authorName, content);
    assert ThreadIds(r) == ThreadIds(db);
  }

  lemma InsertThreadValid(db: Db, boardId: nat, title: string)
    requires Valid(db) && boardId in BoardIds(db)
    ensures Valid(InsertThread(db, boardId, title))
    ensures db.nextThreadId in ThreadIds(InsertThread(db, boardId, title))
  {
    var r := InsertThread(db, boardId, title);
    assert r.threads[|db.threads|].id == db.nextThreadId;
    assert ThreadIds(db) <= ThreadIds(r);
  }

  lemma TouchValid(db: Db, tid: nat)
    requires Valid(db)
    ensures Valid(Touch(db, tid))
  {
    var r := Touch(db, tid);
    assert ThreadIds(r) == ThreadIds(db) by {
      forall x | x in ThreadIds(db) ensures x in ThreadIds(r) {
        var t :| t in db.threads && t.id == x;
        var k :| 0 <= k < |db.threads| && db.threads[k] == t;
        assert r.threads[k].id == x;
      }
      forall x | x in ThreadIds(r) ensures x in ThreadIds(db) {
        var t :| t in r.threads && t.id == x;
        var k :| 0 <= k < |r.threads| && r.threads[k] == t;
        assert db.threads[k].id == x;
      }
    }
  }
}
