/**
 * The seeding step of `initDb` (src/db.js): when the `boards` table is
 * empty, the four default boards are inserted in one transaction.
 */
module Seed {
  import opened Store

  datatype BoardSeed = BoardSeed(slug: string, title: string, description: string)

  const DefaultBoards: seq<BoardSeed> := [
    BoardSeed("b", "Бред", "Все, что не запрещено правилами. Анонимное общение обо всем."),
    BoardSeed("pr", "Программирование", "Обсуждение кода, языков, архитектуры и IT."),
    BoardSeed("ai", "Искусственный интеллект", "Нейросети, LLM, генерация контента."),
    BoardSeed("news", "Новости", "Обсуждение последних событий в мире.")
  ]

  /** The rows `INSERT INTO boards (slug, title, description)` creates for
      `items`, one by one from id `start`. */
  function BoardRows(start: nat, items: seq<BoardSeed>): (r: seq<Board>)
    ensures |r| == |items|
  {
    seq(|items|, i requires 0 <= i < |items| =>
      Board(start + i, items[i].slug, items[i].title, items[i].description))
  }

  function InsertBoard(db: Db, item: BoardSeed): Db
  {
    db.(boards := db.boards + [Board(db.nextBoardId, item.slug, item.title, item.description)],
        nextBoardId := db.nextBoardId + 1)
  }

  /** The transaction body `for (const item of items) insert.run(item)`:
      all items become rows, in order, with consecutive fresh ids; no other
      table changes. */
  function InsertBoards(db: Db, items: seq<BoardSeed>): (r: Db)
    ensures r == db.(boards := db.boards + BoardRows(db.nextBoardId, items),
                     nextBoardId := db.nextBoardId + |items|)
    decreases |items|
  {
    if |items| == 0 then
      assert BoardRows(db.nextBoardId, items) == [];
      db
    else
      var db1 := InsertBoard(db, items[0]);
      assert BoardRows(db.nextBoardId, items)
          == [Board(db.nextBoardId, items[0].slug, items[0].title, items[0].description)]
             + BoardRows(db1.nextBoardId, items[1..]);
      InsertBoards(db1, items[1..])
  }

  /** The seed decision: only an empty `boards` table is filled. */
  function SeedBoards(db: Db): (r: Db)
    ensures r.threads == db.threads && r.posts == db.posts
    ensures r.nextThreadId == db.nextThreadId && r.nextPostId == db.nextPostId && r.clock == db.clock
    ensures |r.boards| >= |db.boards| && r.boards[..|db.boards|] == db.boards
    ensures |db.boards| > 0 ==> r == db
    ensures |db.boards| == 0 ==>
              && |r.boards| == 4
              && r.boards[0].slug == "b" && r.boards[1].slug == "pr"
              && r.boards[2].slug == "ai" && r.boards[3].slug == "news"
              && forall i :: 0 <= i < 4 ==>
                   r.boards[i] == Board(db.nextBoardId + i, DefaultBoards[i].slug,
                                        DefaultBoards[i].title, DefaultBoards[i].description)
  {
    if |db.boards| == 0 then InsertBoards(db, DefaultBoards) else db
  }

  /** Seeding is all or nothing: the table grows by all four boards or by none. */
  lemma SeedAllOrNothing(db: Db)
    ensures var r := SeedBoards(db);
            |r.boards| == |db.boards| + 4 || r == db
  {
  }

  /** A second seeding leaves the store as the first one left it. */
  lemma SeedIdempotent(db: Db)
    ensures SeedBoards(SeedBoards(db)) == SeedBoards(db)
  {
  }

  /** Inserting boards with fresh ascending ids keeps the store invariant. */
  lemma InsertBoardsValid(db: Db, items: seq<BoardSeed>)
    requires Valid(db)
    ensures Valid(InsertBoards(db, items))
  {
    var r := InsertBoards(db, items);
    var rows := BoardRows(db.nextBoardId, items);
    var n := |db.boards|;
    assert r.boards == db.boards + rows;
    forall i, j | 0 <= i < j < |r.boards|
      ensures r.boards[i].id < r.boards[j].id
    {
      if j < n {
        assert r.boards[i] == db.boards[i] && r.boards[j] == db.boards[j];
      } else if i < n {
        assert r.boards[i] == db.boards[i] && r.boards[j] == rows[j - n];
      } else {
        assert r.boards[i] == rows[i - n] && r.boards[j] == rows[j - n];
      }
    }
    forall i | 0 <= i < |r.boards|
      ensures r.boards[i].id < r.nextBoardId
    {
      if i < n {
        assert r.boards[i] == db.boards[i];
      } else {
        assert r.boards[i] == rows[i - n];
      }
    }
    forall x | x in BoardIds(db)
      ensures x in BoardIds(r)
    {
      var b :| b in db.boards && b.id == x;
      assert b in r.boards;
    }
    forall i | 0 <= i < |r.threads|
      ensures r.threads[i].boardId in BoardIds(r)
    {
      assert db.threads[i].boardId in BoardIds(db);
    }
    assert ThreadIds(r) == ThreadIds(db);
  }

  /** Seeding keeps the store invariant. */
  lemma SeedValid(db: Db)
    requires Valid(db)
    ensures Valid(SeedBoards(db))
  {
    if |db.boards| == 0 {
      InsertBoardsValid(db, DefaultBoards);
    }
  }

  /** Seeding the schema's empty store yields exactly the four default boards. */
  lemma SeedFreshStore()
    ensures var r := SeedBoards(EmptyDb);
            && Valid(r)
            && |r.boards| == 4 && r.threads == [] && r.posts == []
            && forall i :: 0 <= i < 4 ==> r.boards[i].id == i + 1 && r.boards[i].slug == DefaultBoards[i].slug
  {
    EmptyDbValid();
    SeedValid(EmptyDb);
  }
}
