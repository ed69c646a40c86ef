/** The data-access service of service/todo.go. The SQLite table `todos` is modelled
    as a map from id to row, with the AUTOINCREMENT counter that assigns the next id
    and the store's clock that stamps `created_at` and `updated_at`. Each operation
    is a method of TodoService that follows the SQL text of the source, and is tied
    to a pure specification function on Store; the properties of the operations are
    lemmas about those functions. */
module Service {
  import opened TodoModel
  import opened Decimal

  /** The content of the store: the table, the id the next INSERT receives and the
      reading of the store's clock the next modifying statement stamps rows with. */
  datatype Store = Store(table: map<int, Row>, nextId: int, clock: nat)

  /** What CreateTODO and UpdateTODO leave behind: the new store, the record returned
      and the error returned. */
  datatype TodoResult = TodoResult(store: Store, todo: Todo, err: Option<Error>)

  /** What DeleteTODO leaves behind. */
  datatype DeleteResult = DeleteResult(store: Store, err: Option<Error>)

  /** The table invariant: ids are positive and below the AUTOINCREMENT counter, every
      persisted TODO has a non-empty subject, and no row carries a stamp from the future. */
  ghost predicate StoreValid(s: Store)
  {
    s.nextId >= 1 &&
    forall id :: id in s.table ==>
      1 <= id < s.nextId &&
      s.table[id].subject != "" &&
      s.table[id].createdAt <= s.table[id].updatedAt < s.clock
  }

  // ----- CreateTODO -----

  /** INSERT INTO todos(subject, description) VALUES(?, ?), then re-read the row;
      an empty subject is refused with ErrConstraint before any statement is issued. */
  function CreateSpec(s: Store, subject: string, description: string): TodoResult
  {
    if subject == "" then
      TodoResult(s, BlankTodo(0), Some(ErrConstraint))
    else
      var id := s.nextId;
      var t := s.table[id := Row(subject, description, s.clock, s.clock)];
      TodoResult(Store(t, id + 1, s.clock + 1), RowTodo(id, t[id]), None)
  }

  lemma CreateRejectsEmptySubject(s: Store, description: string)
    ensures CreateSpec(s, "", description) == TodoResult(s, BlankTodo(0), Some(ErrConstraint))
  {
  }

  /** A non-empty subject adds exactly one row, under a fresh id larger than every
      id in the table, and the record returned is that row as re-read. */
  lemma CreateAddsOneRow(s: Store, subject: string, description: string)
    requires StoreValid(s)
    requires subject != ""
    ensures var o := CreateSpec(s, subject, description);
      && o.err == None
      && o.todo.id == s.nextId >= 1
      && o.todo.id !in s.table
      && (forall id :: id in s.table ==> id < o.todo.id)
      && o.store.table == s.table[o.todo.id := Row(subject, description, o.todo.createdAt, o.todo.updatedAt)]
      && |o.store.table| == |s.table| + 1
      && o.todo.subject == subject && o.todo.description == description
      && o.todo.createdAt == o.todo.updatedAt
      && StoreValid(o.store)
  {
  }

  // ----- ReadTODO -----

  /** The rows a descending scan of the primary key meets from `cursor` down to 1,
      stopping once `remaining` rows are taken. A negative `remaining` never reaches 0:
      SQLite reads a negative LIMIT as no limit. */
  function Scan(t: map<int, Row>, cursor: int, remaining: int): seq<Todo>
    decreases cursor
  {
    if cursor < 1 || remaining == 0 then []
    else if cursor in t then [RowTodo(cursor, t[cursor])] + Scan(t, cursor - 1, remaining - 1)
    else Scan(t, cursor - 1, remaining)
  }

  /** The highest id the query can return: `read` has no WHERE clause, so it starts
      below the AUTOINCREMENT counter; `readWithID` starts below prevID. */
  function ReadStart(s: Store, prevID: int): int
  {
    if prevID == 0 then s.nextId - 1 else prevID - 1
  }

  /** The rows ReadTODO returns. */
  function ReadSpec(s: Store, prevID: int, size: int): seq<Todo>
  {
    Scan(s.table, ReadStart(s, prevID), size)
  }

  /** The WHERE clause: none when prevID is 0, `id < prevID` otherwise. */
  predicate Selected(prevID: int, id: int)
  {
    prevID == 0 || id < prevID
  }

  function Ids(r: seq<Todo>): seq<int>
  {
    seq(|r|, j requires 0 <= j < |r| => r[j].id)
  }

  ghost predicate StrictlyDescending(r: seq<Todo>)
  {
    forall i, j :: 0 <= i < j < |r| ==> r[i].id > r[j].id
  }

  /** What `SELECT ... [WHERE id < prevID] ORDER BY id DESC LIMIT size` means, stated
      without reference to how it is computed: rows of the table that the WHERE clause
      selects, each scanned as stored, in strictly descending id order, no more than
      `size` of them, and every selected row left out is older than all returned and
      was left out only because the limit was reached. */
  ghost predicate IsPage(t: map<int, Row>, prevID: int, size: int, r: seq<Todo>)
  {
    && StrictlyDescending(r)
    && (forall j :: 0 <= j < |r| ==>
          r[j].id in t && Selected(prevID, r[j].id) && r[j] == RowTodo(r[j].id, t[r[j].id]))
    && (size >= 0 ==> |r| <= size)
    && (forall k :: k in t && Selected(prevID, k) && k !in Ids(r) ==>
          |r| == size && forall j :: 0 <= j < |r| ==> k < r[j].id)
  }

  lemma {:induction false} ScanFacts(t: map<int, Row>, cursor: int, remaining: int)
    ensures var r := Scan(t, cursor, remaining);
      && StrictlyDescending(r)
      && (forall j :: 0 <= j < |r| ==>
            1 <= r[j].id <= cursor && r[j].id in t && r[j] == RowTodo(r[j].id, t[r[j].id]))
      && (remaining >= 0 ==> |r| <= remaining)
      && (forall k :: k in t && 1 <= k <= cursor && k !in Ids(r) ==>
            |r| == remaining && forall j :: 0 <= j < |r| ==> k < r[j].id)
    decreases cursor
  {
    if cursor < 1 || remaining == 0 {
    } else if cursor in t {
      var rest := Scan(t, cursor - 1, remaining - 1);
      ScanFacts(t, cursor - 1, remaining - 1);
      var r := [RowTodo(cursor, t[cursor])] + rest;
      assert Ids(r) == [cursor] + Ids(rest);
    } else {
      ScanFacts(t, cursor - 1, remaining);
    }
  }

  /** ReadTODO answers the query: its rows form the page the SQL text describes. */
  lemma ReadIsPage(s: Store, prevID: int, size: int)
    requires StoreValid(s)
    ensures IsPage(s.table, prevID, size, ReadSpec(s, prevID, size))
  {
    ScanFacts(s.table, ReadStart(s, prevID), size);
  }

  /** The page is determined by its description: two results that both satisfy
      IsPage are the same sequence. */
  lemma PageUnique(t: map<int, Row>, prevID: int, size: int, r1: seq<Todo>, r2: seq<Todo>)
    requires IsPage(t, prevID, size, r1)
    requires IsPage(t, prevID, size, r2)
    ensures r1 == r2
  {
    var n := if |r1| < |r2| then |r1| else |r2|;
    var i := 0;
    while i < n
      invariant 0 <= i <= n
      invariant forall j :: 0 <= j < i ==> r1[j] == r2[j]
    {
      PagesAgreeAt(t, prevID, size, r1, r2, i);
      PagesAgreeAt(t, prevID, size, r2, r1, i);
      i := i + 1;
    }
    PageNotShorter(t, prevID, size, r1, r2);
    PageNotShorter(t, prevID, size, r2, r1);
    assert |r1| == |r2|;
  }

  /** Where two pages agree below position i, the id at i in r1 is no larger than in r2. */
  lemma PagesAgreeAt(t: map<int, Row>, prevID: int, size: int, r1: seq<Todo>, r2: seq<Todo>, i: int)
    requires IsPage(t, prevID, size, r1)
    requires IsPage(t, prevID, size, r2)
    requires 0 <= i < |r1| && i < |r2|
    requires forall j :: 0 <= j < i ==> r1[j] == r2[j]
    ensures r1[i].id <= r2[i].id
    ensures r1[i].id == r2[i].id ==> r1[i] == r2[i]
  {
    var a, b := r1[i].id, r2[i].id;
    assert forall j :: 0 <= j < |r2| && j < i ==> r2[j].id > a;
    assert forall j :: 0 <= j < |r2| && i <= j ==> r2[j].id <= b;
    assert a > b ==> a !in Ids(r2);
  }

  /** Where two pages agree on their common prefix, r1 is not shorter than r2. */
  lemma PageNotShorter(t: map<int, Row>, prevID: int, size: int, r1: seq<Todo>, r2: seq<Todo>)
    requires IsPage(t, prevID, size, r1)
    requires IsPage(t, prevID, size, r2)
    requires forall j :: 0 <= j < |r1| && j < |r2| ==> r1[j] == r2[j]
    ensures |r2| <= |r1|
  {
    var a := if |r1| < |r2| then r2[|r1|].id else 0;
    assert |r1| < |r2| ==> a !in Ids(r1);
  }

  /** With ids 1..N in the table, the first page holds the min(size, N) newest rows,
      newest first. */
  lemma ReadNewest(s: Store, n: nat, size: nat)
    requires StoreValid(s)
    requires forall id :: id in s.table <==> 1 <= id <= n
    ensures var r := ReadSpec(s, 0, size);
      && |r| == (if size < n then size else n)
      && forall j :: 0 <= j < |r| ==> r[j].id == n - j
  {
    assert n in s.table ==> n < s.nextId;
    ScanContiguous(s.table, n, s.nextId - 1, size);
  }

  lemma {:induction false} ScanContiguous(t: map<int, Row>, n: nat, cursor: int, remaining: nat)
    requires forall id :: id in t <==> 1 <= id <= n
    requires cursor >= 0
    ensures var top := if cursor < n then cursor else n;
      var r := Scan(t, cursor, remaining);
      && |r| == (if remaining < top then remaining else top)
      && forall j :: 0 <= j < |r| ==> r[j].id == top - j
    decreases cursor
  {
    if cursor < 1 || remaining == 0 {
    } else {
      ScanContiguous(t, n, cursor - 1, if cursor in t then remaining - 1 else remaining);
    }
  }

  // ----- UpdateTODO -----

  /** UPDATE todos SET subject = ?, description = ? WHERE id = ?, then re-read the row.
      The record returned always carries the id asked for; an empty subject is refused
      before any statement, and an UPDATE that matched no row gives ErrNotFound. */
  function UpdateSpec(s: Store, id: int, subject: string, description: string): TodoResult
  {
    if subject == "" then
      TodoResult(s, BlankTodo(id), Some(ErrConstraint))
    else if id !in s.table then
      TodoResult(s, BlankTodo(id), Some(ErrNotFound("Updated row not found")))
    else
      var t := s.table[id := s.table[id].(subject := subject, description := description, updatedAt := s.clock)];
      TodoResult(s.(table := t, clock := s.clock + 1), RowTodo(id, t[id]), None)
  }

  lemma UpdateRejectsEmptySubject(s: Store, id: int, description: string)
    ensures UpdateSpec(s, id, "", description) == TodoResult(s, BlankTodo(id), Some(ErrConstraint))
  {
  }

  /** An UPDATE that matches no row changes nothing and is reported as not found. */
  lemma UpdateMissingIsNotFound(s: Store, id: int, subject: string, description: string)
    requires subject != "" && id !in s.table
    ensures var o := UpdateSpec(s, id, subject, description);
      o.store == s && o.todo.id == id && o.err.Some? && o.err.value.ErrNotFound?
  {
  }

  /** On an existing id only that row changes: its subject and description become the
      new ones, its created_at is kept and its updated_at is not earlier; the record
      returned is the row as re-read. */
  lemma UpdateChangesOnlyThatRow(s: Store, id: int, subject: string, description: string)
    requires StoreValid(s)
    requires subject != "" && id in s.table
    ensures var o := UpdateSpec(s, id, subject, description);
      && o.err == None
      && o.store.table.Keys == s.table.Keys
      && o.store.nextId == s.nextId
      && (forall k :: k in s.table && k != id ==> o.store.table[k] == s.table[k])
      && o.store.table[id] == Row(subject, description, s.table[id].createdAt, o.todo.updatedAt)
      && o.todo == RowTodo(id, o.store.table[id])
      && o.todo.createdAt <= o.todo.updatedAt
      && StoreValid(o.store)
  {
  }

  // ----- DeleteTODO -----

  /** The ids a list names. */
  function IdSet(ids: seq<int>): set<int>
  {
    set id | id in ids
  }

  /** DELETE FROM todos WHERE id IN (...): the rows whose id is listed go; an empty
      list issues no statement, and a statement that removed nothing gives ErrNotFound. */
  function DeleteSpec(s: Store, ids: seq<int>): DeleteResult
  {
    if |ids| == 0 then
      DeleteResult(s, None)
    else
      var removed := s.table.Keys * IdSet(ids);
      DeleteResult(s.(table := s.table - removed),
                   if |removed| == 0 then Some(ErrNotFound("no items deleted")) else None)
  }

  lemma DeleteNothingIsNoop(s: Store)
    ensures DeleteSpec(s, []) == DeleteResult(s, None)
  {
  }

  /** Exactly the listed rows are removed, the rest are kept as they were, and the
      result is ErrNotFound precisely when none of the ids was in the table. */
  lemma DeleteRemovesExactlyListed(s: Store, ids: seq<int>)
    requires StoreValid(s)
    requires |ids| > 0
    ensures var o := DeleteSpec(s, ids);
      && (forall k :: k in o.store.table <==> k in s.table && k !in ids)
      && (forall k :: k in o.store.table ==> o.store.table[k] == s.table[k])
      && o.store.nextId == s.nextId && o.store.clock == s.clock
      && (o.err.Some? <==> forall k :: k in ids ==> k !in s.table)
      && (o.err.Some? ==> o.err.value.ErrNotFound? && o.store == s)
      && StoreValid(o.store)
  {
    var removed := s.table.Keys * IdSet(ids);
    if forall k :: k in ids ==> k !in s.table {
      assert removed == {};
    } else {
      var k :| k in ids && k in s.table;
      assert k in removed;
    }
  }

  /** strings.Repeat */
  function Repeat(s: string, n: nat): string
  {
    if n == 0 then "" else s + Repeat(s, n - 1)
  }

  /** The number of `?` placeholders in a statement. */
  function Placeholders(q: string): nat
  {
    multiset(q)['?']
  }

  lemma {:induction false} RepeatPlaceholders(n: nat)
    ensures Placeholders(Repeat(",?", n)) == n
  {
    if n > 0 {
      RepeatPlaceholders(n - 1);
      assert multiset(Repeat(",?", n)) == multiset(",?") + multiset(Repeat(",?", n - 1));
    }
  }

  lemma PlaceholdersAppend(a: string, b: string)
    ensures Placeholders(a + b) == Placeholders(a) + Placeholders(b)
  {
    assert multiset(a + b) == multiset(a) + multiset(b);
  }

  lemma NoPlaceholders(s: string)
    requires '?' !in s
    ensures Placeholders(s) == 0
  {
  }

  /** The text of `deleteFmt` before its `?%s)`. */
  const DeleteHead := "DELETE FROM todos WHERE id IN ("

  lemma NoMarkInDeleteHead()
    ensures '?' !in DeleteHead
  {
  }

  /** `head`, then `?`, `list` and `)`: one placeholder more than `head` and `list` hold. */
  function InList(head: string, list: string): (q: string)
    ensures Placeholders(q) == Placeholders(head) + 1 + Placeholders(list)
  {
    PlaceholdersAppend(head, "?");
    PlaceholdersAppend(head + "?", list);
    PlaceholdersAppend(head + "?" + list, ")");
    assert Placeholders("?") == 1 && Placeholders(")") == 0;
    head + "?" + list + ")"
  }

  /** fmt.Sprintf(`DELETE FROM todos WHERE id IN (?%s)`, strings.Repeat(",?", n-1)):
      the statement carries one placeholder per id. */
  method DeleteStatement(n: nat) returns (q: string)
    requires n >= 1
    ensures Placeholders(q) == n
  {
    var list := Repeat(",?", n - 1);
    RepeatPlaceholders(n - 1);
    NoMarkInDeleteHead();
    NoPlaceholders(DeleteHead);
    q := InList(DeleteHead, list);
  }

  /** The ids the store compares `id` with once each bound text is given the column's
      INTEGER affinity: texts that read as integers denote those integers. */
  function BoundIds(args: seq<string>): set<int>
  {
    set i | 0 <= i < |args| && Parse(args[i]).Some? :: Parse(args[i]).value
  }

  /** Executing a DELETE statement `q` with `args` bound: the driver needs one argument
      per placeholder; the rows whose id equals a bound value go, and the number of
      rows affected is reported. */
  function ExecDelete(t: map<int, Row>, q: string, args: seq<string>): (map<int, Row>, nat)
    requires Placeholders(q) == |args|
  {
    var removed := t.Keys * BoundIds(args);
    (t - removed, |removed|)
  }

  /** Binding the decimal rendering of each id makes the statement match exactly
      the listed ids. */
  lemma BoundRendered(args: seq<string>, ids: seq<int>)
    requires |args| == |ids|
    requires forall i :: 0 <= i < |ids| ==> args[i] == Render(ids[i])
    ensures BoundIds(args) == IdSet(ids)
  {
    forall i | 0 <= i < |ids|
      ensures Parse(args[i]) == Some(ids[i])
    {
      ParseRender(ids[i]);
    }
    assert forall k :: k in IdSet(ids) ==> exists i :: 0 <= i < |ids| && ids[i] == k;
  }

  /** A TODOService over the `todos` table. */
  class TodoService {
    var table: map<int, Row>
    var nextId: int
    var clock: nat

    function State(): Store
      reads this
    {
      Store(table, nextId, clock)
    }

    ghost predicate Valid()
      reads this
    {
      StoreValid(State())
    }

    /** NewTODOService: a service over a store in whatever state it is found. */
    constructor (db: Store)
      requires StoreValid(db)
      ensures Valid() && State() == db
    {
      table, nextId, clock := db.table, db.nextId, db.clock;
    }

    method CreateTODO(subject: string, description: string) returns (todo: Todo, err: Option<Error>)
      requires Valid()
      modifies this
      ensures Valid()
      ensures TodoResult(State(), todo, err) == CreateSpec(old(State()), subject, description)
    {
      if subject == "" {
        return BlankTodo(0), Some(ErrConstraint);
      }
      // INSERT INTO todos(subject, description) VALUES(?, ?)
      var id := nextId;
      table := table[id := Row(subject, description, clock, clock)];
      nextId, clock := nextId + 1, clock + 1;
      // SELECT subject, description, created_at, updated_at FROM todos WHERE id = ?
      var row := table[id];
      todo := RowTodo(id, row);
      err := None;
    }

    method ReadTODO(prevID: int, size: int) returns (todos: seq<Todo>, err: Option<Error>)
      ensures todos == ReadSpec(State(), prevID, size)
      ensures err == None
    {
      if prevID == 0 {
        // SELECT ... FROM todos ORDER BY id DESC LIMIT ?
        todos := QueryRows(nextId - 1, size);
      } else {
        // SELECT ... FROM todos WHERE id < ? ORDER BY id DESC LIMIT ?
        todos := QueryRows(prevID - 1, size);
      }
      err := None;
    }

    /** The `for rows.Next()` loop: walk the primary key downwards from `first`,
        appending each row met, until `limit` rows are taken or the ids run out. */
    method QueryRows(first: int, limit: int) returns (todos: seq<Todo>)
      ensures todos == Scan(table, first, limit)
    {
      todos := [];
      var cursor, remaining := first, limit;
      while cursor >= 1 && remaining != 0
        invariant todos + Scan(table, cursor, remaining) == Scan(table, first, limit)
        decreases cursor
      {
        if cursor in table {
          todos := todos + [RowTodo(cursor, table[cursor])];
          remaining := remaining - 1;
        }
        cursor := cursor - 1;
      }
    }

    method UpdateTODO(id: int, subject: string, description: string) returns (todo: Todo, err: Option<Error>)
      requires Valid()
      modifies this
      ensures Valid()
      ensures TodoResult(State(), todo, err) == UpdateSpec(old(State()), id, subject, description)
    {
      todo := BlankTodo(id);
      if subject == "" {
        return todo, Some(ErrConstraint);
      }
      // UPDATE todos SET subject = ?, description = ? WHERE id = ?
      var rowCount := 0;
      if id in table {
        table := table[id := table[id].(subject := subject, description := description, updatedAt := clock)];
        clock := clock + 1;
        rowCount := 1;
      }
      if rowCount == 0 {
        return todo, Some(ErrNotFound("Updated row not found"));
      }
      // SELECT subject, description, created_at, updated_at FROM todos WHERE id = ?
      var row := table[id];
      todo := RowTodo(id, row);
      err := None;
    }

    /** The statement text and its arguments: one placeholder per id, and each
        id bound as its decimal rendering. */
    static method PrepareDelete(ids: seq<int>) returns (delete: string, strIds: array<string>)
      requires |ids| > 0
      ensures fresh(strIds)
      ensures Placeholders(delete) == strIds.Length == |ids|
      ensures forall i :: 0 <= i < |ids| ==> strIds[i] == Render(ids[i])
    {
      delete := DeleteStatement(|ids|);
      strIds := new string[|ids|];
      for i := 0 to |ids|
        invariant forall j :: 0 <= j < i ==> strIds[j] == Render(ids[j])
      {
        strIds[i] := Render(ids[i]);
      }
    }

    method DeleteTODO(ids: seq<int>) returns (err: Option<Error>)
      requires Valid()
      modifies this
      ensures Valid()
      ensures DeleteResult(State(), err) == DeleteSpec(old(State()), ids)
    {
      if |ids| == 0 {
        return None;
      }
      var delete, strIds := PrepareDelete(ids);
      // the statement is executed with one argument bound to each placeholder
      BoundRendered(strIds[..], ids);
      var (rest, deletedRowCount) := ExecDelete(table, delete, strIds[..]);
      table := rest;
      if deletedRowCount == 0 {
        err := Some(ErrNotFound("no items deleted"));
      } else {
        err := None;
      }
    }
  }
}
