/**
 * The `/memories` routes: a table of memories owned by users, and the five
 * handlers that list, read, create, update and delete its rows. Every route
 * runs after a pre-handler that verifies the session token, so each handler
 * receives the authenticated subject `sub` (the user's internal id).
 */
module Memories {
  import opened Common

  /** One row of the memory table. */
  datatype Memory = Memory(
    id: Id,
    userId: Id,
    content: string,
    coverUrl: string,
    isPublic: bool,
    createAt: int)

  /**
   * What a handler answers. `BadRequest` is a rejected id parameter or body
   * (the schema parse throws), `NotFound` is the throw of a unique lookup
   * that finds no row, `Unauthorized` is the explicit 401 reply.
   */
  datatype Response<T> =
    | Ok(value: T)
    | BadRequest
    | NotFound
    | Unauthorized

  /** The body of a create or update request, each field possibly missing. */
  datatype Body = Body(content: Option<string>, coverUrl: Option<string>, isPublic: Option<bool>)

  /** A body that passed the schema. */
  datatype Fields = Fields(content: string, coverUrl: string, isPublic: bool)

  /** The body schema: `content` and `coverUrl` are required, `isPublic` defaults to false. */
  function ParseBody(body: Body): (r: Option<Fields>)
    ensures r.Some? <==> body.content.Some? && body.coverUrl.Some?
    ensures r.Some? ==> r.value.content == body.content.value && r.value.coverUrl == body.coverUrl.value
    ensures r.Some? ==> (r.value.isPublic <==> body.isPublic == Some(true))
  {
    if body.content.Some? && body.coverUrl.Some? then
      Some(Fields(body.content.value, body.coverUrl.value, body.isPublic.GetOr(false)))
    else
      None
  }

  /** Read rule of the single-record route: public rows, or the caller's own. */
  predicate CanRead(sub: Id, m: Memory) {
    m.isPublic || m.userId == sub
  }

  /** Write rule of the update and delete routes: the caller's own rows only. */
  predicate CanWrite(sub: Id, m: Memory) {
    m.userId == sub
  }

  /** The decision table the two rules form. */
  lemma PolicyTable(sub: Id, m: Memory)
    ensures CanWrite(sub, m) ==> CanRead(sub, m)
    ensures m.isPublic ==> CanRead(sub, m)
    ensures !m.isPublic ==> (CanRead(sub, m) <==> m.userId == sub)
    ensures CanWrite(sub, m) <==> m.userId == sub
  {
  }

  // ---------------------------------------------------------------------
  // List projection

  const ExcerptLength: nat := 115
  const Ellipsis: string := "..."

  /** The first 115 characters of `content` (all of it when shorter), then "...". */
  function Excerpt(content: string): (r: string)
    ensures |r| == (if |content| < ExcerptLength then |content| else ExcerptLength) + |Ellipsis|
    ensures |r| <= ExcerptLength + |Ellipsis|
    ensures r[..|r| - |Ellipsis|] <= content
    ensures r[|r| - |Ellipsis|..] == Ellipsis
  {
    content[..if |content| < ExcerptLength then |content| else ExcerptLength] + Ellipsis
  }

  /** A short content is shown whole, and the marker is still appended. */
  lemma ExcerptOfShortContent(content: string)
    requires |content| <= ExcerptLength
    ensures Excerpt(content) == content + Ellipsis
  {
  }

  /** Characters after the 115th never reach the excerpt. */
  lemma ExcerptIgnoresTail(a: string, b: string)
    requires ExcerptLength <= |a| && ExcerptLength <= |b|
    ensures Excerpt(a) == Excerpt(b) <==> a[..ExcerptLength] == b[..ExcerptLength]
  {
  }

  /** One item of the list response. */
  datatype Summary = Summary(id: Id, coverUrl: string, excerpt: string, createAt: int)

  function Summarize(m: Memory): Summary {
    Summary(m.id, m.coverUrl, Excerpt(m.content), m.createAt)
  }

  // ---------------------------------------------------------------------
  // The list query: rows of one owner, oldest first

  /** Every row of `rows` is stored under its own id. */
  ghost predicate Keyed(rows: map<Id, Memory>) {
    forall id | id in rows :: rows[id].id == id
  }

  /** The rows whose owner is `sub`. */
  ghost function OwnedBy(rows: map<Id, Memory>, sub: Id): set<Memory> {
    set id | id in rows && rows[id].userId == sub :: rows[id]
  }

  ghost predicate Ascending(q: seq<Memory>) {
    forall i, j | 0 <= i < j < |q| :: q[i].createAt <= q[j].createAt
  }

  ghost predicate Distinct(q: seq<Memory>) {
    forall i, j | 0 <= i < j < |q| :: q[i] != q[j]
  }

  /** A non-empty set of rows has an earliest one. */
  lemma {:induction false} EarliestExists(s: set<Memory>)
    requires s != {}
    ensures exists m :: m in s && forall o | o in s :: m.createAt <= o.createAt
  {
    var x :| x in s;
    if s != {x} {
      var rest := s - {x};
      EarliestExists(rest);
      var m :| m in rest && forall o | o in rest :: m.createAt <= o.createAt;
      if x.createAt < m.createAt {
        assert forall o | o in s :: x.createAt <= o.createAt;
      } else {
        assert forall o | o in s :: m.createAt <= o.createAt;
      }
    }
  }

  /**
   * The rows of `s` ordered by ascending `createAt`. Rows created at the
   * same instant come in an order left unspecified, as with the database.
   */
  ghost function SortedByCreateAt(s: set<Memory>): (q: seq<Memory>)
    ensures |q| == |s|
    ensures forall m :: m in q <==> m in s
    ensures Ascending(q)
    ensures Distinct(q)
    decreases |s|
  {
    if s == {} then
      []
    else
      EarliestExists(s);
      var m :| m in s && forall o | o in s :: m.createAt <= o.createAt;
      var rest := SortedByCreateAt(s - {m});
      assert forall i | 0 <= i < |rest| :: rest[i] in s - {m};
      [m] + rest
  }

  /** The list response built from the queried rows (`memories.map(...)`). */
  function Project(q: seq<Memory>): seq<Summary> {
    seq(|q|, i requires 0 <= i < |q| => Summarize(q[i]))
  }

  /** Every projected item is the summary of one of `sub`'s rows; order and distinctness carry over. */
  lemma ProjectionSound(rows: map<Id, Memory>, sub: Id, q: seq<Memory>)
    requires Keyed(rows)
    requires forall m :: m in q <==> m in OwnedBy(rows, sub)
    requires Ascending(q) && Distinct(q)
    ensures forall i | 0 <= i < |Project(q)| ::
      Project(q)[i].id in rows && rows[Project(q)[i].id].userId == sub &&
      Project(q)[i] == Summarize(rows[Project(q)[i].id])
    ensures forall i, j | 0 <= i < j < |Project(q)| ::
      Project(q)[i].createAt <= Project(q)[j].createAt && Project(q)[i].id != Project(q)[j].id
  {
    var r := Project(q);
    forall i | 0 <= i < |r|
      ensures r[i].id in rows && rows[r[i].id].userId == sub && r[i] == Summarize(rows[r[i].id])
    {
      assert q[i] in OwnedBy(rows, sub);
    }
    forall i, j | 0 <= i < j < |r|
      ensures r[i].createAt <= r[j].createAt && r[i].id != r[j].id
    {
      assert q[i] in OwnedBy(rows, sub) && q[j] in OwnedBy(rows, sub);
    }
  }

  /** Every row of `sub` shows up in the projection. */
  lemma ProjectionComplete(rows: map<Id, Memory>, sub: Id, q: seq<Memory>)
    requires Keyed(rows)
    requires forall m :: m in q <==> m in OwnedBy(rows, sub)
    ensures forall id | id in rows && rows[id].userId == sub ::
      exists i :: 0 <= i < |Project(q)| && Project(q)[i].id == id
  {
    var r := Project(q);
    forall id | id in rows && rows[id].userId == sub
      ensures exists i :: 0 <= i < |r| && r[i].id == id
    {
      assert rows[id] in OwnedBy(rows, sub);
      var i :| 0 <= i < |q| && q[i] == rows[id];
      assert r[i].id == id;
    }
  }

  // ---------------------------------------------------------------------
  // The table and its handlers

  class MemoryTable {
    var rows: map<Id, Memory>

    ghost predicate Valid()
      reads this
    {
      Keyed(rows)
    }

    constructor ()
      ensures Valid() && rows == map[]
    {
      rows := map[];
    }

    /**
     * GET /memories: a summary of each of the caller's own rows, oldest
     * first. Another user's rows never appear, public or not.
     */
    ghost function List(sub: Id): (r: seq<Summary>)
      reads this
      requires Valid()
      ensures forall i | 0 <= i < |r| ::
        r[i].id in rows && rows[r[i].id].userId == sub && r[i] == Summarize(rows[r[i].id])
      ensures forall id | id in rows && rows[id].userId == sub :: exists i :: 0 <= i < |r| && r[i].id == id
      ensures forall i, j | 0 <= i < j < |r| :: r[i].createAt <= r[j].createAt && r[i].id != r[j].id
    {
      var q := SortedByCreateAt(OwnedBy(rows, sub));
      ProjectionSound(rows, sub, q);
      ProjectionComplete(rows, sub, q);
      Project(q)
    }

    /**
     * GET /memories/:id. The id must pass `isUuid`; a missing row fails
     * before the read rule is looked at; a private row of another user is
     * refused with 401 (its existence is not hidden); otherwise the stored
     * row is returned as it is.
     */
    function Get(sub: Id, rawId: string, isUuid: string -> bool): (r: Response<Memory>)
      reads this
      ensures !isUuid(rawId) ==> r == BadRequest
      ensures isUuid(rawId) && rawId !in rows ==> r == NotFound
      ensures r == Unauthorized <==>
        isUuid(rawId) && rawId in rows && !rows[rawId].isPublic && rows[rawId].userId != sub
      ensures r.Ok? <==>
        isUuid(rawId) && rawId in rows && (rows[rawId].isPublic || rows[rawId].userId == sub)
      ensures r.Ok? ==> r.value == rows[rawId]
    {
      if !isUuid(rawId) then BadRequest
      else if rawId !in rows then NotFound
      else if !CanRead(sub, rows[rawId]) then Unauthorized
      else Ok(rows[rawId])
    }

    /**
     * POST /memories. The database supplies the fresh id `newId` and the
     * timestamp `now`. The new row belongs to the caller, is private unless
     * the body says otherwise, and no other row changes.
     */
    method Create(sub: Id, body: Body, newId: Id, now: int) returns (r: Response<Memory>)
      requires Valid()
      requires newId !in rows
      modifies this
      ensures Valid()
      ensures ParseBody(body).None? ==> r == BadRequest && rows == old(rows)
      ensures ParseBody(body).Some? ==>
        var f := ParseBody(body).value;
        r == Ok(Memory(newId, sub, f.content, f.coverUrl, f.isPublic, now)) &&
        rows == old(rows)[newId := r.value]
      ensures r.Ok? ==> rows.Keys == old(rows).Keys + {newId} && |rows| == |old(rows)| + 1
      ensures r.Ok? ==> r.value.userId == sub && CanWrite(sub, rows[newId])
      ensures r.Ok? ==> (r.value.isPublic <==> body.isPublic == Some(true))
    {
      var parsed := ParseBody(body);
      if parsed.None? {
        return BadRequest;
      }
      var f := parsed.value;
      var memory := Memory(newId, sub, f.content, f.coverUrl, f.isPublic, now);
      rows := rows[newId := memory];
      r := Ok(memory);
    }

    /**
     * PUT /memories/:id. The id is checked, then the body, then the row is
     * looked up, then the write rule applies. Only the owner's request
     * changes anything, and it rewrites `content`, `coverUrl` and
     * `isPublic` of that one row; an omitted `isPublic` makes the row
     * private again.
     */
    method Update(sub: Id, rawId: string, body: Body, isUuid: string -> bool) returns (r: Response<Memory>)
      requires Valid()
      modifies this
      ensures Valid()
      ensures !isUuid(rawId) || ParseBody(body).None? ==> r == BadRequest
      ensures isUuid(rawId) && ParseBody(body).Some? && rawId !in old(rows) ==> r == NotFound
      ensures r == Unauthorized <==>
        isUuid(rawId) && ParseBody(body).Some? && rawId in old(rows) && old(rows)[rawId].userId != sub
      ensures !r.Ok? ==> rows == old(rows)
      ensures r.Ok? <==>
        isUuid(rawId) && ParseBody(body).Some? && rawId in old(rows) && old(rows)[rawId].userId == sub
      ensures r.Ok? ==>
        var f := ParseBody(body).value;
        r.value == old(rows)[rawId].(content := f.content, coverUrl := f.coverUrl, isPublic := f.isPublic) &&
        rows == old(rows)[rawId := r.value]
      ensures r.Ok? ==> r.value.id == rawId && r.value.userId == sub && r.value.createAt == old(rows)[rawId].createAt
      ensures r.Ok? ==> (rows[rawId].isPublic <==> body.isPublic == Some(true))
    {
      if !isUuid(rawId) {
        return BadRequest;
      }
      var parsed := ParseBody(body);
      if parsed.None? {
        return BadRequest;
      }
      var f := parsed.value;
      if rawId !in rows {
        return NotFound;
      }
      var memory := rows[rawId];
      if !CanWrite(sub, memory) {
        return Unauthorized;
      }
      memory := memory.(content := f.content, coverUrl := f.coverUrl, isPublic := f.isPublic);
      rows := rows[rawId := memory];
      r := Ok(memory);
    }

    /**
     * DELETE /memories/:id. Only the owner's request removes the row, and it
     * removes that row alone.
     */
    method Delete(sub: Id, rawId: string, isUuid: string -> bool) returns (r: Response<()>)
      requires Valid()
      modifies this
      ensures Valid()
      ensures !isUuid(rawId) ==> r == BadRequest
      ensures isUuid(rawId) && rawId !in old(rows) ==> r == NotFound
      ensures r == Unauthorized <==> isUuid(rawId) && rawId in old(rows) && old(rows)[rawId].userId != sub
      ensures !r.Ok? ==> rows == old(rows)
      ensures r.Ok? <==> isUuid(rawId) && rawId in old(rows) && old(rows)[rawId].userId == sub
      ensures r.Ok? ==> rows == old(rows) - {rawId} && rawId !in rows && |rows| == |old(rows)| - 1
    {
      if !isUuid(rawId) {
        return BadRequest;
      }
      if rawId !in rows {
        return NotFound;
      }
      if !CanWrite(sub, rows[rawId]) {
        return Unauthorized;
      }
      rows := rows - {rawId};
      r := Ok(());
    }
  }
}
