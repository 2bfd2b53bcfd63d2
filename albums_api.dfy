/** pages/api/albums.js: the signed-in user adds an album row (POST) or
    deletes one of their own rows by id (DELETE). Nothing caps the number
    of rows per user or rejects a repeated album. */
module AlbumsApi {
  import opened Js
  import opened Http
  import opened Supabase
  import AuthOptions

  /** The response and the table's new state. */
  datatype Outcome = Outcome(res: Response, rows: seq<AlbumRow>, nextId: nat)

  /** `{ success: true }`. */
  const SuccessBody: Json := JObj(map["success" := JBool(true)])

  /** The handler on values: `caller` is `session?.user?.id` when truthy,
      `fault` the datastore's error if it reports one. */
  function Respond(caller: Option<string>, req: Request, rows: seq<AlbumRow>, nextId: nat, fault: Option<string>): (o: Outcome)
    ensures caller.None? ==> o.res == ErrorJson(401, "Not authenticated") && o.rows == rows
    ensures o.res.status != 200 ==> o.rows == rows && o.nextId == nextId
    // rows owned by anyone but the caller are never removed
    ensures forall x :: x in rows && (caller.None? || x.userId != caller.value) ==> x in o.rows
    // every row that appears belongs to the caller
    ensures forall x :: x in o.rows && x !in rows ==> caller.Some? && x.userId == caller.value
    ensures caller.Some? && req.verb != "POST" && req.verb != "DELETE" ==>
      && o.res.status == 405 && o.res.allow == Some("POST, DELETE") && o.rows == rows
      && o.res.body == JsonBody(JObj(map["error" := JStr("Method " + req.verb + " Not Allowed")]))
    ensures caller.Some? && fault.Some? && (req.verb == "POST" || (req.verb == "DELETE" && IdFilter(Field(req, "id")).Some?)) ==>
      o.res == ErrorJson(500, fault.value)
    // a DELETE whose id the id column cannot read is refused by the datastore
    ensures caller.Some? && req.verb == "DELETE" && IdFilter(Field(req, "id")).None? ==>
      o.res == ErrorJson(500, InvalidIdMessage) && o.rows == rows
  {
    if caller.None? then
      Outcome(ErrorJson(401, "Not authenticated"), rows, nextId)
    else if req.verb == "POST" then
      if fault.Some? then Outcome(ErrorJson(500, fault.value), rows, nextId)
      else
        var row := AlbumRow(nextId, caller.value,
          OrNull(Field(req, "album_id")), OrNull(Field(req, "album_name")),
          OrNull(Field(req, "artist_name")), OrNull(Field(req, "album_image")));
        Outcome(Response(200, None, JsonBody(JObj(map["data" := JArr([AlbumJson(row)])]))),
                rows + [row], nextId + 1)
    else if req.verb == "DELETE" then
      var id := IdFilter(Field(req, "id"));
      if id.None? then Outcome(ErrorJson(500, InvalidIdMessage), rows, nextId)
      else if fault.Some? then Outcome(ErrorJson(500, fault.value), rows, nextId)
      else Outcome(Response(200, None, JsonBody(SuccessBody)),
                   DeleteWhere(rows, id.value, caller.value), nextId)
    else
      Outcome(Response(405, Some("POST, DELETE"),
                       JsonBody(JObj(map["error" := JStr("Method " + req.verb + " Not Allowed")]))),
              rows, nextId)
  }

  /** A successful POST appends exactly one row: owned by the session's
      user (a `user_id` in the body is ignored), the four album columns from
      the body, and the existing rows untouched. */
  lemma PostInsertsOneOwnedRow(caller: string, req: Request, rows: seq<AlbumRow>, nextId: nat, forged: Json)
    requires req.verb == "POST"
    ensures var o := Respond(Some(caller), req, rows, nextId, None);
      && o.res.status == 200
      && |o.rows| == |rows| + 1 && o.rows[..|rows|] == rows
      && o.rows[|rows|].userId == caller
      && o.rows[|rows|].albumId == OrNull(Field(req, "album_id"))
      && o.rows[|rows|].albumName == OrNull(Field(req, "album_name"))
      && o.rows[|rows|].artistName == OrNull(Field(req, "artist_name"))
      && o.rows[|rows|].albumImage == OrNull(Field(req, "album_image"))
      && o.res.body == JsonBody(JObj(map["data" := JArr([AlbumJson(o.rows[|rows|])])]))
    ensures var forgedReq := req.(body := req.body["user_id" := forged]);
      Respond(Some(caller), forgedReq, rows, nextId, None).rows
        == Respond(Some(caller), req, rows, nextId, None).rows
  {
    var o := Respond(Some(caller), req, rows, nextId, None);
    assert o.rows[..|rows|] == rows;
  }

  /** No quota and no duplicate check: a successful POST always raises the
      caller's row count, and the count of that album, by one, however
      many rows they already hold. */
  lemma PostIgnoresQuotaAndDuplicates(caller: string, req: Request, rows: seq<AlbumRow>, nextId: nat)
    requires req.verb == "POST"
    ensures var o := Respond(Some(caller), req, rows, nextId, None);
      var album := Some(OrNull(Field(req, "album_id")));
      && CountOwned(o.rows, caller, None) == CountOwned(rows, caller, None) + 1
      && CountOwned(o.rows, caller, album) == CountOwned(rows, caller, album) + 1
  {
    var o := Respond(Some(caller), req, rows, nextId, None);
    var row := o.rows[|rows|];
    assert o.rows == rows + [row];
    CountOwnedAppend(rows, row, caller, None);
    CountOwnedAppend(rows, row, caller, Some(OrNull(Field(req, "album_id"))));
  }

  /** A DELETE with a readable id removes exactly the rows with that id
      that the caller owns. */
  lemma DeleteRemovesExactlyOwnedMatch(caller: string, req: Request, rows: seq<AlbumRow>, nextId: nat)
    requires req.verb == "DELETE" && IdFilter(Field(req, "id")).Some?
    ensures var o := Respond(Some(caller), req, rows, nextId, None);
      && o.res == Response(200, None, JsonBody(SuccessBody))
      && forall x :: x in o.rows <==> x in rows && !(x.id == IdFilter(Field(req, "id")).value && x.userId == caller)
  {
  }

  /** A DELETE without an id in the body is an error, not a no-op: the
      filter `id=eq.undefined` is refused and nothing is removed. */
  lemma DeleteWithoutIdFails(caller: string, req: Request, rows: seq<AlbumRow>, nextId: nat, fault: Option<string>)
    requires req.verb == "DELETE" && "id" !in req.body
    ensures Respond(Some(caller), req, rows, nextId, fault)
      == Outcome(ErrorJson(500, InvalidIdMessage), rows, nextId)
  {
  }

  /** The id may arrive as a number or as its decimal text: both delete
      the same row. */
  lemma DeleteByNumericStringId(caller: string, req: Request, rows: seq<AlbumRow>, nextId: nat, k: nat, fault: Option<string>)
    requires req.verb == "DELETE"
    ensures Respond(Some(caller), req.(body := req.body["id" := JStr(DecimalText(k))]), rows, nextId, fault)
      == Respond(Some(caller), req.(body := req.body["id" := JNum(k)]), rows, nextId, fault)
  {
    var digits := DecimalText(k);
    var text := req.(body := req.body["id" := JStr(digits)]);
    var number := req.(body := req.body["id" := JNum(k)]);
    assert Field(text, "id") == Some(JStr(digits));
    assert Field(number, "id") == Some(JNum(k));
    assert ParseBigint(digits) == Some(k) by {
      ParseDecimalText(k);
    }
    assert IdFilter(Field(text, "id")) == Some(k) == IdFilter(Field(number, "id"));
    var expected := if fault.Some? then Outcome(ErrorJson(500, fault.value), rows, nextId)
      else Outcome(Response(200, None, JsonBody(SuccessBody)), DeleteWhere(rows, k, caller), nextId);
    assert Respond(Some(caller), text, rows, nextId, fault) == expected;
    assert Respond(Some(caller), number, rows, nextId, fault) == expected;
  }

  /** With unique ids, a DELETE removes at most one row. */
  lemma DeleteRemovesAtMostOneRow(caller: string, req: Request, rows: seq<AlbumRow>, nextId: nat)
    requires req.verb == "DELETE" && IdsUnique(rows)
    ensures |Respond(Some(caller), req, rows, nextId, None).rows| >= |rows| - 1
  {
    var id := IdFilter(Field(req, "id"));
    if id.Some? {
      DeleteRemovesAtMostOne(rows, id.value, caller);
    }
  }

  /** Not found and not owner are not told apart: a DELETE that matches no
      row, for instance another user's row, still answers 200 and changes
      nothing. */
  lemma DeleteOfNoOwnedRowStillSucceeds(caller: string, req: Request, rows: seq<AlbumRow>, nextId: nat)
    requires req.verb == "DELETE" && IdFilter(Field(req, "id")).Some?
    requires forall x :: x in rows && x.id == IdFilter(Field(req, "id")).value ==> x.userId != caller
    ensures Respond(Some(caller), req, rows, nextId, None)
      == Outcome(Response(200, None, JsonBody(SuccessBody)), rows, nextId)
  {
    DeleteWithoutMatchIsIdentity(rows, IdFilter(Field(req, "id")).value, caller);
  }

  /** `handler(req, res)` against the `user_albums` table. */
  method Handler(session: AuthOptions.Session?, req: Request, table: AlbumsTable, fault: Option<string>)
    returns (res: Response)
    requires table.Valid()
    modifies table
    ensures table.Valid()
    ensures var o := Respond(AuthOptions.SignedInId(session), req, old(table.rows), old(table.nextId), fault);
      res == o.res && table.rows == o.rows && table.nextId == o.nextId
  {
    var caller := AuthOptions.SignedInId(session);
    if caller.None? {
      return ErrorJson(401, "Not authenticated");
    }

    if req.verb == "POST" {
      if fault.Some? {
        return ErrorJson(500, fault.value);
      }
      var row := table.Insert(caller.value,
        OrNull(Field(req, "album_id")), OrNull(Field(req, "album_name")),
        OrNull(Field(req, "artist_name")), OrNull(Field(req, "album_image")));
      return Response(200, None, JsonBody(JObj(map["data" := JArr([AlbumJson(row)])])));
    }

    if req.verb == "DELETE" {
      var id := IdFilter(Field(req, "id"));
      if id.None? {
        return ErrorJson(500, InvalidIdMessage);
      }
      if fault.Some? {
        return ErrorJson(500, fault.value);
      }
      table.Delete(id.value, caller.value);
      return Response(200, None, JsonBody(SuccessBody));
    }

    res := Response(405, Some("POST, DELETE"),
                    JsonBody(JObj(map["error" := JStr("Method " + req.verb + " Not Allowed")])));
  }
}
