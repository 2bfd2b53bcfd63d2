/** pages/api/profile.js: the signed-in user's name and image are upserted
    into `profiles` under their id. The guard checks only that a session
    exists. */
module ProfileApi {
  import opened Js
  import opened Http
  import opened Supabase
  import AuthOptions

  /** The response and the table's new state. */
  datatype Outcome = Outcome(res: Response, rows: seq<ProfileRow>)

  /** `res.status(400).json({ error })`: the datastore's error object. */
  function UpsertError(message: string): (r: Response)
    ensures r.status == 400
  {
    Response(400, None, JsonBody(JObj(map["error" := JObj(map["message" := JStr(message)])])))
  }

  /** The handler on values: `hasSession` is `session` being non-null and
      `userId` its `user.id`, `fault` the datastore's error. A payload
      without `id` is refused by the primary key's not-null constraint. */
  function Respond(hasSession: bool, userId: Option<string>, req: Request, rows: seq<ProfileRow>,
                   publicDefault: Json, fault: Option<string>): (o: Outcome)
    ensures !hasSession ==> o.res == ErrorJson(401, "Not authenticated") && o.rows == rows
    ensures o.res.status != 200 ==> o.rows == rows
    ensures hasSession && req.verb != "POST" ==>
      && o.res.status == 405 && o.res.allow == Some("POST")
      && o.res.body == JsonBody(JObj(map["error" := JStr("Method " + req.verb + " Not Allowed")]))
    ensures hasSession && req.verb == "POST" && userId.None? ==> o.res == UpsertError(MissingKeyMessage)
    ensures hasSession && req.verb == "POST" && userId.Some? && fault.Some? ==> o.res == UpsertError(fault.value)
    // `{ data }` of an upsert that selects nothing back; the row is upserted on `id`
    ensures hasSession && req.verb == "POST" && userId.Some? && fault.None? ==>
      && o.res == Response(200, None, JsonBody(JObj(map["data" := JNull])))
      && o.rows == UpsertProfile(rows, userId.value, Field(req, "name"), Field(req, "image"), publicDefault)
    // success leaves the caller's row holding the body's name and image
    ensures o.res.status == 200 ==>
      && userId.Some? && FindProfile(o.rows, userId.value).Some?
      && (Field(req, "name").Some? ==> FindProfile(o.rows, userId.value).value.name == Field(req, "name").value)
      && (Field(req, "image").Some? ==> FindProfile(o.rows, userId.value).value.image == Field(req, "image").value)
    // an existing row keeps its visibility
    ensures o.res.status == 200 && FindProfile(rows, userId.value).Some? ==>
      FindProfile(o.rows, userId.value).value.public == FindProfile(rows, userId.value).value.public
    // every other profile is untouched
    ensures forall k :: (userId.None? || k != userId.value) ==> FindProfile(o.rows, k) == FindProfile(rows, k)
  {
    if !hasSession then
      Outcome(ErrorJson(401, "Not authenticated"), rows)
    else if req.verb == "POST" then
      if userId.None? then Outcome(UpsertError(MissingKeyMessage), rows)
      else if fault.Some? then Outcome(UpsertError(fault.value), rows)
      else Outcome(Response(200, None, JsonBody(JObj(map["data" := JNull]))),
                   UpsertProfile(rows, userId.value, Field(req, "name"), Field(req, "image"), publicDefault))
    else
      Outcome(Response(405, Some("POST"),
                       JsonBody(JObj(map["error" := JStr("Method " + req.verb + " Not Allowed")]))),
              rows)
  }

  /** Repeating the same POST leaves the table as the first one left it,
      and answers the same. */
  lemma RepeatedPostIsIdempotent(userId: string, req: Request, rows: seq<ProfileRow>, publicDefault: Json)
    requires req.verb == "POST"
    ensures var o1 := Respond(true, Some(userId), req, rows, publicDefault, None);
      var o2 := Respond(true, Some(userId), req, o1.rows, publicDefault, None);
      o2 == o1
  {
    UpsertProfileIdempotent(rows, userId, Field(req, "name"), Field(req, "image"), publicDefault);
  }

  /** A successful POST never duplicates the primary key. */
  lemma PostKeepsOneRowPerId(userId: string, req: Request, rows: seq<ProfileRow>, publicDefault: Json)
    requires ProfileKeysUnique(rows) && req.verb == "POST"
    ensures var o := Respond(true, Some(userId), req, rows, publicDefault, None);
      ProfileKeysUnique(o.rows) && |o.rows| == |rows| + (if FindProfile(rows, userId).None? then 1 else 0)
  {
    UpsertProfileKeepsKeysUnique(rows, userId, Field(req, "name"), Field(req, "image"), publicDefault);
  }

  /** The first POST of a new user creates their row with the body's name
      and image and the table's default visibility. */
  lemma FirstPostCreatesProfile(userId: string, req: Request, rows: seq<ProfileRow>, publicDefault: Json)
    requires req.verb == "POST" && FindProfile(rows, userId).None?
    ensures var o := Respond(true, Some(userId), req, rows, publicDefault, None);
      FindProfile(o.rows, userId)
        == Some(ProfileRow(userId, OrNull(Field(req, "name")), OrNull(Field(req, "image")), publicDefault))
  {
  }

  /** `handler(req, res)` against the `profiles` table. */
  method Handler(session: AuthOptions.Session?, req: Request, table: ProfilesTable, fault: Option<string>)
    returns (res: Response)
    requires table.Valid()
    modifies table
    ensures table.Valid()
    ensures var o := Respond(session != null, if session == null then None else session.user.id,
                             req, old(table.rows), table.publicDefault, fault);
      res == o.res && table.rows == o.rows
  {
    if session == null {
      return ErrorJson(401, "Not authenticated");
    }

    if req.verb == "POST" {
      var userId := session.user.id;
      if userId.None? {
        return UpsertError(MissingKeyMessage);
      }
      if fault.Some? {
        return UpsertError(fault.value);
      }
      table.Upsert(userId.value, Field(req, "name"), Field(req, "image"));
      return Response(200, None, JsonBody(JObj(map["data" := JNull])));
    }

    res := Response(405, Some("POST"),
                    JsonBody(JObj(map["error" := JStr("Method " + req.verb + " Not Allowed")])));
  }
}
