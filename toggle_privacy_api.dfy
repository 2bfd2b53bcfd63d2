/** pages/api/toggle-privacy.js: the signed-in user sets the `public` flag
    of their own profile row. Every method is accepted. */
module TogglePrivacyApi {
  import opened Js
  import opened Http
  import opened Supabase
  import AuthOptions

  /** The response and the table's new state. */
  datatype Outcome = Outcome(res: Response, rows: seq<ProfileRow>)

  /** The handler on values: `caller` is `session?.user?.id` when truthy,
      `fault` the datastore's error. */
  function Respond(caller: Option<string>, req: Request, rows: seq<ProfileRow>, fault: Option<string>): (o: Outcome)
    ensures caller.None? ==> o.res == ErrorJson(401, "Unauthorized") && o.rows == rows
    ensures caller.Some? && fault.Some? ==> o.res == ErrorJson(500, fault.value) && o.rows == rows
    // `{ success: true, data }` of an update that selects nothing back
    ensures caller.Some? && fault.None? ==>
      && o.res == Response(200, None, JsonBody(JObj(map["success" := JBool(true), "data" := JNull])))
      && o.rows == UpdatePublic(rows, caller.value, Field(req, "public"))
    // a request without `public` writes nothing
    ensures Field(req, "public").None? ==> o.rows == rows
    // only `public` changes, and only on the caller's own row
    ensures |o.rows| == |rows|
    ensures forall i :: 0 <= i < |rows| ==>
      o.rows[i].id == rows[i].id && o.rows[i].name == rows[i].name && o.rows[i].image == rows[i].image
    ensures forall i :: 0 <= i < |rows| && (caller.None? || rows[i].id != caller.value) ==> o.rows[i] == rows[i]
    ensures o.res.status == 200 && Field(req, "public").Some? ==>
      forall i :: 0 <= i < |rows| && rows[i].id == caller.value ==> o.rows[i].public == Field(req, "public").value
  {
    if caller.None? then
      Outcome(ErrorJson(401, "Unauthorized"), rows)
    else if fault.Some? then
      Outcome(ErrorJson(500, fault.value), rows)
    else
      Outcome(Response(200, None, JsonBody(JObj(map["success" := JBool(true), "data" := JNull]))),
              UpdatePublic(rows, caller.value, Field(req, "public")))
  }

  /** There is no method check: the verb does not change the outcome. */
  lemma AnyMethodUpdates(caller: Option<string>, req: Request, verb: string, rows: seq<ProfileRow>, fault: Option<string>)
    ensures Respond(caller, req.(verb := verb), rows, fault) == Respond(caller, req, rows, fault)
  {
  }

  /** An update, not an upsert: a caller without a profile row gets 200 and
      the table is unchanged. */
  lemma NoRowMeansNoChange(caller: string, req: Request, rows: seq<ProfileRow>)
    requires FindProfile(rows, caller).None?
    ensures Respond(Some(caller), req, rows, None).rows == rows
  {
    FindProfileNoneMeansAbsent(rows, caller);
    UpdateOfMissingIdIsIdentity(rows, caller, Field(req, "public"));
  }

  /** Looked up by id, the update sets `public` on the caller's row, if
      there is one, and leaves every other row as it was. */
  lemma {:induction false} FindAfterUpdate(rows: seq<ProfileRow>, id: string, value: Option<Json>, k: string)
    ensures FindProfile(UpdatePublic(rows, id, value), k) ==
      if k == id && value.Some? && FindProfile(rows, k).Some?
      then Some(FindProfile(rows, k).value.(public := value.value))
      else FindProfile(rows, k)
  {
    if |rows| > 0 {
      var r := UpdatePublic(rows, id, value);
      assert r[1..] == UpdatePublic(rows[1..], id, value);
      FindAfterUpdate(rows[1..], id, value, k);
    }
  }

  /** `handler(req, res)` against the `profiles` table. */
  method Handler(session: AuthOptions.Session?, req: Request, table: ProfilesTable, fault: Option<string>)
    returns (res: Response)
    requires table.Valid()
    modifies table
    ensures table.Valid()
    ensures var o := Respond(AuthOptions.SignedInId(session), req, old(table.rows), fault);
      res == o.res && table.rows == o.rows
  {
    var caller := AuthOptions.SignedInId(session);
    if caller.None? {
      return ErrorJson(401, "Unauthorized");
    }

    var isPublic := Field(req, "public");
    if fault.Some? {
      return ErrorJson(500, fault.value);
    }
    table.UpdatePublicOf(caller.value, isPublic);
    res := Response(200, None, JsonBody(JObj(map["success" := JBool(true), "data" := JNull])));
  }
}
