/** pages/api/consent.js: the signed-in user records their cookie consent,
    one `user_consent` row per user, dated by the server's clock. */
module ConsentApi {
  import opened Js
  import opened Http
  import opened Supabase
  import AuthOptions

  /** The response and the table's new state. */
  datatype Outcome = Outcome(res: Response, rows: seq<ConsentRow>)

  /** `consent_status` when it is one of the two accepted strings. */
  function ConsentStatus(req: Request): (s: Option<string>)
    ensures s.Some? <==> Field(req, "consent_status") in {Some(JStr("accepted")), Some(JStr("declined"))}
    ensures s.Some? ==> Field(req, "consent_status") == Some(JStr(s.value))
  {
    match Field(req, "consent_status")
    case Some(JStr(s)) => if s == "accepted" || s == "declined" then Some(s) else None
    case _ => None
  }

  /** The handler on values: `caller` is `session?.user?.id` when truthy,
      `now` is `new Date().toISOString()`, `fault` the datastore's error. */
  function Respond(caller: Option<string>, req: Request, rows: seq<ConsentRow>, now: string, fault: Option<string>): (o: Outcome)
    // the session guard comes before the method check
    ensures caller.None? ==> o.res == ErrorJson(401, "Unauthorized") && o.rows == rows
    ensures o.res.status != 200 ==> o.rows == rows
    ensures caller.Some? && req.verb != "POST" ==>
      o.res == Response(405, Some("POST"), TextBody("Method Not Allowed"))
    ensures caller.Some? && req.verb == "POST" && ConsentStatus(req).None? ==>
      o.res == ErrorJson(400, "Invalid consent status")
    ensures caller.Some? && req.verb == "POST" && ConsentStatus(req).Some? && fault.Some? ==>
      o.res == ErrorJson(500, fault.value)
    // `{ success: true, data }`: the upsert selects nothing back, so data is null
    ensures caller.Some? && req.verb == "POST" && ConsentStatus(req).Some? && fault.None? ==>
      o.res == Response(200, None, JsonBody(JObj(map["success" := JBool(true), "data" := JNull])))
    // a stored row always carries the caller's id and a valid status
    ensures o.res.status == 200 ==>
      && caller.Some? && req.verb == "POST" && ConsentStatus(req).Some?
      && FindConsent(o.rows, caller.value) == Some(ConsentRow(caller.value, ConsentStatus(req).value, now))
    // other users' consent is untouched
    ensures forall k :: (caller.None? || k != caller.value) ==> FindConsent(o.rows, k) == FindConsent(rows, k)
  {
    if caller.None? then
      Outcome(ErrorJson(401, "Unauthorized"), rows)
    else if req.verb == "POST" then
      var status := ConsentStatus(req);
      if status.None? then Outcome(ErrorJson(400, "Invalid consent status"), rows)
      else if fault.Some? then Outcome(ErrorJson(500, fault.value), rows)
      else
        var payload := ConsentRow(caller.value, status.value, now);
        Outcome(Response(200, None, JsonBody(JObj(map["success" := JBool(true), "data" := JNull]))),
                UpsertConsent(rows, payload))
    else
      Outcome(Response(405, Some("POST"), TextBody("Method Not Allowed")), rows)
  }

  /** A valid POST leaves exactly one row for the caller: the key stays
      unique, and the table grows only on the caller's first consent. */
  lemma ValidPostNeverDuplicates(caller: string, req: Request, rows: seq<ConsentRow>, now: string)
    requires ConsentKeysUnique(rows) && req.verb == "POST" && ConsentStatus(req).Some?
    ensures var o := Respond(Some(caller), req, rows, now, None);
      && o.res.status == 200
      && ConsentKeysUnique(o.rows)
      && |o.rows| == |rows| + (if FindConsent(rows, caller).None? then 1 else 0)
  {
    UpsertConsentKeepsKeysUnique(rows, ConsentRow(caller, ConsentStatus(req).value, now));
  }

  /** Consenting again replaces the earlier answer: after two valid POSTs
      the caller has one row, carrying the second status and date. */
  lemma SecondConsentReplacesFirst(caller: string, first: Request, second: Request, rows: seq<ConsentRow>, t1: string, t2: string)
    requires first.verb == "POST" && ConsentStatus(first).Some?
    requires second.verb == "POST" && ConsentStatus(second).Some?
    ensures var o1 := Respond(Some(caller), first, rows, t1, None);
      var o2 := Respond(Some(caller), second, o1.rows, t2, None);
      && FindConsent(o2.rows, caller) == Some(ConsentRow(caller, ConsentStatus(second).value, t2))
      && |o2.rows| == |o1.rows|
  {
  }

  /** `handler(req, res)` against the `user_consent` table. */
  method Handler(session: AuthOptions.Session?, req: Request, table: ConsentTable, now: string, fault: Option<string>)
    returns (res: Response)
    requires table.Valid()
    modifies table
    ensures table.Valid()
    ensures var o := Respond(AuthOptions.SignedInId(session), req, old(table.rows), now, fault);
      res == o.res && table.rows == o.rows
  {
    var caller := AuthOptions.SignedInId(session);
    if caller.None? {
      return ErrorJson(401, "Unauthorized");
    }

    if req.verb == "POST" {
      var status := ConsentStatus(req);
      if status.None? {
        return ErrorJson(400, "Invalid consent status");
      }
      if fault.Some? {
        return ErrorJson(500, fault.value);
      }
      table.Upsert(ConsentRow(caller.value, status.value, now));
      return Response(200, None, JsonBody(JObj(map["success" := JBool(true), "data" := JNull])));
    }

    res := Response(405, Some("POST"), TextBody("Method Not Allowed"));
  }
}
