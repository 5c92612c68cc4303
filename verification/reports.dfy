/** The abuse-report handlers of backend/controllers/reportController.js,
    with the administrator guard the report routes put in front of every
    handler except creation. */
module Reports {
  import opened Common
  import opened Store
  import Ordering

  /** `createReport`: at least one target is required (400), each supplied
      target must exist (404), and nothing is stored on any error. Supplying
      both targets is accepted. A missing reason violates the NOT NULL
      column and makes the insert throw. */
  function CreateReport(req: Requester, targetUserId: Option<Id>, itemId: Option<Id>, reason: Option<string>,
                        now: int, st: Store): (o: Outcome<Report>)
    ensures o.reply.BadRequest? <==> targetUserId.None? && itemId.None?
    ensures o.reply.NotFound? <==>
      && (targetUserId.Some? || itemId.Some?)
      && ((targetUserId.Some? && FindUser(st, targetUserId.value).None?)
          || (itemId.Some? && FindItem(st, itemId.value).None?))
    ensures o.reply.Ok? <==>
      && (targetUserId.Some? || itemId.Some?)
      && (targetUserId.Some? ==> FindUser(st, targetUserId.value).Some?)
      && (itemId.Some? ==> FindItem(st, itemId.value).Some?)
      && reason.Some?
    ensures !o.reply.Ok? ==> o.after == st
    ensures o.reply.Ok? ==>
      var r := o.reply.value;
      && r.reporterId == req.id && r.targetUserId == targetUserId && r.itemId == itemId
      && r.reason == reason.value && r.id == st.nextReportId && r.createdAt == now
      && o.after.reports == st.reports + [r]
      && o.after.users == st.users && o.after.items == st.items && o.after.messages == st.messages
    ensures Valid(st) ==> Valid(o.after)
  {
    if targetUserId.None? && itemId.None? then
      Outcome(BadRequest("Either target_user_id or item_id must be provided"), st)
    else if targetUserId.Some? && FindUser(st, targetUserId.value).None? then
      Outcome(NotFound("Target user not found"), st)
    else if itemId.Some? && FindItem(st, itemId.value).None? then
      Outcome(NotFound("Item not found"), st)
    else if reason.None? then
      Outcome(ServerError("Server error"), st)
    else
      var r := Report(st.nextReportId, req.id, targetUserId, itemId, reason.value, now);
      AppendKeepsKeys(st.reports, r, ReportKey, st.nextReportId);
      Outcome(Ok(r), st.(reports := st.reports + [r], nextReportId := st.nextReportId + 1))
  }

  /** A report naming an existing user and an existing item at once is stored
      with both targets. */
  lemma BothTargetsAccepted(req: Requester, u: Id, i: Id, reason: string, now: int, st: Store)
    requires FindUser(st, u).Some? && FindItem(st, i).Some?
    ensures CreateReport(req, Some(u), Some(i), Some(reason), now, st).reply.Ok?
    ensures CreateReport(req, Some(u), Some(i), Some(reason), now, st).reply.value.targetUserId == Some(u)
    ensures CreateReport(req, Some(u), Some(i), Some(reason), now, st).reply.value.itemId == Some(i)
  {
  }

  /** `getReports`: administrators get every report, newest first. */
  function GetReports(req: Requester, st: Store): (o: Outcome<seq<Report>>)
    ensures o.after == st
    ensures o.reply.Forbidden? <==> !req.IsAdmin()
    ensures o.reply.Ok? || o.reply.Forbidden?
    ensures o.reply.Ok? ==>
      && multiset(o.reply.value) == multiset(st.reports)
      && Ordering.NonIncreasing(o.reply.value, ReportTime)
  {
    if !req.IsAdmin() then Outcome(Forbidden(AdminOnly), st)
    else Outcome(Ok(Ordering.SortDesc(st.reports, ReportTime)), st)
  }

  /** `getReportById`: administrators only; 404 for a missing id. */
  function GetReportById(req: Requester, id: Id, st: Store): (o: Outcome<Report>)
    ensures o.after == st
    ensures o.reply.Forbidden? <==> !req.IsAdmin()
    ensures o.reply.NotFound? <==> req.IsAdmin() && FindReport(st, id).None?
    ensures o.reply.Ok? || o.reply.Forbidden? || o.reply.NotFound?
    ensures o.reply.Ok? ==> o.reply.value in st.reports && o.reply.value.id == id
  {
    if !req.IsAdmin() then Outcome(Forbidden(AdminOnly), st)
    else match FindReport(st, id)
      case None => Outcome(NotFound("Report not found"), st)
      case Some(r) => Outcome(Ok(r), st)
  }

  /** `deleteReport`: administrators only; 404 for a missing id; on success
      exactly that report disappears. */
  function DeleteReport(req: Requester, id: Id, st: Store): (o: Outcome<string>)
    ensures o.reply.Forbidden? <==> !req.IsAdmin()
    ensures o.reply.NotFound? <==> req.IsAdmin() && FindReport(st, id).None?
    ensures o.reply.Ok? || o.reply.Forbidden? || o.reply.NotFound?
    ensures !o.reply.Ok? ==> o.after == st
    ensures o.reply.Ok? ==>
      && FindReport(o.after, id).None?
      && (forall r :: r in o.after.reports <==> r in st.reports && r.id != id)
      && o.after.users == st.users && o.after.items == st.items && o.after.messages == st.messages
    ensures Valid(st) ==> Valid(o.after)
  {
    if !req.IsAdmin() then Outcome(Forbidden(AdminOnly), st)
    else match FindReport(st, id)
      case None => Outcome(NotFound("Report not found"), st)
      case Some(_) =>
        var after := st.(reports := Destroy(st.reports, id, ReportKey));
        if Valid(st) then
          DestroyKeepsKeys(st.reports, id, ReportKey, st.nextReportId);
          Outcome(Ok("Report removed"), after)
        else Outcome(Ok("Report removed"), after)
  }
}
