/**
 The registration audit page: the approve and reject guards, the state each
 leaves behind, the status tag, and which rows can be acted on.
 */
module AuditUser {
  import opened Common

  const Pending: string := "待审核"
  const Approved: string := "已通过"

  /** A registration as listed; only the id and status matter here. */
  datatype Registration = Registration(id: int, status: string)

  /**
   The page state: the registration being approved and the role chosen for
   it, the registration being rejected and the reason typed.
   */
  datatype AuditState = AuditState(approveId: Option<int>, selectedRole: Option<int>, rejectId: Option<int>,
                                   rejectReason: string)

  /** `!x` on an id: missing or 0. */
  predicate Missing(id: Option<int>)
  {
    id.None? || id.value == 0
  }

  datatype AuditRequest = ApproveRequest(id: int, roleId: int) | RejectRequest(id: int, reason: string)

  /** The approve dialog is open while an id is set, the reject dialog likewise. */
  predicate ApproveOpen(s: AuditState) { s.approveId.Some? }
  predicate RejectOpen(s: AuditState) { s.rejectId.Some? }

  /**
   `approve`: without a registration or a role it only warns. Otherwise it
   sends the approval and, once the server accepted it (`ok`), clears the id
   and the role; a failed request leaves the state.
   */
  function Approve(s: AuditState, ok: bool): (r: (AuditState, Option<AuditRequest>))
    ensures r.1.None? <==> Missing(s.approveId) || Missing(s.selectedRole)
    ensures r.1.Some? ==> r.1.value == ApproveRequest(s.approveId.value, s.selectedRole.value)
    ensures r.1.None? || !ok ==> r.0 == s
    ensures r.1.Some? && ok ==> r.0 == s.(approveId := None, selectedRole := None)
  {
    if Missing(s.approveId) || Missing(s.selectedRole) then (s, None)
    else
      var req := ApproveRequest(s.approveId.value, s.selectedRole.value);
      (if ok then s.(approveId := None, selectedRole := None) else s, Some(req))
  }

  /** `reject`: needs a registration and a non-empty reason; success clears the id and the reason. */
  function Reject(s: AuditState, ok: bool): (r: (AuditState, Option<AuditRequest>))
    ensures r.1.None? <==> Missing(s.rejectId) || s.rejectReason == ""
    ensures r.1.Some? ==> r.1.value == RejectRequest(s.rejectId.value, s.rejectReason)
    ensures r.1.None? || !ok ==> r.0 == s
    ensures r.1.Some? && ok ==> r.0 == s.(rejectId := None, rejectReason := "")
  {
    if Missing(s.rejectId) || s.rejectReason == "" then (s, None)
    else
      var req := RejectRequest(s.rejectId.value, s.rejectReason);
      (if ok then s.(rejectId := None, rejectReason := "") else s, Some(req))
  }

  /** Cancelling the approve dialog clears the id and the role. */
  function CancelApprove(s: AuditState): (t: AuditState)
    ensures !ApproveOpen(t) && t.selectedRole.None? && t.rejectId == s.rejectId && t.rejectReason == s.rejectReason
  {
    s.(approveId := None, selectedRole := None)
  }

  /** Cancelling the reject dialog clears only the id: the typed reason stays. */
  function CancelReject(s: AuditState): (t: AuditState)
    ensures !RejectOpen(t) && t.rejectReason == s.rejectReason && t.approveId == s.approveId
  {
    s.(rejectId := None)
  }

  /** A successful approval or rejection closes its dialog; a refused one keeps it as it was. */
  lemma DecisionClosesDialog(s: AuditState)
    ensures var (t, req) := Approve(s, true); req.Some? ==> !ApproveOpen(t)
    ensures var (t, req) := Approve(s, true); req.None? ==> ApproveOpen(t) == ApproveOpen(s)
    ensures var (t, req) := Reject(s, true); req.Some? ==> !RejectOpen(t) && t.rejectReason == ""
  {
  }

  /** A reason typed, cancelled and typed for nobody else is what the next rejection sends. */
  lemma CancelledReasonReused(s: AuditState, id: int)
    requires id != 0 && s.rejectReason != ""
    ensures Reject(CancelReject(s).(rejectId := Some(id)), true).1 == Some(RejectRequest(id, s.rejectReason))
  {
  }

  /** Approving the registration with id 0 is never possible, although its dialog opens. */
  lemma IdZeroNeverApproved(s: AuditState, ok: bool)
    requires s.approveId == Some(0)
    ensures ApproveOpen(s) && Approve(s, ok).1.None?
  {
  }

  /* ---------------------------------------------------------------
   * Table
   * --------------------------------------------------------------- */

  datatype StatusTag = PendingTag | ApprovedTag | RejectedTag

  /** The status column: 待审核 and 已通过 as such, anything else shown as rejected. */
  function Tag(status: string): (t: StatusTag)
    ensures t == PendingTag <==> status == Pending
    ensures t == ApprovedTag <==> status == Approved
  {
    if status == Pending then PendingTag
    else if status == Approved then ApprovedTag
    else RejectedTag
  }

  /** The approve and reject buttons of a row. */
  predicate ActionsEnabled(r: Registration)
  {
    r.status == Pending
  }

  /** Rows can be acted on exactly when they are tagged pending. */
  lemma ActionsOnlyOnPending(r: Registration)
    ensures ActionsEnabled(r) <==> Tag(r.status) == PendingTag
  {
  }

  /** The approve button: opens the approve dialog for the row, when enabled. */
  function ClickApprove(s: AuditState, r: Registration): (t: AuditState)
    ensures ActionsEnabled(r) ==> t == s.(approveId := Some(r.id))
    ensures !ActionsEnabled(r) ==> t == s
  {
    if ActionsEnabled(r) then s.(approveId := Some(r.id)) else s
  }

  /** The reject button: opens the reject dialog for the row, when enabled. */
  function ClickReject(s: AuditState, r: Registration): (t: AuditState)
    ensures ActionsEnabled(r) ==> t == s.(rejectId := Some(r.id))
    ensures !ActionsEnabled(r) ==> t == s
  {
    if ActionsEnabled(r) then s.(rejectId := Some(r.id)) else s
  }

  /** Only a pending registration can be sent for approval from its row. */
  lemma ApprovalOnlyForPending(s: AuditState, r: Registration, ok: bool)
    requires s.approveId.None?
    ensures Approve(ClickApprove(s, r), ok).1.Some? ==> r.status == Pending && r.id != 0
  {
  }

  /**
   Only a pending registration can be rejected from its row, and the
   rejection names that row, with the reason typed.
   */
  lemma RejectionOnlyForPending(s: AuditState, r: Registration, ok: bool)
    requires s.rejectId.None?
    ensures var req := Reject(ClickReject(s, r), ok).1;
            req.Some? ==> r.status == Pending && req.value == RejectRequest(r.id, s.rejectReason)
    ensures ActionsEnabled(r) && r.id != 0 && s.rejectReason != "" ==> Reject(ClickReject(s, r), ok).1.Some?
  {
  }
}
