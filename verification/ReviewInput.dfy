/** Reading the statuses, decisions and roles a reviewer types (backend/app/case_review/service.py:308-386):
    every name is read back, in any case and with white space around it, and nothing else is read. */
module ReviewInput {
  import opened Options
  import opened ReviewModel

  function StatusName(status: ItemStatus): string {
    match status
    case Pending => "PENDING"
    case Pass => "PASS"
    case Fail => "FAIL"
    case Na => "NA"
    case Blocked => "BLOCKED"
  }

  function DecisionName(d: Decision): string {
    match d
    case Approved => "APPROVED"
    case Rejected => "REJECTED"
    case ChangesRequested => "CHANGES_REQUESTED"
    case Deferred => "DEFERRED"
  }

  function RoleName(role: Role): string {
    match role
    case TechnicalReviewer => "TECHNICAL_REVIEWER"
    case ForensicReviewer => "FORENSIC_REVIEWER"
    case LeadInvestigator => "LEAD_INVESTIGATOR"
    case CaseSupervisor => "CASE_SUPERVISOR"
  }

  lemma StatusRead(s: string, status: ItemStatus)
    ensures ParseStatus(s) == Some(status) <==> Folded(s) == StatusName(status)
  {
    assert "PENDING"[1] == 'E' && "PASS"[1] == 'A' && "BLOCKED"[1] == 'L' && "PASS"[0] != "FAIL"[0] && |"NA"| != |"PASS"|;
  }

  lemma DecisionRead(s: string, d: Decision)
    ensures ParseDecision(s) == Some(d) <==> Folded(s) == DecisionName(d)
  {
    assert "APPROVED"[0] == 'A' && "REJECTED"[0] == 'R' && "CHANGES_REQUESTED"[0] == 'C' && "DEFERRED"[0] == 'D';
  }

  lemma RoleRead(s: string, role: Role)
    ensures ParseRole(s) == Some(role) <==> Folded(s) == RoleName(role)
  {
    assert "TECHNICAL_REVIEWER"[0] == 'T' && "FORENSIC_REVIEWER"[0] == 'F' && "LEAD_INVESTIGATOR"[0] == 'L'
           && "CASE_SUPERVISOR"[0] == 'C';
  }
}
