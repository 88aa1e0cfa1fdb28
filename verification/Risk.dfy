/** The three risk levels and the policy that assigns them. */
module Risk {
  import opened Text

  datatype Risk = Green | Yellow | Red

  const GREEN_ACTIONS: set<string> := {
    "task.create", "task.update_status", "memory.add", "decision.record", "project.dossier_read", "kpi.add",
    "person.add", "crm.create_contact", "crm.add_interaction", "crm.create_deal", "notification.create",
    "content.draft_create", "content.draft_update", "seo.audit", "income.create", "financial.create_income",
    "income.update", "financial.update_income", "income.mark_paid", "financial.mark_paid"
  }

  const YELLOW_ACTIONS: set<string> := {
    "task.delete", "project.update", "budget.add_line", "wordpress.create_draft", "wordpress.update_post",
    "content.generate", "content.publish_draft", "notification.send", "integration.connect", "crm.update_contact",
    "crm.update_deal", "crm.update_deal_stage", "crm.delete_interaction", "content.delete_draft", "income.delete",
    "financial.delete_income", "financial.send_reminder", "sales.send_followup", "income.send_reminder"
  }

  const RED_ACTIONS: set<string> := {
    "wordpress.publish", "wordpress.delete_post", "project.delete", "message.send_to_client", "ads.change_budget",
    "payment.execute", "integration.revoke", "social.publish", "crm.delete_contact", "crm.delete_deal",
    "content.publish"
  }

  const RED_HINTS: seq<string> := ["delete", "publish", "payment", "pay", "charge", "revoke", "send_to_client"]

  /** `hint in key`. */
  predicate Contains(key: string, hint: string) {
    hint <= key || (key != "" && Contains(key[1..], hint))
  }

  /** The action type as the policy looks it up. */
  function Key(actionType: string): string {
    Lower(Trim(actionType))
  }

  predicate HasRedHint(key: string) {
    exists h :: h in RED_HINTS && Contains(key, h)
  }

  /** Every other action type is at least yellow. */
  function Classify(actionType: string): Risk {
    var key := Key(actionType);
    if key in GREEN_ACTIONS then Green
    else if key in YELLOW_ACTIONS then Yellow
    else if key in RED_ACTIONS then Red
    else if HasRedHint(key) then Red
    else Yellow
  }

  predicate IsAuto(risk: Risk) {
    risk.Green?
  }

  function ApprovalsRequired(risk: Risk): nat {
    match risk
    case Green => 0
    case Yellow => 1
    case Red => 2
  }

  function TtlFor(risk: Risk): real {
    match risk
    case Green => 900.0
    case Yellow => 86400.0
    case Red => 7200.0
  }

  /** An action type runs unattended exactly when the policy lists it as green, and needs two approvals exactly when the
      policy lists it as red or, not listing it at all, finds a red hint in it. */
  lemma LevelsOfPolicy(actionType: string)
    ensures var key := Key(actionType);
      && (ApprovalsRequired(Classify(actionType)) == 0 <==> key in GREEN_ACTIONS)
      && (ApprovalsRequired(Classify(actionType)) == 2 <==>
            key in RED_ACTIONS || (HasRedHint(key) && key !in GREEN_ACTIONS && key !in YELLOW_ACTIONS))
  {
    TablesAreDisjoint(Key(actionType));
    hide Contains, Lower, Trim;
  }

  lemma TablesAreDisjoint(key: string)
    ensures key in RED_ACTIONS ==> key !in GREEN_ACTIONS && key !in YELLOW_ACTIONS
    ensures key in YELLOW_ACTIONS ==> key !in GREEN_ACTIONS
  {
  }
}
