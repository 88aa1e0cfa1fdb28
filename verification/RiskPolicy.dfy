/** The policy by the names of action types. */
module RiskPolicy {
  import opened Risk
  import opened Text

  // ----- how a name is looked up -----

  const CAPITALS := "ABCDEFGHIJKLMNOPQRSTUVWXYZ"
  const SMALL := "abcdefghijklmnopqrstuvwxyz"

  lemma LowerByLetters(s: string, i: nat)
    requires i < |s|
    ensures |Lower(s)| == |s|
    ensures s[i] !in CAPITALS ==> Lower(s)[i] == s[i]
    ensures forall k :: 0 <= k < 26 && s[i] == CAPITALS[k] ==> Lower(s)[i] == SMALL[k]
  {
    assert s[i] in CAPITALS <==> 'A' <= s[i] <= 'Z' by { LetterIsCapital(s[i]); }
    assert forall k :: 0 <= k < 26 ==> CAPITALS[k] as int == 65 + k && SMALL[k] as int == 97 + k;
  }

  lemma LetterIsCapital(c: char)
    ensures c in CAPITALS <==> 'A' <= c <= 'Z'
  {
    assert forall k :: 0 <= k < 26 ==> CAPITALS[k] as int == 65 + k;
    if 'A' <= c <= 'Z' {
      assert CAPITALS[c as int - 65] == c;
    }
  }

  /** Blanks around a name and capitals in it make no difference. */
  lemma NameInAnyCase(before: string, name: string, after: string)
    requires Visible(before) == "" && Visible(after) == "" && IsTrimmed(name) && name != ""
    ensures Key(before + name + after) == Lower(name)
  {
    TrimBetween(before, name, after);
  }

  lemma TrimBetween(before: string, name: string, after: string)
    requires Visible(before) == "" && Visible(after) == "" && IsTrimmed(name) && name != ""
    ensures Trim(before + name + after) == name
  {
    TrimLeftConcat(before, name + after);
    assert before + name + after == before + (name + after);
    assert TrimLeft(name + after) == name + after;
    TrimRightBlank(name, after);
  }

  // ----- hints -----

  ghost predicate Has(key: string, hint: string) {
    exists a, b :: key == a + hint + b
  }

  lemma {:induction false} ContainedHasPlace(key: string, hint: string) returns (a: string, b: string)
    requires Contains(key, hint)
    ensures key == a + hint + b
  {
    if hint <= key {
      a, b := "", key[|hint|..];
    } else {
      a, b := ContainedHasPlace(key[1..], hint);
      a := [key[0]] + a;
    }
  }

  lemma {:induction false} PlaceIsContained(a: string, hint: string, b: string)
    ensures Contains(a + hint + b, hint)
  {
    var key := a + hint + b;
    if a == "" {
      assert key == hint + b;
    } else {
      assert key[1..] == a[1..] + hint + b;
      PlaceIsContained(a[1..], hint, b);
    }
  }

  /** A hint is found wherever it stands. */
  lemma ContainsByPlace(key: string, hint: string)
    ensures Contains(key, hint) <==> Has(key, hint)
  {
    if Contains(key, hint) {
      var a, b := ContainedHasPlace(key, hint);
    }
    if Has(key, hint) {
      var a, b :| key == a + hint + b;
      PlaceIsContained(a, hint, b);
    }
  }

  /** The red hints: one of six words anywhere in the name; payment is one of them because pay is. */
  lemma HintsByWord(key: string)
    ensures HasRedHint(key) <==>
      || Has(key, "delete") || Has(key, "publish") || Has(key, "pay") || Has(key, "charge") || Has(key, "revoke")
      || Has(key, "send_to_client")
  {
    forall h ensures Contains(key, h) <==> Has(key, h) {
      ContainsByPlace(key, h);
    }
    hide Contains;
    assert forall h :: h in RED_HINTS <==>
      h in {"delete", "publish", "payment", "pay", "charge", "revoke", "send_to_client"};
    if Has(key, "payment") {
      var a, b :| key == a + "payment" + b;
      assert "payment" == "pay" + "ment";
      assert key == a + "pay" + ("ment" + b);
    }
  }

  // ----- names -----

  /** The types that run unattended, those that need two approvals by name, and those that need only one although they
      have a red hint. */
  lemma LevelsByName(actionType: string)
    ensures var key, n := Key(actionType), ApprovalsRequired(Classify(actionType));
      && (n == 0 <==> key in {
           "task.create", "task.update_status", "memory.add", "decision.record", "project.dossier_read", "kpi.add",
           "person.add", "crm.create_contact", "crm.add_interaction", "crm.create_deal", "notification.create",
           "content.draft_create", "content.draft_update", "seo.audit", "income.create", "financial.create_income",
           "income.update", "financial.update_income", "income.mark_paid", "financial.mark_paid"})
      && (key in {
           "wordpress.publish", "wordpress.delete_post", "project.delete", "message.send_to_client",
           "ads.change_budget", "payment.execute", "integration.revoke", "social.publish", "crm.delete_contact",
           "crm.delete_deal", "content.publish"}
          ==> n == 2)
      && (key in {
           "task.delete", "content.publish_draft", "crm.delete_interaction", "content.delete_draft", "income.delete",
           "financial.delete_income"}
          ==> n == 1)
  {
    hide Key, HasRedHint;
    TablesAreDisjoint(Key(actionType));
  }
}
