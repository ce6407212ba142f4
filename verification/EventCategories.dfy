/** Which event types each category takes: where prefixes overlap, only one of the categories can ever apply. */
module EventCategories {
  import opened Strings
  import opened EventNames

  predicate Hit(name: string, prefixes: seq<string>) {
    exists prefix :: prefix in prefixes && prefix <= name
  }

  ghost predicate FirstHit(name: string, table: seq<(string, seq<string>)>, i: nat)
    requires i < |table|
  {
    Hit(name, table[i].1) && forall j :: 0 <= j < i ==> !Hit(name, table[j].1)
  }

  /** The category is that of the first entry one of whose prefixes fits. */
  lemma {:induction false} FirstCategoryExact(name: string, table: seq<(string, seq<string>)>)
    ensures forall i :: 0 <= i < |table| && FirstHit(name, table, i) ==> FirstCategory(name, table) == table[i].0
    ensures (forall i :: 0 <= i < |table| ==> !Hit(name, table[i].1)) ==> FirstCategory(name, table) == "other"
    decreases |table|
  {
    if table != [] {
      var rest := table[1..];
      FirstCategoryExact(name, rest);
      assert Hit(name, table[0].1) <==> exists prefix :: prefix in table[0].1 && prefix <= name;
      forall i | 0 < i < |table| && FirstHit(name, table, i)
        ensures FirstCategory(name, table) == table[i].0
      {
        assert rest[i - 1] == table[i];
        assert forall j :: 0 <= j < i - 1 ==> rest[j] == table[j + 1];
        assert FirstHit(name, rest, i - 1);
      }
    }
  }

  lemma Hit1(name: string, a: string)
    ensures Hit(name, [a]) <==> a <= name
  {
    assert a in [a];
  }

  lemma Hit3(name: string, a: string, b: string, c: string)
    ensures Hit(name, [a, b, c]) <==> a <= name || b <= name || c <= name
  {
    assert a in [a, b, c] && b in [a, b, c] && c in [a, b, c];
  }

  lemma Hit4(name: string, a: string, b: string, c: string, d: string)
    ensures Hit(name, [a, b, c, d]) <==> a <= name || b <= name || c <= name || d <= name
  {
    assert a in [a, b, c, d] && b in [a, b, c, d] && c in [a, b, c, d] && d in [a, b, c, d];
  }

  predicate Onboarding(n: string) { "onboarding_" <= n || "setup_" <= n || "clarification_" <= n }

  predicate Discovery(n: string) { "discovery_" <= n }

  predicate Planning(n: string) { "planning_" <= n || "plan_" <= n || "spec_" <= n }

  predicate Execution(n: string) { "step_" <= n || "execute_" <= n || "run_" <= n || "job_" <= n }

  predicate Quality(n: string) { "qa_" <= n || "feedback_" <= n || "quality_" <= n }

  predicate Policy(n: string) { "policy_" <= n }

  predicate CiWebhook(n: string) { "ci_" <= n || "webhook_" <= n || "github_" <= n || "gitlab_" <= n }

  lemma Hits(n: string)
    ensures Hit(n, CATEGORY_PREFIXES[0].1) <==> Onboarding(n)
    ensures Hit(n, CATEGORY_PREFIXES[1].1) <==> Discovery(n)
    ensures Hit(n, CATEGORY_PREFIXES[2].1) <==> Planning(n)
    ensures Hit(n, CATEGORY_PREFIXES[3].1) <==> Execution(n)
    ensures Hit(n, CATEGORY_PREFIXES[4].1) <==> Quality(n) || "step_qa_" <= n
    ensures Hit(n, CATEGORY_PREFIXES[5].1) <==> Policy(n)
    ensures Hit(n, CATEGORY_PREFIXES[6].1) <==> CiWebhook(n)
  {
    Hit3(n, "onboarding_", "setup_", "clarification_");
    Hit1(n, "discovery_");
    Hit3(n, "planning_", "plan_", "spec_");
    Hit4(n, "step_", "execute_", "run_", "job_");
    Hit4(n, "qa_", "step_qa_", "feedback_", "quality_");
    Hit1(n, "policy_");
    Hit4(n, "ci_", "webhook_", "github_", "gitlab_");
  }

  predicate Begins(n: string, a: char, b: char) {
    |n| > 1 && n[0] == a && n[1] == b
  }

  /** The prefixes of different categories already differ in their first two characters. */
  lemma Beginnings(n: string)
    ensures Onboarding(n) ==> Begins(n, 'o', 'n') || Begins(n, 's', 'e') || Begins(n, 'c', 'l')
    ensures Discovery(n) ==> Begins(n, 'd', 'i')
    ensures Planning(n) ==> Begins(n, 'p', 'l') || Begins(n, 's', 'p')
    ensures Execution(n) ==> Begins(n, 's', 't') || Begins(n, 'e', 'x') || Begins(n, 'r', 'u') || Begins(n, 'j', 'o')
    ensures Quality(n) ==> Begins(n, 'q', 'a') || Begins(n, 'f', 'e') || Begins(n, 'q', 'u')
    ensures Policy(n) ==> Begins(n, 'p', 'o')
    ensures CiWebhook(n) ==> Begins(n, 'c', 'i') || Begins(n, 'w', 'e') || Begins(n, 'g', 'i')
    ensures "step_qa_" <= n ==> "step_" <= n
  {
    assert "step_" == "step_qa_"[..5];
  }

  lemma PrefixCategory(n: string)
    ensures var c := FirstCategory(n, CATEGORY_PREFIXES);
      && (c == "onboarding" <==> Onboarding(n)) && (c == "discovery" <==> Discovery(n)) && (c == "planning" <==> Planning(n))
      && (c == "execution" <==> Execution(n)) && (c == "qa" <==> Quality(n)) && (c == "policy" <==> Policy(n))
      && (c == "ci_webhook" <==> CiWebhook(n))
  {
    FirstCategoryExact(n, CATEGORY_PREFIXES);
    Hits(n);
    Beginnings(n);
  }

  predicate Started(n: string) { n == "protocol_started" }

  predicate UnderWay(n: string) {
    n == "protocol_completed" || n == "protocol_failed" || n == "protocol_paused" || n == "protocol_resumed"
  }

  lemma Overrides(n: string)
    ensures n in CATEGORY_OVERRIDES <==> Started(n) || UnderWay(n)
    ensures Started(n) ==> CATEGORY_OVERRIDES[n] == "planning"
    ensures UnderWay(n) ==> CATEGORY_OVERRIDES[n] == "execution"
    ensures n in CATEGORY_OVERRIDES ==> Begins(n, 'p', 'r')
  {
  }

  /** Every category but the rest of the types, as a condition on the normal form. A name that starts with step_qa_ never counts as qa. */
  lemma CategoryExact(eventType: string)
    ensures var n, c := NormalizeEventType(eventType), InferEventCategory(eventType);
      && (c == "onboarding" <==> Onboarding(n)) && (c == "discovery" <==> Discovery(n))
      && (c == "planning" <==> Started(n) || Planning(n)) && (c == "execution" <==> UnderWay(n) || Execution(n))
      && (c == "qa" <==> Quality(n)) && (c == "policy" <==> Policy(n)) && (c == "ci_webhook" <==> CiWebhook(n))
  {
    var n := NormalizeEventType(eventType);
    Overrides(n);
    Beginnings(n);
    PrefixCategory(n);
  }

  /** There is no further category, and what none of the conditions covers is other. */
  lemma OtherExact(eventType: string)
    ensures var n, c := NormalizeEventType(eventType), InferEventCategory(eventType);
      c == "other" <==> !(Onboarding(n) || Discovery(n) || Started(n) || Planning(n) || UnderWay(n) || Execution(n) || Quality(n)
                          || Policy(n) || CiWebhook(n))
  {
    var n := NormalizeEventType(eventType);
    CategoryExact(eventType);
    Overrides(n);
    Hits(n);
    Beginnings(n);
    FirstCategoryExact(n, CATEGORY_PREFIXES);
  }
}
