/**
 Event-type names: the two regex passes that turn CamelCase into snake_case, the printer that goes back,
 and the category lookup. Letters are the ASCII letters; every other character is its own lower and upper case.
 */
module EventNames {
  import opened Strings

  // ----- the regex passes, as a leftmost-greedy matcher runs them

  /** How far a run of upper-case letters starting at i extends. */
  function RunEnd(s: string, i: nat): (j: nat)
    requires i <= |s|
    ensures i <= j <= |s|
    ensures forall k :: i <= k < j ==> IsUpper(s[k])
    ensures j < |s| ==> !IsUpper(s[j])
    decreases |s| - i
  {
    if i < |s| && IsUpper(s[i]) then RunEnd(s, i + 1) else i
  }

  /**
   The first pattern at i, a run of upper-case letters followed by an upper-case and a lower-case one: the run takes
   s[i..k] for the largest k it can, giving characters back one at a time from its end; 0 when no k works.
   */
  function Backtrack(s: string, i: nat, k: nat): nat
    requires i <= k <= |s|
    decreases k
  {
    if k == i then 0
    else if k + 1 < |s| && IsUpper(s[k]) && IsLower(s[k + 1]) then k
    else Backtrack(s, i, k - 1)
  }

  /** The first substitution from position i on: every match is split before its last two characters. */
  function AcronymPass(s: string, i: nat): string
    requires i <= |s|
    decreases |s| - i
  {
    if i == |s| then ""
    else
      var k := Backtrack(s, i, RunEnd(s, i));
      if i < k && k + 2 <= |s| then s[i..k] + "_" + s[k..k + 2] + AcronymPass(s, k + 2)
      else [s[i]] + AcronymPass(s, i + 1)
  }

  /** The second substitution from position i on: a lower-case letter or digit is split from an upper-case letter after it. */
  function WordPass(s: string, i: nat): string
    requires i <= |s|
    decreases |s| - i
  {
    if i == |s| then ""
    else if i + 1 < |s| && IsLowerOrDigit(s[i]) && IsUpper(s[i + 1]) then
      [s[i]] + "_" + [s[i + 1]] + WordPass(s, i + 2)
    else [s[i]] + WordPass(s, i + 1)
  }

  /** Pairs of underscores become single ones, from the left. */
  function SquashUnderscores(s: string): string {
    if |s| < 2 then s
    else if s[0] == '_' && s[1] == '_' then "_" + SquashUnderscores(s[2..])
    else [s[0]] + SquashUnderscores(s[1..])
  }

  function CamelToSnake(name: string): string {
    if name == "" then name
    else Lower(SquashUnderscores(WordPass(AcronymPass(name, 0), 0)))
  }

  // ----- the printer

  const ACRONYMS: set<string> := {"qa", "ci", "api", "sse", "id"}

  /** The parts between underscores. */
  function Split(s: string): (parts: seq<string>)
    ensures |parts| > 0
    ensures forall p :: p in parts ==> '_' !in p
    ensures Join(parts) == s
  {
    if s == "" then [""]
    else
      var rest := Split(s[1..]);
      if s[0] == '_' then [""] + rest else [[s[0]] + rest[0]] + rest[1..]
  }

  function Join(parts: seq<string>): string
    requires |parts| > 0
  {
    parts[0] + Suffixes(parts[1..])
  }

  /** Each part with an underscore in front of it. */
  function Suffixes(parts: seq<string>): string {
    if parts == [] then "" else "_" + parts[0] + Suffixes(parts[1..])
  }

  function Capitalize(part: string): string {
    if part == "" then "" else [UpperChar(part[0])] + Lower(part[1..])
  }

  function Render(part: string): string {
    if part in ACRONYMS then Upper(part) else Capitalize(part)
  }

  /** The non-empty parts, rendered and put together. */
  function Camel(parts: seq<string>): string {
    if parts == [] then "" else (if parts[0] == "" then "" else Render(parts[0])) + Camel(parts[1..])
  }

  function SnakeToCamel(value: string): string {
    Camel(Split(value))
  }

  // ----- normal forms, variants, categories

  function NormalizeEventType(eventType: string): string {
    if eventType == "" then eventType
    else if '_' in eventType then Lower(eventType)
    else CamelToSnake(eventType)
  }

  function EventTypeVariants(eventType: string): set<string> {
    var normalized := NormalizeEventType(eventType);
    var variants := {eventType, normalized} + (if normalized != "" then {SnakeToCamel(normalized)} else {});
    variants - {""}
  }

  const CATEGORY_OVERRIDES: map<string, string> := map[
    "protocol_started" := "planning",
    "protocol_completed" := "execution",
    "protocol_failed" := "execution",
    "protocol_paused" := "execution",
    "protocol_resumed" := "execution"]

  const CATEGORY_PREFIXES: seq<(string, seq<string>)> := [
    ("onboarding", ["onboarding_", "setup_", "clarification_"]),
    ("discovery", ["discovery_"]),
    ("planning", ["planning_", "plan_", "spec_"]),
    ("execution", ["step_", "execute_", "run_", "job_"]),
    ("qa", ["qa_", "step_qa_", "feedback_", "quality_"]),
    ("policy", ["policy_"]),
    ("ci_webhook", ["ci_", "webhook_", "github_", "gitlab_"])]

  function FirstCategory(name: string, table: seq<(string, seq<string>)>): string {
    if table == [] then "other"
    else if exists prefix :: prefix in table[0].1 && prefix <= name then table[0].0
    else FirstCategory(name, table[1..])
  }

  function InferEventCategory(eventType: string): string {
    var normalized := NormalizeEventType(eventType);
    if normalized == "" then "other"
    else if normalized in CATEGORY_OVERRIDES then CATEGORY_OVERRIDES[normalized]
    else FirstCategory(normalized, CATEGORY_PREFIXES)
  }
}
