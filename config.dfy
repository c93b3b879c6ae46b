/** The closed vocabularies of config.py. The analysis validator, the prompt
    builder and the dashboard all read these lists. */
module Config {

  const IntentCategories: seq<string> :=
    ["complaint", "support_request", "appointment", "billing_issue", "hr_request", "general_query", "other"]

  const Priorities: seq<string> := ["low", "medium", "high", "critical"]

  const Sentiments: seq<string> := ["positive", "neutral", "negative"]

  const Departments: seq<string> := ["Support", "Billing", "HR", "Sales", "Administration", "General"]
}
