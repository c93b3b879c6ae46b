/** ai_core.py: the gate that checks an analysis record against the closed
    vocabularies, the prompts sent to the language model, and the fallback
    records `analyze_call` returns when the model's reply cannot be used.
    The remote calls themselves are not modelled: their outcome is the input
    `Reply`. */
module AiCore {
  import opened Config
  import opened Values
  import opened Text

  /** The eight keys every analysis record must carry, in the order the
      validator checks them. */
  const RequiredFields: seq<string> :=
    ["caller_name", "caller_contact", "intent_category", "sentiment",
     "priority", "department", "summary_short", "summary_full"]

  /** The same eight keys as a set, for stating which keys a record has;
      `RequiredKeysAreRequiredFields` ties the two forms together. */
  const RequiredKeys: set<string> :=
    {"caller_name", "caller_contact", "intent_category", "sentiment",
     "priority", "department", "summary_short", "summary_full"}

  lemma RequiredKeysAreRequiredFields()
    ensures forall k :: k in RequiredFields <==> k in RequiredKeys
  {
  }

  /** The loop over the required fields: true when every key is present. */
  predicate AllPresent(fields: seq<string>, analysis: Record)
    ensures AllPresent(fields, analysis) <==> forall k :: k in fields ==> k in analysis
  {
    fields == [] || (fields[0] in analysis && AllPresent(fields[1..], analysis))
  }

  /** Python's `value in vocabulary`: only a string can equal a list entry. */
  predicate InVocabulary(v: Value, vocabulary: seq<string>)
    ensures InVocabulary(v, vocabulary) <==> exists k :: 0 <= k < |vocabulary| && v == Str(vocabulary[k])
  {
    v.Str? && v.s in vocabulary
  }

  /** `validate_analysis`: all eight keys present, and the four categorical
      fields drawn from their vocabularies. */
  predicate ValidateAnalysis(analysis: Record)
  {
    && AllPresent(RequiredFields, analysis)
    && InVocabulary(analysis["intent_category"], IntentCategories)
    && InVocabulary(analysis["sentiment"], Sentiments)
    && InVocabulary(analysis["priority"], Priorities)
    && InVocabulary(analysis["department"], Departments)
  }

  /** All eight keys present, and each categorical field in its
      vocabulary; the other four fields are checked for presence only. */
  predicate WellFormedAnalysis(analysis: Record)
  {
    && RequiredKeys <= analysis.Keys
    && InVocabulary(Get(analysis, "intent_category"), IntentCategories)
    && InVocabulary(Get(analysis, "sentiment"), Sentiments)
    && InVocabulary(Get(analysis, "priority"), Priorities)
    && InVocabulary(Get(analysis, "department"), Departments)
  }

  /** The validator accepts a record exactly when it is well formed. */
  lemma ValidateAnalysisCharacterized(analysis: Record)
    ensures ValidateAnalysis(analysis) <==> WellFormedAnalysis(analysis)
  {
    RequiredKeysAreRequiredFields();
    assert AllPresent(RequiredFields, analysis) <==> RequiredKeys <= analysis.Keys;
  }

  /** A missing required key makes the record invalid, whatever else it holds. */
  lemma ValidateRejectsMissingKey(analysis: Record, k: string)
    requires k in RequiredFields && k !in analysis
    ensures !ValidateAnalysis(analysis)
  {
  }

  /** Changing the value of a non-categorical field, or adding a key the
      validator does not look at, never changes the verdict: a `null`
      caller name or summary passes, and extra keys such as `error` are
      ignored. */
  lemma ValidateIgnoresFreeFields(analysis: Record, k: string, v: Value)
    requires k !in ["intent_category", "sentiment", "priority", "department"]
    requires k in analysis || k !in RequiredFields
    ensures ValidateAnalysis(analysis[k := v]) == ValidateAnalysis(analysis)
  {
    var updated := analysis[k := v];
    assert forall f :: f in RequiredFields ==> (f in updated <==> f in analysis);
  }

  /** What the remote call and `json.loads` produced: a decoded JSON object,
      a reply text that is not valid JSON (with the decoder's message), or a
      failure before any text was decoded (with the exception's message). */
  datatype Reply =
    | Parsed(result: Record)
    | ParseFailure(text: string, message: string)
    | CallFailure(message: string)

  const ParseErrorPrefix: string := "Failed to parse AI response as JSON: "
  const ParseSummaryPrefix: string := "Failed to parse AI response: "
  const CallErrorPrefix: string := "Failed to analyze call: "
  const FailedSummary: string := "Analysis failed"

  /** The fields both fallback records share: the safe default categories,
      no caller details and the "Analysis failed" synopsis. */
  predicate IsFallbackShape(r: Record)
  {
    && "caller_name" in r && r["caller_name"] == Null
    && "caller_contact" in r && r["caller_contact"] == Null
    && "intent_category" in r && r["intent_category"] == Str("other")
    && "sentiment" in r && r["sentiment"] == Str("neutral")
    && "priority" in r && r["priority"] == Str("medium")
    && "department" in r && r["department"] == Str("General")
    && "summary_short" in r && r["summary_short"] == Str(FailedSummary)
  }

  /** Any record of the fallback shape that also has a long summary passes
      the validator: "other", "neutral", "medium" and "General" are all in
      their vocabularies. */
  lemma FallbackShapeValidates(r: Record)
    requires IsFallbackShape(r) && "summary_full" in r
    ensures ValidateAnalysis(r)
  {
    assert forall k :: k in RequiredFields ==> k in r;
  }

  function FallbackBase(): (r: Record)
    ensures IsFallbackShape(r)
    ensures r.Keys == {"caller_name", "caller_contact", "intent_category", "sentiment", "priority", "department", "summary_short"}
  {
    map["caller_name" := Null, "caller_contact" := Null,
        "intent_category" := Str("other"), "sentiment" := Str("neutral"),
        "priority" := Str("medium"), "department" := Str("General"),
        "summary_short" := Str(FailedSummary)]
  }

  /** The record returned when the reply text is not valid JSON. It passes
      the validator, keeps the raw reply, and describes the failure. */
  function ParseFallback(text: string, message: string): (r: Record)
    ensures ValidateAnalysis(r) && IsFallbackShape(r)
    ensures r.Keys == RequiredKeys + {"error", "raw_response"}
    ensures r["error"] == Str(ParseErrorPrefix + message)
    ensures r["raw_response"] == Str(text)
    ensures r["summary_full"] == Str(ParseSummaryPrefix + text)
  {
    var r := FallbackBase()["error" := Str(ParseErrorPrefix + message)]
                           ["raw_response" := Str(text)]
                           ["summary_full" := Str(ParseSummaryPrefix + text)];
    FallbackShapeValidates(r);
    r
  }

  /** The record returned on any other failure. It passes the validator and
      has no `raw_response`; its error and long summary carry the message. */
  function CallFallback(message: string): (r: Record)
    ensures ValidateAnalysis(r) && IsFallbackShape(r)
    ensures r.Keys == RequiredKeys + {"error"}
    ensures "raw_response" !in r
    ensures r["error"] == Str(CallErrorPrefix + message)
    ensures r["summary_full"] == Str(CallErrorPrefix + message)
  {
    var base := FallbackBase();
    var r := base["error" := Str(CallErrorPrefix + message)]["summary_full" := Str(CallErrorPrefix + message)];
    FallbackShapeValidates(r);
    r
  }

  /** `analyze_call` once the remote reply is known. A decoded object is
      returned as it is, without validation; either failure is masked by a
      fallback record that does validate and carries an `error` key. */
  function AnalyzeCall(reply: Reply): (r: Record)
    ensures reply.Parsed? ==> r == reply.result
    ensures !reply.Parsed? ==> ValidateAnalysis(r) && IsFallbackShape(r) && "error" in r
    ensures !reply.Parsed? ==> r.Keys <= RequiredKeys + {"error", "raw_response"}
    ensures !reply.Parsed? ==> "summary_full" in r && r["summary_full"].Str?
    ensures reply.ParseFailure? ==> "raw_response" in r && r["raw_response"] == Str(reply.text)
    ensures reply.CallFailure? ==> "raw_response" !in r
  {
    match reply
    case Parsed(result) => result
    case ParseFailure(text, message) => ParseFallback(text, message)
    case CallFailure(message) => CallFallback(message)
  }

  /** A decoded reply with an out-of-vocabulary category comes back from
      `analyze_call` unchanged and fails the validator. */
  lemma ParsedReplyIsNotValidated()
    ensures var m := FallbackBase()["summary_full" := Str("")]["intent_category" := Str("refund")];
      !ValidateAnalysis(AnalyzeCall(Parsed(m))) && AnalyzeCall(Parsed(m)) == m
  {
  }

  // Prompt construction

  const UserPromptPrefix: string := "Please analyze this call transcript:\n\n"

  /** The user prompt: a fixed preamble followed by the transcript. */
  function UserPrompt(transcript: string): (p: string)
    ensures StartsWith(p, UserPromptPrefix)
    ensures p[|UserPromptPrefix|..] == transcript
  {
    UserPromptPrefix + transcript
  }

  /** Different transcripts give different user prompts. */
  lemma UserPromptInjective(t1: string, t2: string)
    requires UserPrompt(t1) == UserPrompt(t2)
    ensures t1 == t2
  {
    assert t1 == UserPrompt(t1)[|UserPromptPrefix|..];
  }

  const SystemPromptHead: string :=
    "\n    You are an AI assistant that analyzes customer service calls and extracts structured information.\n"
    + "    \n"
    + "    Please analyze the following call transcript and respond ONLY with a JSON object that follows this exact schema:\n"
    + "    {\n"
    + "        \"caller_name\": \"string or null\",\n"
    + "        \"caller_contact\": \"string or null\",\n"

  const SystemPromptTail: string :=
    "        \"summary_short\": \"1-2 line summary\",\n"
    + "        \"summary_full\": \"3-6 line detailed summary\"\n"
    + "    }\n"
    + "    \n"
    + "    Guidelines:\n"
    + "    - Extract caller information (name, contact) only if explicitly mentioned in the transcript\n"
    + "    - For contact information, prioritize email over phone number if both are available\n"
    + "    - Choose the most appropriate intent category from the provided list\n"
    + "    - Assess sentiment based on the tone and content of the call\n"
    + "    - Assign priority based on urgency and importance of the issue\n"
    + "    - Route to the most appropriate department\n"
    + "    - Provide a concise summary and a more detailed summary\n"
    + "    - Respond ONLY with valid JSON, no additional text or markdown\n"
    + "    "

  /** One schema line of the system prompt naming a categorical field and
      its vocabulary joined by ", ". */
  function SchemaLine(field: string, vocabulary: seq<string>): string
  {
    "        \"" + field + "\": \"one of: " + Join(", ", vocabulary) + "\",\n"
  }

  /** The system prompt around its four schema lines. */
  function PromptAround(head: string, tail: string): string
  {
    head
    + SchemaLine("intent_category", IntentCategories)
    + SchemaLine("sentiment", Sentiments)
    + SchemaLine("priority", Priorities)
    + SchemaLine("department", Departments)
    + tail
  }

  /** The system prompt sent with every transcript. */
  function SystemPrompt(): string
  {
    PromptAround(SystemPromptHead, SystemPromptTail)
  }

  lemma {:induction false} ContainsInContext(before: string, s: string, after: string, sub: string)
    requires Contains(s, sub)
    ensures Contains(before + s + after, sub)
  {
    var i := ContainsWitness(s, sub);
    var whole := before + s + after;
    assert whole[|before| + i..|before| + i + |sub|] == s[i..i + |sub|];
    ContainsAt(whole, sub, |before| + i);
  }

  lemma SchemaLineListsVocabulary(field: string, vocabulary: seq<string>, v: string)
    requires v in vocabulary
    ensures Contains(SchemaLine(field, vocabulary), "one of: " + Join(", ", vocabulary))
    ensures Contains(SchemaLine(field, vocabulary), v)
  {
    var pre := "        \"" + field + "\": \"";
    var post := "\",\n";
    assert SchemaLine(field, vocabulary) == pre + ("one of: " + Join(", ", vocabulary)) + post;
    LabelledListInContext(pre, "one of: ", vocabulary, post, v);
  }

  /** A labelled, comma-joined list inside a line: the line contains the
      whole labelled list and each of its items. */
  lemma LabelledListInContext(pre: string, tag: string, vocabulary: seq<string>, post: string, v: string)
    requires v in vocabulary
    ensures Contains(pre + (tag + Join(", ", vocabulary)) + post, tag + Join(", ", vocabulary))
    ensures Contains(pre + (tag + Join(", ", vocabulary)) + post, v)
  {
    var list := Join(", ", vocabulary);
    var k :| 0 <= k < |vocabulary| && vocabulary[k] == v;
    StartsWithContains(tag + list);
    ContainsInContext(pre, tag + list, post, tag + list);
    JoinContainsPart(", ", vocabulary, k);
    ContainsInContext(pre + tag, list, post, v);
    assert pre + tag + list + post == pre + (tag + list) + post;
  }

  lemma StartsWithContains(s: string)
    ensures Contains(s, s)
  {
    assert StartsWith(s, s);
  }

  lemma ContainsInOneOfFour(head: string, a: string, b: string, c: string, d: string, tail: string, v: string)
    requires Contains(a, v) || Contains(b, v) || Contains(c, v) || Contains(d, v)
    ensures Contains(head + a + b + c + d + tail, v)
  {
    var whole := head + a + b + c + d + tail;
    if Contains(a, v) {
      ContainsInContext(head, a, b + c + d + tail, v);
      assert head + a + (b + c + d + tail) == whole;
    } else if Contains(b, v) {
      ContainsInContext(head + a, b, c + d + tail, v);
      assert head + a + b + (c + d + tail) == whole;
    } else if Contains(c, v) {
      ContainsInContext(head + a + b, c, d + tail, v);
      assert head + a + b + c + (d + tail) == whole;
    } else {
      ContainsInContext(head + a + b + c, d, tail, v);
    }
  }

  lemma PromptAroundListsVocabularies(head: string, tail: string, v: string)
    requires v in IntentCategories || v in Sentiments || v in Priorities || v in Departments
    ensures Contains(PromptAround(head, tail), v)
  {
    if v in IntentCategories {
      SchemaLineListsVocabulary("intent_category", IntentCategories, v);
    } else if v in Sentiments {
      SchemaLineListsVocabulary("sentiment", Sentiments, v);
    } else if v in Priorities {
      SchemaLineListsVocabulary("priority", Priorities, v);
    } else {
      SchemaLineListsVocabulary("department", Departments, v);
    }
    ContainsInOneOfFour(head, SchemaLine("intent_category", IntentCategories), SchemaLine("sentiment", Sentiments),
      SchemaLine("priority", Priorities), SchemaLine("department", Departments), tail, v);
  }

  /** Every value of every vocabulary is spelled out in the system prompt. */
  lemma SystemPromptListsVocabularies(v: string)
    requires v in IntentCategories || v in Sentiments || v in Priorities || v in Departments
    ensures Contains(SystemPrompt(), v)
  {
    PromptAroundListsVocabularies(SystemPromptHead, SystemPromptTail, v);
  }
}
