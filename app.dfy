/** app.py: the logic behind the dashboard (filtering, pagination, the
    priority and badge classes) and the process-audio pipeline that turns an
    upload into a stored ticket. Widgets and HTML are not modelled. */
module App {
  import opened Wrappers
  import opened Values
  import opened Text
  import opened Config
  import AiCore
  import Db

  // Filtering the ticket list

  /** `str(t.get("caller_name", ""))`: the key is always present in a row, so
      a NULL caller name is searched as the text "None". */
  function CallerNameText(name: Option<string>): string
  {
    if name.None? then "None" else name.value
  }

  /** The space-joined text the search looks in. */
  function SearchText(t: Db.Ticket): string
  {
    Join(" ", [CallerNameText(t.callerName), t.intentCategory, t.department, t.transcript])
  }

  /** `(query or "").strip().lower()`. */
  function NormalizeQuery(query: string): string
  {
    Lower(Strip(query))
  }

  /** Whether a ticket survives the three filters, `q` being the normalised
      query. An empty or "All" department or priority filters nothing; the
      department must match exactly, the priority ignoring case; a non-empty
      query must occur in the lower-cased search text. */
  predicate Keeps(t: Db.Ticket, dept: string, priority: string, q: string)
  {
    DeptMatches(t, dept) && PriorityMatches(t, priority) && QueryMatches(t, q)
  }

  predicate DeptMatches(t: Db.Ticket, dept: string)
  {
    dept == "" || dept == "All" || t.department == dept
  }

  predicate PriorityMatches(t: Db.Ticket, priority: string)
  {
    priority == "" || priority == "All" || Lower(t.priority) == Lower(priority)
  }

  predicate QueryMatches(t: Db.Ticket, q: string)
  {
    q == "" || Contains(Lower(SearchText(t)), q)
  }

  /** The tickets that survive, in their original order. */
  function Filtered(tickets: seq<Db.Ticket>, dept: string, priority: string, q: string): seq<Db.Ticket>
  {
    if tickets == [] then []
    else
      var last := tickets[|tickets| - 1];
      Filtered(tickets[..|tickets| - 1], dept, priority, q) + (if Keeps(last, dept, priority, q) then [last] else [])
  }

  /** `apply_filters`. */
  method ApplyFilters(tickets: seq<Db.Ticket>, dept: string, priority: string, query: string)
    returns (out: seq<Db.Ticket>)
    ensures out == Filtered(tickets, dept, priority, NormalizeQuery(query))
  {
    out := [];
    var q := NormalizeQuery(query);
    for i := 0 to |tickets|
      invariant out == Filtered(tickets[..i], dept, priority, q)
    {
      var t := tickets[i];
      FilteredAppend(tickets[..i], t, dept, priority, q);
      assert tickets[..i + 1] == tickets[..i] + [t];
      if dept != "" && dept != "All" && t.department != dept {
        continue;
      }
      if priority != "" && priority != "All" && Lower(t.priority) != Lower(priority) {
        continue;
      }
      if q != "" {
        var combined := Lower(SearchText(t));
        if !Contains(combined, q) {
          continue;
        }
      }
      out := out + [t];
    }
    assert tickets[..|tickets|] == tickets;
  }

  /** Filtering one more ticket adds it at the end exactly when it passes. */
  lemma FilteredAppend(tickets: seq<Db.Ticket>, t: Db.Ticket, dept: string, priority: string, q: string)
    ensures Filtered(tickets + [t], dept, priority, q) ==
      Filtered(tickets, dept, priority, q) + (if Keeps(t, dept, priority, q) then [t] else [])
  {
    assert (tickets + [t])[..|tickets|] == tickets;
  }

  /** `a` is `b` with some elements left out, the rest in their order. */
  predicate IsSubsequence<T(==)>(a: seq<T>, b: seq<T>)
  {
    if a == [] then true
    else if b == [] then false
    else if a[|a| - 1] == b[|b| - 1] then IsSubsequence(a[..|a| - 1], b[..|b| - 1])
    else IsSubsequence(a, b[..|b| - 1])
  }

  /** The filtered list is a subsequence of the input. */
  lemma {:induction false} FilteredIsSubsequence(tickets: seq<Db.Ticket>, dept: string, priority: string, q: string)
    ensures IsSubsequence(Filtered(tickets, dept, priority, q), tickets)
  {
    if tickets != [] {
      var init := tickets[..|tickets| - 1];
      var last := tickets[|tickets| - 1];
      FilteredIsSubsequence(init, dept, priority, q);
      var f := Filtered(tickets, dept, priority, q);
      if Keeps(last, dept, priority, q) {
        assert f[..|f| - 1] == Filtered(init, dept, priority, q);
      } else {
        assert f == Filtered(init, dept, priority, q);
        SubsequenceOfInit(Filtered(init, dept, priority, q), tickets);
      }
    }
  }

  lemma {:induction false} SubsequenceOfInit<T>(a: seq<T>, b: seq<T>)
    requires b != [] && IsSubsequence(a, b[..|b| - 1])
    ensures IsSubsequence(a, b)
  {
    if a != [] && a[|a| - 1] == b[|b| - 1] {
      var b' := b[..|b| - 1];
      SubsequenceDropLast(a, b');
    }
  }

  lemma {:induction false} SubsequenceDropLast<T>(a: seq<T>, b: seq<T>)
    requires a != [] && IsSubsequence(a, b)
    ensures IsSubsequence(a[..|a| - 1], b)
  {
    if b != [] {
      if a[|a| - 1] == b[|b| - 1] {
        SubsequenceOfInit(a[..|a| - 1], b);
      } else {
        SubsequenceDropLast(a, b[..|b| - 1]);
        SubsequenceOfInit(a[..|a| - 1], b);
      }
    }
  }

  /** A ticket is in the filtered list exactly when it is in the input and
      passes the filters. */
  lemma {:induction false} FilteredMembership(tickets: seq<Db.Ticket>, dept: string, priority: string, q: string, t: Db.Ticket)
    ensures t in Filtered(tickets, dept, priority, q) <==> t in tickets && Keeps(t, dept, priority, q)
  {
    if tickets != [] {
      var init := tickets[..|tickets| - 1];
      FilteredMembership(init, dept, priority, q, t);
      assert tickets == init + [tickets[|tickets| - 1]];
    }
  }

  /** With no department, no priority and a blank query, nothing is dropped. */
  lemma {:induction false} NoFiltersKeepsAll(tickets: seq<Db.Ticket>, dept: string, priority: string, query: string)
    requires dept == "" || dept == "All"
    requires priority == "" || priority == "All"
    requires Strip(query) == ""
    ensures Filtered(tickets, dept, priority, NormalizeQuery(query)) == tickets
  {
    if tickets != [] {
      NoFiltersKeepsAll(tickets[..|tickets| - 1], dept, priority, query);
      assert tickets == tickets[..|tickets| - 1] + [tickets[|tickets| - 1]];
    }
  }

  // Pagination of the all-tickets page

  const TicketsPerPage: nat := 10

  /** `total_pages`: enough pages of ten for every ticket, and one page when
      there is none. */
  function TotalPages(total: nat): (n: nat)
    ensures n >= 1
    ensures total > 0 ==> (n - 1) * TicketsPerPage < total <= n * TicketsPerPage
    ensures total == 0 ==> n == 1
  {
    if total > 0 then (total + TicketsPerPage - 1) / TicketsPerPage else 1
  }

  /** Python's `s[start:end]` for non-negative bounds: both are clipped to
      the length. */
  function Slice<T>(s: seq<T>, start: nat, end: nat): (r: seq<T>)
    ensures |r| == if start < end && start < |s| then (if end < |s| then end else |s|) - start else 0
    ensures forall k :: 0 <= k < |r| ==> start + k < |s| && r[k] == s[start + k]
  {
    var lo := if start < |s| then start else |s|;
    var hi := if end < |s| then end else |s|;
    if lo <= hi then s[lo..hi] else []
  }

  /** The tickets shown on page `page` (counted from 1):
      `filtered[(page - 1) * 10 : page * 10]`. */
  function Page<T>(filtered: seq<T>, page: nat): (r: seq<T>)
    requires page >= 1
    ensures |r| <= TicketsPerPage
    ensures var start := (page - 1) * TicketsPerPage;
      |r| == if |filtered| <= start then 0
             else if |filtered| - start < TicketsPerPage then |filtered| - start
             else TicketsPerPage
    ensures forall k :: 0 <= k < |r| ==> (page - 1) * TicketsPerPage + k < |filtered| && r[k] == filtered[(page - 1) * TicketsPerPage + k]
  {
    Slice(filtered, (page - 1) * TicketsPerPage, (page - 1) * TicketsPerPage + TicketsPerPage)
  }

  /** A page has tickets exactly when it is one of the `total_pages` pages of
      a non-empty list; every such page but the last is full. */
  lemma PageNonEmptyIff<T>(filtered: seq<T>, page: nat)
    requires page >= 1
    ensures Page(filtered, page) != [] <==> |filtered| > 0 && page <= TotalPages(|filtered|)
    ensures page < TotalPages(|filtered|) ==> |Page(filtered, page)| == TicketsPerPage
  {
  }

  /** Pages 1 to `n` laid end to end. */
  function Pages<T>(filtered: seq<T>, n: nat): seq<T>
  {
    if n == 0 then [] else Pages(filtered, n - 1) + Page(filtered, n)
  }

  /** Reading pages 1 to `total_pages` in turn shows every filtered ticket
      once, in order. */
  lemma PagesCoverAll<T>(filtered: seq<T>)
    ensures Pages(filtered, TotalPages(|filtered|)) == filtered
  {
    var n := TotalPages(|filtered|);
    PagesPrefix(filtered, n);
    assert n * TicketsPerPage >= |filtered|;
    assert filtered[..|filtered|] == filtered;
  }

  lemma {:induction false} PagesPrefix<T>(filtered: seq<T>, n: nat)
    ensures Pages(filtered, n) == filtered[..if n * TicketsPerPage < |filtered| then n * TicketsPerPage else |filtered|]
  {
    if n > 0 {
      assert TicketsPerPage == 10;
      PagesPrefix(filtered, n - 1);
      var lo := if (n - 1) * TicketsPerPage < |filtered| then (n - 1) * TicketsPerPage else |filtered|;
      var hi := if n * TicketsPerPage < |filtered| then n * TicketsPerPage else |filtered|;
      assert Page(filtered, n) == filtered[lo..hi];
      assert filtered[..lo] + filtered[lo..hi] == filtered[..hi];
    }
  }

  /** The filter values a page position belongs to. */
  datatype Filters = Filters(dept: string, priority: string, query: string)

  /** The page counter kept in the session (`st.session_state.page`) and
      the filters it was computed for (`last_filters`). */
  class Pager {
    var page: nat
    var lastFilters: Option<Filters>

    ghost predicate Valid()
      reads this
    {
      page >= 1
    }

    /** The first visit: page 1, no filters seen yet. */
    constructor ()
      ensures Valid() && page == 1 && lastFilters == None
    {
      page := 1;
      lastFilters := None;
    }

    /** A change of any filter sends the view back to page 1. */
    method SyncFilters(current: Filters)
      requires Valid()
      modifies this
      ensures Valid() && lastFilters == Some(current)
      ensures old(lastFilters) != Some(current) ==> page == 1
      ensures old(lastFilters) == Some(current) ==> page == old(page)
    {
      if lastFilters != Some(current) {
        page := 1;
        lastFilters := Some(current);
      }
    }

    /** "Previous": one page back, never before page 1. */
    method Previous()
      requires Valid()
      modifies this
      ensures Valid() && lastFilters == old(lastFilters)
      ensures page == if old(page) > 1 then old(page) - 1 else old(page)
    {
      if page > 1 {
        page := page - 1;
      }
    }

    /** "Next": one page on, never past the last page. */
    method Next(totalPages: nat)
      requires Valid()
      modifies this
      ensures Valid() && lastFilters == old(lastFilters)
      ensures page == if old(page) < totalPages then old(page) + 1 else old(page)
      ensures old(page) <= totalPages ==> page <= totalPages
    {
      if page < totalPages {
        page := page + 1;
      }
    }

    /** "Back to Main Page" resets the counter. */
    method BackToMain()
      requires Valid()
      modifies this
      ensures Valid() && page == 1 && lastFilters == old(lastFilters)
    {
      page := 1;
    }
  }

  // Display classes

  /** The CSS class of a row's priority pill: `(priority or 'N/A').lower()`
      mapped to high, medium or critical, and to low for anything else. */
  function PriorityClass(priority: string): (c: string)
    ensures c in Priorities
  {
    var p := Lower(if priority == "" then "N/A" else priority);
    if p == "high" then "high"
    else if p == "medium" then "medium"
    else if p == "critical" then "critical"
    else "low"
  }

  /** The class is the lower-cased priority when that is a known priority,
      and "low" otherwise, so every vocabulary value is its own class. */
  lemma PriorityClassCharacterized(priority: string)
    ensures PriorityClass(priority) == if Lower(priority) in Priorities then Lower(priority) else "low"
  {
    if priority == "" {
      assert Lower("N/A") == "n/a";
    } else {
      assert Lower(priority) != "";
    }
  }

  /** Case does not matter: a priority and its lower-cased form get the same
      class. */
  lemma PriorityClassIgnoresCase(priority: string)
    ensures PriorityClass(priority) == PriorityClass(Lower(priority))
  {
    PriorityClassCharacterized(priority);
    PriorityClassCharacterized(Lower(priority));
    LowerIdempotent(priority);
  }

  /** `get_badge_class(category, value)`. */
  function BadgeClass(category: string, value: Value): string
  {
    if category == "intent" then "badge-intent"
    else if category == "sentiment" then
      if value == Str("positive") then "badge-sentiment-positive"
      else if value == Str("neutral") then "badge-sentiment-neutral"
      else if value == Str("negative") then "badge-sentiment-negative"
      else ""
    else if category == "priority" then
      if value == Str("high") then "badge-priority-high"
      else if value == Str("medium") then "badge-priority-medium"
      else if value == Str("low") then "badge-priority-low"
      else if value == Str("critical") then "badge-priority-critical"
      else ""
    else if category == "department" then "badge-department"
    else ""
  }

  /** A sentiment badge names the value when it is a known sentiment and is
      empty otherwise. */
  lemma SentimentBadge(value: Value)
    ensures BadgeClass("sentiment", value) ==
      if AiCore.InVocabulary(value, Sentiments) then "badge-sentiment-" + value.s else ""
  {
  }

  /** A priority badge names the value when it is a known priority and is
      empty otherwise. */
  lemma PriorityBadge(value: Value)
    ensures BadgeClass("priority", value) ==
      if AiCore.InVocabulary(value, Priorities) then "badge-priority-" + value.s else ""
  {
  }

  /** Intent and department badges do not depend on the value, and an
      unknown category gets no class. */
  lemma FixedBadges(category: string, value: Value)
    ensures category == "intent" ==> BadgeClass(category, value) == "badge-intent"
    ensures category == "department" ==> BadgeClass(category, value) == "badge-department"
    ensures category !in ["intent", "sentiment", "priority", "department"] ==> BadgeClass(category, value) == ""
  {
  }

  // The process-audio pipeline

  /** What the transcription service produced for the saved file. */
  datatype Transcription = Transcribed(text: string) | TranscriptionFailed(message: string)

  /** Why a pipeline run ended in the error message instead of a ticket. */
  datatype PipelineError =
    | SaveFailed
    | TranscribeFailed(message: string)
    | StoreFailed(error: Db.StoreError)

  /** What the run leaves for display: the new ticket's id with the
      transcript and analysis shown beside it, or the error. */
  datatype Outcome =
    | Created(ticketId: nat, transcript: string, analysis: Record)
    | Failed(error: PipelineError)

  /** `{"transcript": transcript, **analysis}`: the analysis keys win, even
      over "transcript". */
  function MergedTicketData(transcript: string, analysis: Record): (d: Record)
    ensures d.Keys == analysis.Keys + {"transcript"}
    ensures forall k :: k in analysis ==> d[k] == analysis[k]
    ensures "transcript" !in analysis ==> d["transcript"] == Str(transcript)
  {
    map["transcript" := Str(transcript)] + analysis
  }

  /** One press of "Process Audio". Saving, transcription and the remote
      analysis are given as their outcomes, and `now` is the clock reading
      `insert_ticket` would take. The analysis is inserted without calling
      `validate_analysis`. Whenever the temporary file was saved it is
      removed, on the success path and on every error path. */
  method ProcessAudio(store: Db.TicketStore, saved: bool, transcription: Transcription,
                      reply: AiCore.Reply, now: string)
    returns (outcome: Outcome, tempRemoved: bool)
    requires store.Valid()
    modifies store
    ensures store.Valid() && store.tableExists == old(store.tableExists)
    ensures tempRemoved == saved
    ensures !saved ==> outcome == Failed(SaveFailed)
    ensures saved && transcription.TranscriptionFailed? ==> outcome == Failed(TranscribeFailed(transcription.message))
    ensures !(saved && transcription.Transcribed?) ==>
      store.rows == old(store.rows) && store.lastId == old(store.lastId)
    ensures saved && transcription.Transcribed? ==>
      var analysis := AiCore.AnalyzeCall(reply);
      var ins := Db.Insertion(Db.WithTimestamp(MergedTicketData(transcription.text, analysis), now),
                              old(store.tableExists), old(store.lastId) + 1);
      && (ins.Ok? ==> outcome == Created(ins.value.id, transcription.text, analysis)
                      && store.rows == old(store.rows) + [ins.value] && store.lastId == old(store.lastId) + 1)
      && (ins.Err? ==> outcome == Failed(StoreFailed(ins.error))
                       && store.rows == old(store.rows) && store.lastId == old(store.lastId))
  {
    tempRemoved := false;
    if !saved {
      // save_uploaded_file raised: there is no temporary path to clean up
      outcome := Failed(SaveFailed);
      return;
    }
    match transcription
    case TranscriptionFailed(message) =>
      tempRemoved := true;
      outcome := Failed(TranscribeFailed(message));
    case Transcribed(transcript) =>
      var analysis := AiCore.AnalyzeCall(reply);
      outcome := StoreTicket(store, transcript, analysis, now);
      tempRemoved := true;
  }

  /** Step 4 of the pipeline: merge the transcript into the analysis and
      insert the result; the ticket id, or the exception, becomes the
      outcome. */
  method StoreTicket(store: Db.TicketStore, transcript: string, analysis: Record, now: string)
    returns (outcome: Outcome)
    requires store.Valid()
    modifies store
    ensures store.Valid() && store.tableExists == old(store.tableExists)
    ensures var ins := Db.Insertion(Db.WithTimestamp(MergedTicketData(transcript, analysis), now),
                                    old(store.tableExists), old(store.lastId) + 1);
      && (ins.Ok? ==> outcome == Created(ins.value.id, transcript, analysis)
                      && store.rows == old(store.rows) + [ins.value] && store.lastId == old(store.lastId) + 1)
      && (ins.Err? ==> outcome == Failed(StoreFailed(ins.error))
                       && store.rows == old(store.rows) && store.lastId == old(store.lastId))
  {
    var data := new Db.TicketData(MergedTicketData(transcript, analysis));
    var r := store.InsertTicket(data, now);
    match r
    case Ok(id) =>
      Db.InsertionId(data.fields, old(store.tableExists), old(store.lastId) + 1);
      outcome := Created(id, transcript, analysis);
    case Err(e) =>
      outcome := Failed(StoreFailed(e));
  }

  /** An analysis whose categorical fields and summaries are strings, and
      whose caller fields are strings or None, always makes a ticket: the
      row holds those values, the transcript and the current time. */
  lemma TextAnalysisIsStored(transcript: string, analysis: Record, now: string, id: nat)
    requires "transcript" !in analysis && "created_at" !in analysis
    requires Get(analysis, "caller_name").Null? || Get(analysis, "caller_name").Str?
    requires Get(analysis, "caller_contact").Null? || Get(analysis, "caller_contact").Str?
    requires "intent_category" in analysis && analysis["intent_category"].Str?
    requires "department" in analysis && analysis["department"].Str?
    requires "priority" in analysis && analysis["priority"].Str?
    requires "sentiment" in analysis && analysis["sentiment"].Str?
    requires "summary_short" in analysis && analysis["summary_short"].Str?
    requires "summary_full" in analysis && analysis["summary_full"].Str?
    ensures Db.Insertion(Db.WithTimestamp(MergedTicketData(transcript, analysis), now), true, id) ==
      Ok(Db.Ticket(id, now,
                   Db.NullableText(Get(analysis, "caller_name")), Db.NullableText(Get(analysis, "caller_contact")),
                   analysis["intent_category"].s, analysis["department"].s, analysis["priority"].s,
                   analysis["sentiment"].s, transcript, analysis["summary_short"].s,
                   analysis["summary_full"].s))
  {
    var merged := MergedTicketData(transcript, analysis);
    var data := Db.WithTimestamp(merged, now);
    assert data == merged["created_at" := Str(now)];
    assert merged["transcript"] == Str(transcript);
    assert Get(data, "caller_name") == Get(analysis, "caller_name");
    assert Get(data, "caller_contact") == Get(analysis, "caller_contact");
    Db.InsertionOfText(data, id);
  }

  /** When the analysis failed, the fallback record always makes a ticket:
      it is stored with the default categories, no caller details, the
      transcript and the current time. */
  lemma FallbackAnalysisIsStored(transcript: string, reply: AiCore.Reply, now: string, id: nat)
    requires !reply.Parsed?
    ensures var data := Db.WithTimestamp(MergedTicketData(transcript, AiCore.AnalyzeCall(reply)), now);
      && Db.Insertion(data, true, id).Ok?
      && var row := Db.Insertion(data, true, id).value;
      && row.intentCategory == "other" && row.sentiment == "neutral"
      && row.priority == "medium" && row.department == "General"
      && row.callerName == None && row.callerContact == None
      && row.transcript == transcript && row.createdAt == now
  {
    var analysis := AiCore.AnalyzeCall(reply);
    assert "transcript" !in analysis && "created_at" !in analysis;
    TextAnalysisIsStored(transcript, analysis, now, id);
  }

  /** Nothing stops an out-of-vocabulary analysis: a decoded reply whose
      intent is "refund" fails the validator and is still stored. */
  lemma InvalidAnalysisIsStored(transcript: string, now: string, id: nat)
    ensures var m := AiCore.FallbackBase()["summary_full" := Str("")]["intent_category" := Str("refund")];
      && !AiCore.ValidateAnalysis(AiCore.AnalyzeCall(AiCore.Parsed(m)))
      && Db.Insertion(Db.WithTimestamp(MergedTicketData(transcript, AiCore.AnalyzeCall(AiCore.Parsed(m))), now), true, id).Ok?
  {
    var m := AiCore.FallbackBase()["summary_full" := Str("")]["intent_category" := Str("refund")];
    AiCore.ParsedReplyIsNotValidated();
    TextAnalysisIsStored(transcript, m, now, id);
  }
}
