/** `AddPaperScreen`: the combined CrossRef and arXiv search, the one-tap add of a
    search result and the manual form's submit. Network answers, downloads, copies, the
    clock and `encodeURIComponent` are parameters; the library is the "papers" item of
    the shared store. */
module AddPaperScreen {
  import opened Options
  import opened Text
  import opened AppStorage
  import opened PaperSearch

  datatype SearchType = Title | Author | Keyword

  /** How one CrossRef request ended: it threw (network or JSON error), answered with a
      non-OK status, or answered with `message.items` (possibly absent). */
  datatype CrossRefFetch = Threw | NotOk | Ok(items: Option<seq<CrossRefItem>>)

  /** How one arXiv attempt ended: the race settled with a response, or it rejected
      with an error message (the 15-second timeout among them). */
  datatype Attempt = Resolved(ok: bool, body: string) | Rejected(message: string)

  /** What the patterns of the arXiv loop extract from one entry; the regular
      expressions, the `&lt;`/`&gt;` unescaping and the year of `new Date(published)`
      are abstract. `authorNames` is `None` when no `<author>` block matched. */
  datatype ArxivFields = ArxivFields(
    id: Option<string>, title: Option<string>, authorNames: Option<seq<string>>,
    year: Option<string>)

  const MAX_RETRIES := 3
  const BACKOFF_STEP_MS := 1000
  const ARXIV_TIMEOUT_MESSAGE := "arXiv request timeout"
  const NETWORK_FAILURE_TEXT := "Network request failed"
  /** The message of the `ReferenceError` thrown by `arxiv-${index}`. Its wording is
      the JavaScript engine's: this is Hermes's, React Native's default engine; V8
      words it as `V8_REFERENCE_ERROR_MESSAGE`. */
  const REFERENCE_ERROR_MESSAGE := "Property 'index' doesn't exist"
  const V8_REFERENCE_ERROR_MESSAGE := "index is not defined"
  const NO_RESULTS_TITLE := "No Results"
  const EMPTY_TITLE_MESSAGE := "Please enter a title for the paper"

  // ---------------------------------------------------------------------------
  // Search
  // ---------------------------------------------------------------------------

  /** The CrossRef query parameters requested, in order, as intended. In author mode
      the full query is tried first and then the family name, unless the first request
      threw. (As the code runs, the second request is never made: see
      `CrossRefRequestsAsWritten`.) */
  function CrossRefRequests(t: SearchType, query: string, encode: string -> string, first: CrossRefFetch): (r: seq<string>)
    ensures 1 <= |r| <= 2
    ensures |r| == 2 <==> t == Author && !first.Threw?
    ensures t == Author ==> r[0] == "query.author=" + encode(query)
    ensures |r| == 2 ==> r[1] == "query.author=" + encode(FamilyName(query))
  {
    match t
    case Title => ["query.title=" + encode(query)]
    case Keyword => ["query=" + encode(query)]
    case Author =>
      ["query.author=" + encode(query)]
      + (if first.Threw? then [] else ["query.author=" + encode(FamilyName(query))])
  }

  /** The arXiv `search_query`. */
  function ArxivQuery(t: SearchType, query: string, encode: string -> string): string
  {
    match t
    case Title => "ti:" + encode(query)
    case Author => "au:" + encode(FamilyName(query))
    case Keyword => "all:" + encode(query)
  }

  /** The works a CrossRef answer contributes. */
  function Fetched(f: CrossRefFetch): seq<CrossRefItem>
  {
    if f.Ok? && f.items.Some? then f.items.value else []
  }

  /** The CrossRef part of the results, as intended: in author mode the exact matches
      followed by the family-name matches whose DOI is new. */
  function CrossRefResults(t: SearchType, first: CrossRefFetch, second: CrossRefFetch): (r: seq<SearchResult>)
    ensures t != Author ==> |r| == |Fetched(first)|
    ensures t == Author && first.Threw? ==> r == []
    ensures forall k :: 0 <= k < |r| ==> r[k].source == "CrossRef"
  {
    var exact := MapCrossRef(Fetched(first));
    if t != Author then exact
    else if first.Threw? then []
    else MergeFamilyResults(exact, Fetched(second))
  }

  /** The family-name works all end up among the author-mode results, after the exact
      matches, which stay first and unchanged. */
  lemma FamilyMatchesIncluded(first: CrossRefFetch, second: CrossRefFetch)
    requires !first.Threw?
    ensures var r := CrossRefResults(Author, first, second);
      var exact := MapCrossRef(Fetched(first));
      r[..|exact|] == exact && forall x :: x in Fetched(second) ==> HasId(r, x.doi)
  {
    MergedDoisPresent(MapCrossRef(Fetched(first)), Fetched(second));
  }

  /** The CrossRef requests as the code runs: in author mode the family-name request's
      address mentions `nameParts`, a `const` of another block, so building it throws a
      `ReferenceError` that the CrossRef `catch` swallows; only the first request is
      ever made. */
  function CrossRefRequestsAsWritten(t: SearchType, query: string, encode: string -> string): seq<string>
  {
    match t
    case Title => ["query.title=" + encode(query)]
    case Keyword => ["query=" + encode(query)]
    case Author => ["query.author=" + encode(query)]
  }

  /** The CrossRef results as the code runs: in author mode only the exact matches. */
  function CrossRefResultsAsWritten(t: SearchType, first: CrossRefFetch): (r: seq<SearchResult>)
    ensures t == Author && first.Threw? ==> r == []
    ensures !(t == Author && first.Threw?) ==> |r| == |Fetched(first)|
    ensures forall k :: 0 <= k < |r| ==> r[k].source == "CrossRef" && r[k].id == Fetched(first)[k].doi
  {
    if t == Author && first.Threw? then [] else MapCrossRef(Fetched(first))
  }

  /** As written, the author search is a truncation of the intended one: the same first
      request and the exact matches, without the family-name request and its matches. */
  lemma AuthorSearchAsWritten(query: string, encode: string -> string, first: CrossRefFetch, second: CrossRefFetch)
    ensures CrossRefRequestsAsWritten(Author, query, encode) == CrossRefRequests(Author, query, encode, first)[..1]
    ensures !first.Threw? ==> |CrossRefRequests(Author, query, encode, first)| == 2
    ensures var w := CrossRefResultsAsWritten(Author, first);
      var r := CrossRefResults(Author, first, second);
      |w| <= |r| && r[..|w|] == w
  {
  }

  /** The input that shows it: an author with no exact match and one family-name match
      gets no CrossRef result as written, where the intended search lists the match. */
  lemma AuthorSearchLosesFamilyMatch()
    ensures var item := CrossRefItem(Some("10.1000/1"), None, None, None, None, None, None);
      var first, second := Ok(Some([])), Ok(Some([item]));
      CrossRefResultsAsWritten(Author, first) == []
      && CrossRefResults(Author, first, second) == [FromCrossRef(item)]
  {
    var item := CrossRefItem(Some("10.1000/1"), None, None, None, None, None, None);
    assert !HasId([], item.doi);
    assert NewItems([], [item]) == [item];
  }

  /** Title and keyword searches are not affected. */
  lemma OtherSearchesAsWritten(t: SearchType, query: string, encode: string -> string,
                               first: CrossRefFetch, second: CrossRefFetch)
    requires t != Author
    ensures CrossRefRequestsAsWritten(t, query, encode) == CrossRefRequests(t, query, encode, first)
    ensures CrossRefResultsAsWritten(t, first) == CrossRefResults(t, first, second)
  {
  }

  /** The attempt whose outcome the retry loop keeps: the first that settled, or the
      third when all three rejected. */
  function ArxivOutcome(attempts: seq<Attempt>): (r: Attempt)
    requires |attempts| == MAX_RETRIES
    ensures r in attempts
    ensures r.Rejected? ==> forall k :: 0 <= k < |attempts| ==> attempts[k].Rejected?
    ensures r.Resolved? ==>
      exists k :: 0 <= k < |attempts| && attempts[k] == r && forall j :: 0 <= j < k ==> attempts[j].Rejected?
  {
    if attempts[0].Resolved? then attempts[0]
    else if attempts[1].Resolved? then attempts[1]
    else attempts[2]
  }

  /** Every entry has an `<id>`. */
  predicate AllHaveIds(entries: seq<string>, extract: string -> ArxivFields)
  {
    forall i :: 0 <= i < |entries| ==> extract(entries[i]).id.Some?
  }

  /** The result pushed for an entry with an id. */
  function ArxivResult(f: ArxivFields): (r: SearchResult)
    requires f.id.Some?
    ensures r.source == "arXiv" && r.id == f.id && r.doi == None && r.citationCount == 0
    ensures IsDownloadablePdfUrl(r.pdfUrl)
  {
    ArxivPdfUrlDownloadable(f.id.value);
    SearchResult(
      f.id,
      f.title.GetOr("Untitled"),
      if f.authorNames.Some? && f.authorNames.value != [] then Join(f.authorNames.value, ", ") else "Unknown",
      "arXiv",
      Or(f.year.GetOr(""), "Unknown"),
      None,
      "arXiv",
      Some(ArxivPdfUrl(f.id.value)),
      0)
  }

  /** The results the arXiv loop pushes: one per entry, up to the first entry without
      an id, where the loop is aborted by the `ReferenceError`. */
  function ArxivPrefix(entries: seq<string>, extract: string -> ArxivFields): (r: seq<SearchResult>)
    ensures PushedUpToFirstMissing(r, entries, extract)
    ensures AllHaveIds(entries, extract) ==> |r| == |entries|
    decreases |entries|
  {
    if entries == [] then []
    else
      var f := extract(entries[0]);
      if f.id.None? then []
      else
        var rest := ArxivPrefix(entries[1..], extract);
        PushedCons(entries, extract, rest);
        [ArxivResult(f)] + rest
  }

  /** `r` holds the result of each entry in order, every one of them with an id, and
      stops only at an entry without an id or at the end. */
  predicate PushedUpToFirstMissing(r: seq<SearchResult>, entries: seq<string>, extract: string -> ArxivFields)
  {
    && |r| <= |entries|
    && (forall k :: 0 <= k < |r| ==> extract(entries[k]).id.Some? && r[k] == ArxivResult(extract(entries[k])))
    && (|r| < |entries| ==> extract(entries[|r|]).id.None?)
  }

  lemma PushedCons(entries: seq<string>, extract: string -> ArxivFields, rest: seq<SearchResult>)
    requires entries != [] && extract(entries[0]).id.Some?
    requires PushedUpToFirstMissing(rest, entries[1..], extract)
    ensures PushedUpToFirstMissing([ArxivResult(extract(entries[0]))] + rest, entries, extract)
  {
    var r := [ArxivResult(extract(entries[0]))] + rest;
    PushedConsEach(entries, extract, rest);
    if |r| < |entries| {
      assert entries[|r|] == entries[1..][|rest|];
    }
  }

  lemma PushedConsEach(entries: seq<string>, extract: string -> ArxivFields, rest: seq<SearchResult>)
    requires entries != [] && extract(entries[0]).id.Some?
    requires |rest| < |entries|
    requires forall k :: 0 <= k < |rest| ==>
      extract(entries[1..][k]).id.Some? && rest[k] == ArxivResult(extract(entries[1..][k]))
    ensures var r := [ArxivResult(extract(entries[0]))] + rest;
      forall k :: 0 <= k < |r| ==> extract(entries[k]).id.Some? && r[k] == ArxivResult(extract(entries[k]))
  {
    var r := [ArxivResult(extract(entries[0]))] + rest;
    forall k | 0 <= k < |r| ensures extract(entries[k]).id.Some? && r[k] == ArxivResult(extract(entries[k])) {
      if k > 0 {
        assert entries[k] == entries[1..][k - 1] && r[k] == rest[k - 1];
      }
    }
  }

  /** Every arXiv result links to its PDF and passes the one-tap check. */
  lemma {:induction false} ArxivResultsDownloadable(entries: seq<string>, extract: string -> ArxivFields)
    ensures forall k :: 0 <= k < |ArxivPrefix(entries, extract)| ==>
      ArxivPrefix(entries, extract)[k].source == "arXiv" && IsDownloadablePdfUrl(ArxivPrefix(entries, extract)[k].pdfUrl)
    decreases |entries|
  {
    if entries != [] && extract(entries[0]).id.Some? {
      var r := ArxivPrefix(entries, extract);
      var rest := ArxivPrefix(entries[1..], extract);
      ArxivResultsDownloadable(entries[1..], extract);
      PrefixUnfold(entries, extract);
      forall k | 0 <= k < |r|
        ensures r[k].source == "arXiv" && IsDownloadablePdfUrl(r[k].pdfUrl)
      {
        if k > 0 {
          assert r[k] == rest[k - 1];
        }
      }
    }
  }

  /** The arXiv part of the results, given the kept attempt. */
  function ArxivResults(outcome: Attempt, extract: string -> ArxivFields): (r: seq<SearchResult>)
    ensures !(outcome.Resolved? && outcome.ok) ==> r == []
    ensures outcome.Resolved? && outcome.ok ==> PushedUpToFirstMissing(r, ArxivEntries(outcome.body), extract)
  {
    if outcome.Resolved? && outcome.ok then ArxivPrefix(ArxivEntries(outcome.body), extract) else []
  }

  /** The alert title for an arXiv failure. */
  function ArxivAlertTitle(message: string): string
  {
    if message == ARXIV_TIMEOUT_MESSAGE then "Search Timeout"
    else if Contains(message, NETWORK_FAILURE_TEXT) then "Network Error"
    else "Search Error"
  }

  /** The alerts the arXiv part raises: the failure of the kept attempt, or the abort
      of the entry loop. */
  function ArxivAlerts(outcome: Attempt, extract: string -> ArxivFields): (r: seq<string>)
    ensures outcome.Rejected? ==> r == [ArxivAlertTitle(outcome.message)]
    ensures outcome.Resolved? ==>
      (r != [] <==> outcome.ok && |ArxivResults(outcome, extract)| < |ArxivEntries(outcome.body)|)
    ensures outcome.Resolved? && r != [] ==> r == ["Search Error"]
  {
    MissingIdIsSearchError();
    match outcome
    case Rejected(message) => [ArxivAlertTitle(message)]
    case Resolved(ok, body) =>
      if ok && !AllHaveIds(ArxivEntries(body), extract) then [ArxivAlertTitle(REFERENCE_ERROR_MESSAGE)] else []
  }

  /** An entry without an id is reported as a generic search error, whichever engine
      words the `ReferenceError`. */
  lemma MissingIdIsSearchError()
    ensures ArxivAlertTitle(REFERENCE_ERROR_MESSAGE) == "Search Error"
    ensures ArxivAlertTitle(V8_REFERENCE_ERROR_MESSAGE) == "Search Error"
  {
    WithoutNIsSearchError(REFERENCE_ERROR_MESSAGE);
    WithoutNIsSearchError(V8_REFERENCE_ERROR_MESSAGE);
  }

  /** A message other than the timeout's that has no 'N' cannot mention a network
      failure. */
  lemma WithoutNIsSearchError(message: string)
    requires message != ARXIV_TIMEOUT_MESSAGE && 'N' !in message
    ensures ArxivAlertTitle(message) == "Search Error"
  {
    if Contains(message, NETWORK_FAILURE_TEXT) {
      ContainsFirst(message, NETWORK_FAILURE_TEXT);
    }
  }

  /** The bounded retry loop: at most three attempts; it stops at the first that
      settles, rethrows the third failure, and waits 1000·k ms after failure k when
      another attempt follows. */
  method FetchArxivWithRetry(attempts: seq<Attempt>) returns (outcome: Attempt, made: nat, waits: seq<nat>)
    requires |attempts| == MAX_RETRIES
    ensures 1 <= made <= MAX_RETRIES
    ensures outcome == attempts[made - 1] && outcome == ArxivOutcome(attempts)
    ensures forall k :: 0 <= k < made - 1 ==> attempts[k].Rejected?
    ensures outcome.Rejected? ==> made == MAX_RETRIES
    ensures |waits| == made - 1 && forall k :: 0 <= k < |waits| ==> waits[k] == BACKOFF_STEP_MS * (k + 1)
  {
    var retryCount := 0;
    made, waits := 0, [];
    outcome := attempts[0];
    while retryCount < MAX_RETRIES
      invariant 0 <= retryCount < MAX_RETRIES && made == retryCount
      invariant forall k :: 0 <= k < retryCount ==> attempts[k].Rejected?
      invariant |waits| == retryCount && forall k :: 0 <= k < |waits| ==> waits[k] == BACKOFF_STEP_MS * (k + 1)
      decreases MAX_RETRIES - retryCount
    {
      outcome := attempts[retryCount];
      made := made + 1;
      if outcome.Resolved? {
        break;
      }
      retryCount := retryCount + 1;
      if retryCount == MAX_RETRIES {
        break;
      }
      waits := waits + [BACKOFF_STEP_MS * retryCount];
    }
  }

  /** The `for (const entry of entries)` loop: pushes one result per entry and stops at
      the first entry without an id; `aborted` tells whether that happened. */
  method AppendArxivEntries(results: seq<SearchResult>, entries: seq<string>, extract: string -> ArxivFields)
    returns (out: seq<SearchResult>, aborted: bool)
    ensures out == results + ArxivPrefix(entries, extract)
    ensures aborted <==> !AllHaveIds(entries, extract)
  {
    out, aborted := results, false;
    var i := 0;
    while i < |entries|
      invariant 0 <= i <= |entries|
      invariant AllHaveIds(entries[..i], extract)
      invariant results + ArxivPrefix(entries, extract) == out + ArxivPrefix(entries[i..], extract)
    {
      var f := extract(entries[i]);
      if f.id.None? {
        StopStep(results, entries, i, out, extract);
        aborted := true;
        break;
      }
      IdsExtend(entries, i, extract);
      PushStep(results + ArxivPrefix(entries, extract), entries[i..], out, extract);
      assert entries[i..][1..] == entries[i + 1..];
      out := out + [ArxivResult(f)];
      i := i + 1;
    }
    if !aborted {
      assert entries[..i] == entries;
      assert entries[i..] == [];
    }
  }

  /** The loop step at an entry with an id keeps the loop's invariant: the entry's
      result moves from the pending results to the pushed ones. */
  lemma PushStep(whole: seq<SearchResult>, tail: seq<string>, out: seq<SearchResult>,
                 extract: string -> ArxivFields)
    requires tail != [] && extract(tail[0]).id.Some?
    requires whole == out + ArxivPrefix(tail, extract)
    ensures whole == (out + [ArxivResult(extract(tail[0]))]) + ArxivPrefix(tail[1..], extract)
  {
    var r, rest := ArxivResult(extract(tail[0])), ArxivPrefix(tail[1..], extract);
    PrefixUnfold(tail, extract);
    assert out + ([r] + rest) == (out + [r]) + rest;
  }

  lemma IdsExtend(entries: seq<string>, i: nat, extract: string -> ArxivFields)
    requires i < |entries| && extract(entries[i]).id.Some?
    requires AllHaveIds(entries[..i], extract)
    ensures AllHaveIds(entries[..i + 1], extract)
  {
    assert entries[..i + 1] == entries[..i] + [entries[i]];
  }

  lemma PrefixUnfold(entries: seq<string>, extract: string -> ArxivFields)
    requires entries != [] && extract(entries[0]).id.Some?
    ensures ArxivPrefix(entries, extract) == [ArxivResult(extract(entries[0]))] + ArxivPrefix(entries[1..], extract)
  {
  }

  /** The loop stops at an entry without an id: nothing more is pushed and not every
      entry has an id. */
  lemma StopStep(results: seq<SearchResult>, entries: seq<string>, i: nat, out: seq<SearchResult>,
                 extract: string -> ArxivFields)
    requires i < |entries| && extract(entries[i]).id.None?
    requires results + ArxivPrefix(entries, extract) == out + ArxivPrefix(entries[i..], extract)
    ensures out == results + ArxivPrefix(entries, extract)
    ensures !AllHaveIds(entries, extract)
  {
    assert entries[i..][0] == entries[i];
  }

  /** The arXiv half of the search: the retry loop, then the entry loop on an OK
      answer; the results found before are kept whatever happens. */
  method SearchArxiv(results: seq<SearchResult>, attempts: seq<Attempt>, extract: string -> ArxivFields)
    returns (out: seq<SearchResult>, alerts: seq<string>)
    requires |attempts| == MAX_RETRIES
    ensures out == results + ArxivResults(ArxivOutcome(attempts), extract)
    ensures alerts == ArxivAlerts(ArxivOutcome(attempts), extract)
  {
    out, alerts := results, [];
    var outcome, _, _ := FetchArxivWithRetry(attempts);
    if outcome.Rejected? {
      alerts := [ArxivAlertTitle(outcome.message)];
    } else if outcome.ok {
      var aborted;
      out, aborted := AppendArxivEntries(results, ArxivEntries(outcome.body), extract);
      if aborted {
        alerts := [ArxivAlertTitle(REFERENCE_ERROR_MESSAGE)];
      }
    }
  }

  /** The CrossRef half of the search: the requests made and the results pushed. */
  method SearchCrossRef(t: SearchType, query: string, encode: string -> string, first: CrossRefFetch, second: CrossRefFetch)
    returns (results: seq<SearchResult>, requests: seq<string>)
    ensures results == CrossRefResults(t, first, second)
    ensures requests == CrossRefRequests(t, query, encode, first)
  {
    results := [];
    if t == Author {
      requests := ["query.author=" + encode(query)];
      if !first.Threw? {
        results := MapCrossRef(Fetched(first));
        requests := requests + ["query.author=" + encode(FamilyName(query))];
        results := MergeFamilyResults(results, Fetched(second));
      }
    } else {
      requests := [if t == Title then "query.title=" + encode(query) else "query=" + encode(query)];
      results := MapCrossRef(Fetched(first));
    }
  }

  // ---------------------------------------------------------------------------
  // Paper records
  // ---------------------------------------------------------------------------

  /** What the manual form holds; `pdfFile` is the URI of the picked or looked-up PDF. */
  datatype Form = Form(
    title: string, authors: string, journal: string, year: string, doi: string,
    tags: string, pdfFile: Option<string>)

  /** How a download or copy ended: it threw, or it produced a file (`fileExists` from
      `getInfoAsync`, `head` the text read back from it). */
  datatype Transfer = TransferFailed | Transferred(uri: string, fileExists: bool, head: string)

  /** A download is kept only if the file exists and starts with the PDF magic. */
  predicate Accepted(t: Transfer)
  {
    t.Transferred? && t.fileExists && HasPdfMagic(t.head)
  }

  /** The PDF fields of a new record. */
  datatype Attachment = Attachment(pdfUrl: string, localUri: string, tag: string, tagColor: string)

  const REMOTE_TAG := "Remote"
  const REMOTE_COLOR := "#3498db"
  const LOCAL_TAG := "Local"
  const LOCAL_COLOR := "#9b59b6"

  /** The defaults every new library entry gets. */
  predicate IsFreshEntry(p: Paper)
  {
    !p.starred && p.readStatus == "unread" && p.collection == "All Papers" && p.pages == "Unknown"
    && p.authors != [] && p.source != []
  }

  /** `authors || 'Unknown Author'`, `journal || 'Unknown Journal'` and `year ||` the
      current year: each text field is taken when non-empty and defaulted otherwise. */
  predicate HasFieldsOrDefaults(p: Paper, authors: string, journal: string, year: string, currentYear: string)
  {
    && (authors != [] ==> p.authors == authors) && (authors == [] ==> p.authors == "Unknown Author")
    && (journal != [] ==> p.source == journal) && (journal == [] ==> p.source == "Unknown Journal")
    && (year != [] ==> p.year == year) && (year == [] ==> p.year == currentYear)
  }

  /** The record one-tap add stores for a downloaded search result. */
  function SelectedPaper(paper: SearchResult, localUri: string, idTime: nat, nowIso: string, currentYear: string): (p: Paper)
    ensures IsFreshEntry(p) && p.id == Decimal(idTime) && p.addedDate == nowIso
    ensures p.title == paper.title && p.pdfUrl == paper.pdfUrl && p.localUri == Some(localUri)
    ensures p.tag == Some(REMOTE_TAG) && p.tagColor == Some(REMOTE_COLOR)
    ensures HasFieldsOrDefaults(p, paper.authors, paper.journal, paper.year, currentYear)
    ensures p.doi == paper.doi.GetOr("") && p.citationCount == paper.citationCount
  {
    Paper(Decimal(idTime), paper.title, Or(paper.authors, "Unknown Author"),
          Or(paper.journal, "Unknown Journal"), Or(paper.year, currentYear), "Unknown",
          Some(REMOTE_TAG), Some(REMOTE_COLOR), false, "unread", paper.pdfUrl, Some(localUri),
          "All Papers", nowIso, paper.doi.GetOr(""), paper.citationCount)
  }

  /** A value as `typeof` sees it: `undefined`, or defined (possibly `null`). */
  datatype Slot = Undefined | Defined(value: Option<string>)

  /** `typeof tag !== 'undefined' ? tag : (doi ? fallbackIfDoi : fallback)`. */
  function TypeofOr(tag: Slot, doi: string, fallbackIfDoi: string, fallback: string): Option<string>
  {
    if tag != Undefined then tag.value else Some(if doi != [] then fallbackIfDoi else fallback)
  }

  /** The record the form's submit stores. `paperTag` starts as `null`, never
      `undefined`, so the DOI/Manual fallback is never taken: without a PDF the tag and
      its colour stay `null`. */
  function SubmittedPaper(form: Form, attachment: Option<Attachment>, idTime: nat, nowIso: string, currentYear: string): (p: Paper)
    ensures IsFreshEntry(p) && p.id == Decimal(idTime) && p.addedDate == nowIso
    ensures p.title == form.title && p.doi == form.doi && p.citationCount == 0
    ensures HasFieldsOrDefaults(p, form.authors, form.journal, form.year, currentYear)
    ensures attachment.None? ==> p.tag == None && p.tagColor == None && p.pdfUrl == None && p.localUri == None
    ensures attachment.Some? ==>
      p.tag == Some(attachment.value.tag) && p.tagColor == Some(attachment.value.tagColor)
      && p.pdfUrl == Some(attachment.value.pdfUrl) && p.localUri == Some(attachment.value.localUri)
  {
    var tag := if attachment.Some? then Defined(Some(attachment.value.tag)) else Defined(None);
    var color := if attachment.Some? then Defined(Some(attachment.value.tagColor)) else Defined(None);
    Paper(Decimal(idTime), form.title, Or(form.authors, "Unknown Author"),
          Or(form.journal, "Unknown Journal"), Or(form.year, currentYear), "Unknown",
          TypeofOr(tag, form.doi, "DOI", "Manual"), TypeofOr(color, form.doi, "#3498db", "#f39c12"),
          false, "unread",
          if attachment.Some? then Some(attachment.value.pdfUrl) else None,
          if attachment.Some? then Some(attachment.value.localUri) else None,
          "All Papers", nowIso, form.doi, 0)
  }

  /** The store after `setItem('papers', [newPaper, ...existing])`: the new paper first,
      every earlier paper after it in its order, every other key untouched. */
  function WithPaper(items: map<string, Item>, p: Paper): (r: map<string, Item>)
    ensures StoredPapers(r) == [p] + StoredPapers(items)
    ensures r.Keys == items.Keys + {PAPERS_KEY}
    ensures forall k :: k in items && k != PAPERS_KEY ==> r[k] == items[k]
  {
    items[PAPERS_KEY := PapersItem([p] + StoredPapers(items))]
  }

  /** What the submit does with the picked PDF: `None` when it gives up (a download that
      failed its checks, or a copy or download that threw), otherwise the attachment, if
      any. Remote files are downloaded; local ones are copied to `newPath`. */
  function SubmitAttachment(pdfFile: Option<string>, transfer: Transfer, newPath: string): (r: Option<Option<Attachment>>)
    ensures pdfFile.None? ==> r == Some(None)
    ensures r.None? <==>
      pdfFile.Some? && (if StartsWith(pdfFile.value, "http") then !Accepted(transfer) else transfer.TransferFailed?)
    ensures pdfFile.Some? && r.Some? ==> r.value.Some? && r.value.value.pdfUrl in {pdfFile.value, newPath}
    ensures pdfFile.Some? && StartsWith(pdfFile.value, "http") && r.Some? ==>
      Accepted(transfer) && r.value.value == Attachment(pdfFile.value, transfer.uri, REMOTE_TAG, REMOTE_COLOR)
    ensures pdfFile.Some? && !StartsWith(pdfFile.value, "http") && r.Some? ==>
      r.value.value == Attachment(newPath, newPath, LOCAL_TAG, LOCAL_COLOR)
  {
    match pdfFile
    case None => Some(None)
    case Some(uri) =>
      if StartsWith(uri, "http") then
        if Accepted(transfer) then Some(Some(Attachment(uri, transfer.uri, REMOTE_TAG, REMOTE_COLOR))) else None
      else if transfer.TransferFailed? then None
      else Some(Some(Attachment(newPath, newPath, LOCAL_TAG, LOCAL_COLOR)))
  }

  class AddPaperScreen {
    const storage: KeyValueStore
    var form: Form
    var searchType: SearchType
    var searchResults: seq<SearchResult>
    var isSearching: bool
    var isSubmitting: bool

    constructor (storage: KeyValueStore, currentYear: string)
      ensures this.storage == storage && form == Form("", "", "", currentYear, "", "", None)
      ensures searchType == Keyword && searchResults == [] && !isSearching && !isSubmitting
    {
      this.storage := storage;
      form := Form("", "", "", currentYear, "", "", None);
      searchType := Keyword;
      searchResults := [];
      isSearching := false;
      isSubmitting := false;
    }

    /** `searchPapers`: a blank query clears the results and searches nothing.
        Otherwise CrossRef is asked first and arXiv second, the results are the CrossRef
        results followed by the arXiv ones, and a failure on either side never discards
        the other side's results. The author search is the intended one, with the
        family-name request. */
    method SearchPapers(query: string, encode: string -> string, first: CrossRefFetch, second: CrossRefFetch,
                        attempts: seq<Attempt>, extract: string -> ArxivFields)
      returns (crossrefRequests: seq<string>, arxivQuery: Option<string>, alerts: seq<string>)
      requires |attempts| == MAX_RETRIES
      modifies this
      ensures form == old(form) && searchType == old(searchType) && isSubmitting == old(isSubmitting)
      ensures IsJsBlank(query) ==>
        searchResults == [] && crossrefRequests == [] && arxivQuery == None && alerts == []
        && isSearching == old(isSearching)
      ensures !IsJsBlank(query) ==>
        !isSearching
        && crossrefRequests == CrossRefRequests(searchType, query, encode, first)
        && arxivQuery == Some(ArxivQuery(searchType, query, encode))
        && searchResults == CrossRefResults(searchType, first, second) + ArxivResults(ArxivOutcome(attempts), extract)
        && alerts == ArxivAlerts(ArxivOutcome(attempts), extract) + (if searchResults == [] then [NO_RESULTS_TITLE] else [])
    {
      if JsTrim(query) == [] {
        searchResults := [];
        return [], None, [];
      }
      isSearching := true;
      var results;
      results, crossrefRequests := SearchCrossRef(searchType, query, encode, first, second);
      arxivQuery := Some(ArxivQuery(searchType, query, encode));
      results, alerts := SearchArxiv(results, attempts, extract);
      if results == [] {
        alerts := alerts + [NO_RESULTS_TITLE];
      }
      searchResults := results;
      isSearching := false;
    }

    /** `handlePaperSelect` (one-tap add): a result without a downloadable PDF address
        is refused; otherwise the PDF is downloaded to the sanitised file name and, if
        the file exists and starts with the PDF magic, the new record is put first in
        the library. `isSubmitting` is false once it has settled. */
    method HandlePaperSelect(paper: SearchResult, download: Transfer, documentDirectory: string,
                             fileTime: nat, idTime: nat, nowIso: string, currentYear: string)
      returns (requestedPath: Option<string>)
      modifies this, storage
      ensures form == old(form) && searchType == old(searchType)
      ensures searchResults == old(searchResults) && isSearching == old(isSearching)
      ensures !isSubmitting
      ensures !IsDownloadablePdfUrl(paper.pdfUrl) ==> requestedPath == None && storage.items == old(storage.items)
      ensures IsDownloadablePdfUrl(paper.pdfUrl) ==>
        requestedPath == Some(documentDirectory + FileName(paper.title, fileTime))
        && storage.items == if Accepted(download)
           then WithPaper(old(storage.items), SelectedPaper(paper, download.uri, idTime, nowIso, currentYear))
           else old(storage.items)
    {
      isSubmitting := true;
      if !IsDownloadablePdfUrl(paper.pdfUrl) {
        isSubmitting := false;
        return None;
      }
      requestedPath := Some(documentDirectory + FileName(paper.title, fileTime));
      if !Accepted(download) {
        isSubmitting := false;
        return;
      }
      var newPaper := SelectedPaper(paper, download.uri, idTime, nowIso, currentYear);
      var existingPapers := StoredPapers(storage.items);
      storage.SetItem(PAPERS_KEY, PapersItem([newPaper] + existingPapers));
      isSubmitting := false;
    }

    /** `handleSubmit`: an empty title is refused with an alert and nothing else
        happens. Otherwise the picked PDF, if any, is downloaded or copied, and unless
        that fails the new record goes first in the library; `isSubmitting` is false
        once it has settled. */
    method HandleSubmit(transfer: Transfer, documentDirectory: string, fileTime: nat, idTime: nat,
                        nowIso: string, currentYear: string)
      returns (alert: Option<string>)
      modifies this, storage
      ensures form == old(form) && searchType == old(searchType)
      ensures searchResults == old(searchResults) && isSearching == old(isSearching)
      ensures form.title == [] ==>
        alert == Some(EMPTY_TITLE_MESSAGE) && storage.items == old(storage.items) && isSubmitting == old(isSubmitting)
      ensures form.title != [] ==>
        alert == None && !isSubmitting
        && storage.items == match SubmitAttachment(form.pdfFile, transfer, documentDirectory + FileName(form.title, fileTime))
           case None => old(storage.items)
           case Some(attachment) => WithPaper(old(storage.items), SubmittedPaper(form, attachment, idTime, nowIso, currentYear))
    {
      if form.title == [] {
        return Some(EMPTY_TITLE_MESSAGE);
      }
      isSubmitting := true;
      var attachment: Option<Attachment> := None;
      if form.pdfFile.Some? {
        var newPath := documentDirectory + FileName(form.title, fileTime);
        if StartsWith(form.pdfFile.value, "http") {
          if !Accepted(transfer) {
            isSubmitting := false;
            return None;
          }
          attachment := Some(Attachment(form.pdfFile.value, transfer.uri, REMOTE_TAG, REMOTE_COLOR));
        } else {
          if transfer.TransferFailed? {
            isSubmitting := false;
            return None;
          }
          attachment := Some(Attachment(newPath, newPath, LOCAL_TAG, LOCAL_COLOR));
        }
      }
      var newPaper := SubmittedPaper(form, attachment, idTime, nowIso, currentYear);
      var existingPapers := StoredPapers(storage.items);
      storage.SetItem(PAPERS_KEY, PapersItem([newPaper] + existingPapers));
      isSubmitting := false;
      return None;
    }
  }
}
