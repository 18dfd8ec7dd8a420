/** The pure helpers behind `AddPaperScreen`'s search and import: the author's family
    name, the mapping of a CrossRef work to a search result with its defaults, the
    DOI-deduplicating merge of the family-name results, the arXiv PDF address and feed
    entries, the checks on a PDF address and on a downloaded file, and the file name a
    download is saved under. */
module PaperSearch {
  import opened Options
  import opened Text

  /** JavaScript `s || fallback` for a string. */
  function Or(s: string, fallback: string): string
  {
    if s == [] then fallback else s
  }

  // ---------------------------------------------------------------------------
  // Author search
  // ---------------------------------------------------------------------------

  /** The family name searched for in author mode: the last space-separated token of
      the trimmed query (`authorName.split(' ')`, last element). */
  function FamilyName(query: string): (r: string)
    ensures ' ' !in r
    ensures EndsWith(JsTrim(query), r)
    ensures ' ' !in JsTrim(query) ==> r == JsTrim(query)
    ensures r == Last(Split(JsTrim(query), [' ']))
  {
    AfterLast(JsTrim(query), ' ')
  }

  // ---------------------------------------------------------------------------
  // CrossRef
  // ---------------------------------------------------------------------------

  /** One entry of a CrossRef work's `author` array. */
  datatype CrossRefAuthor = CrossRefAuthor(given: Option<string>, family: Option<string>)

  /** The fields of a CrossRef work the search selects. `printYear` is
      `published-print.date-parts[0][0]` when present. */
  datatype CrossRefItem = CrossRefItem(
    doi: Option<string>, title: Option<seq<string>>, author: Option<seq<CrossRefAuthor>>,
    containerTitle: Option<seq<string>>, printYear: Option<nat>, url: Option<string>,
    referencedByCount: Option<int>)

  /** A search result as the screen lists it. arXiv results carry no DOI. */
  datatype SearchResult = SearchResult(
    id: Option<string>, title: string, authors: string, journal: string, year: string,
    doi: Option<string>, source: string, pdfUrl: Option<string>, citationCount: int)

  /** `xs?.[0] || fallback`. */
  function FirstOr(xs: Option<seq<string>>, fallback: string): string
  {
    if xs.Some? && |xs.value| > 0 then Or(xs.value[0], fallback) else fallback
  }

  /** `` `${a.given || ''} ${a.family || ''}`.trim() ``. */
  function AuthorName(a: CrossRefAuthor): string
  {
    JsTrim(a.given.GetOr("") + " " + a.family.GetOr(""))
  }

  /** `authors.map(AuthorName)`. */
  function AuthorNames(authors: seq<CrossRefAuthor>): (names: seq<string>)
    ensures |names| == |authors| && forall i :: 0 <= i < |authors| ==> names[i] == AuthorName(authors[i])
  {
    seq(|authors|, i requires 0 <= i < |authors| => AuthorName(authors[i]))
  }

  const AUTHOR_SEPARATOR := ", "

  /** `item.author?.map(AuthorName).join(', ') || 'Unknown'`: the authors' names
      separated by ", ", or "Unknown" when there is no author or the text would be
      empty (a single author without a name). */
  function AuthorsText(author: Option<seq<CrossRefAuthor>>): (r: string)
    ensures r != []
    ensures author.None? || author.value == [] ==> r == "Unknown"
    ensures author.Some? && |author.value| == 1 ==> r == Or(AuthorName(author.value[0]), "Unknown")
    ensures author.Some? && |author.value| > 1 ==> r == Join(AuthorNames(author.value), AUTHOR_SEPARATOR)
  {
    if author.None? || author.value == [] then "Unknown"
    else
      var names := AuthorNames(author.value);
      if |names| > 1 then JoinLonger(names, AUTHOR_SEPARATOR); Join(names, AUTHOR_SEPARATOR)
      else Or(Join(names, AUTHOR_SEPARATOR), "Unknown")
  }

  /** A join of several pieces holds at least the separator. */
  lemma JoinLonger(parts: seq<string>, sep: string)
    requires |parts| > 1
    ensures |Join(parts, sep)| >= |sep|
  {
  }

  /** The author text lists the names: splitting it at ", " gives back each author's
      name, in order, as long as no name itself contains ", " and the text is not the
      "Unknown" of a single nameless author. */
  lemma AuthorsTextLists(authors: seq<CrossRefAuthor>)
    requires |authors| > 1 || (|authors| == 1 && AuthorName(authors[0]) != [])
    requires forall i :: 0 <= i < |authors| ==> !Contains(AuthorName(authors[i]), AUTHOR_SEPARATOR)
    ensures Split(AuthorsText(Some(authors)), AUTHOR_SEPARATOR) == AuthorNames(authors)
  {
    var names := AuthorNames(authors);
    SplitJoinPair(names, ',', ' ');
  }

  /** The result shown for a CrossRef work: the DOI is both the id and the DOI, the
      work's URL is the PDF address, and every text field that is missing or empty gets
      its default, so none is ever empty. */
  function FromCrossRef(item: CrossRefItem): (r: SearchResult)
    ensures r.id == item.doi && r.doi == item.doi && r.pdfUrl == item.url && r.source == "CrossRef"
    ensures r.title != [] && r.authors != [] && r.journal != [] && r.year != []
    ensures r.authors == AuthorsText(item.author)
    ensures item.title.Some? && |item.title.value| > 0 && item.title.value[0] != [] ==> r.title == item.title.value[0]
    ensures !(item.title.Some? && |item.title.value| > 0 && item.title.value[0] != []) ==> r.title == "Untitled"
    ensures item.containerTitle.Some? && |item.containerTitle.value| > 0 && item.containerTitle.value[0] != [] ==>
      r.journal == item.containerTitle.value[0]
    ensures !(item.containerTitle.Some? && |item.containerTitle.value| > 0 && item.containerTitle.value[0] != []) ==>
      r.journal == "Unknown Journal"
    ensures item.printYear.Some? ==> AllDigits(r.year) && DecimalValue(r.year) == item.printYear.value
    ensures item.printYear.None? ==> r.year == "Unknown"
    ensures r.citationCount == if item.referencedByCount.Some? then item.referencedByCount.value else 0
  {
    SearchResult(
      item.doi,
      FirstOr(item.title, "Untitled"),
      AuthorsText(item.author),
      FirstOr(item.containerTitle, "Unknown Journal"),
      YearText(item.printYear),
      item.doi,
      "CrossRef",
      item.url,
      // `count || 0`: a count of 0 is falsy and becomes 0 again.
      if item.referencedByCount.Some? && item.referencedByCount.value != 0 then item.referencedByCount.value else 0)
  }

  /** `year?.toString() || 'Unknown'`: the year in decimal, or the default. */
  function YearText(year: Option<nat>): (r: string)
    ensures year.Some? ==> AllDigits(r) && r != [] && DecimalValue(r) == year.value
    ensures year.None? ==> r == "Unknown"
  {
    match year
    case None => "Unknown"
    case Some(n) => DecimalRoundTrip(n); Decimal(n)
  }

  /** `items.map(FromCrossRef)`. */
  function MapCrossRef(items: seq<CrossRefItem>): (r: seq<SearchResult>)
    ensures |r| == |items| && forall i :: 0 <= i < |items| ==> r[i] == FromCrossRef(items[i])
  {
    seq(|items|, i requires 0 <= i < |items| => FromCrossRef(items[i]))
  }

  /** `results.some(existing => existing.id === id)`; a missing DOI matches a result
      whose id is missing too (`undefined === undefined`). */
  predicate HasId(results: seq<SearchResult>, id: Option<string>)
  {
    exists k :: 0 <= k < |results| && results[k].id == id
  }

  /** The family-name works whose DOI is not already a result id, in their order. */
  function NewItems(results: seq<SearchResult>, items: seq<CrossRefItem>): (r: seq<CrossRefItem>)
    ensures |r| <= |items|
    ensures forall x :: x in r <==> x in items && !HasId(results, x.doi)
    decreases |items|
  {
    if items == [] then []
    else
      var rest := NewItems(results, items[1..]);
      assert forall x :: x in items <==> x == items[0] || x in items[1..];
      if HasId(results, items[0].doi) then rest else [items[0]] + rest
  }

  /** `idx` lists, in increasing order, exactly the positions of `items` whose DOI is
      not a result id, and `r` holds the works at those positions. */
  predicate SelectsNew(idx: seq<int>, r: seq<CrossRefItem>, items: seq<CrossRefItem>, results: seq<SearchResult>)
  {
    |idx| == |r| && Picks(idx, r, items) && Increasing(idx) && NewPositions(idx, items, results)
  }

  /** `r[k]` is the work at position `idx[k]`. */
  predicate Picks(idx: seq<int>, r: seq<CrossRefItem>, items: seq<CrossRefItem>)
    requires |idx| == |r|
  {
    forall k :: 0 <= k < |idx| ==> 0 <= idx[k] < |items| && r[k] == items[idx[k]]
  }

  predicate Increasing(idx: seq<int>)
  {
    forall k, l :: 0 <= k < l < |idx| ==> idx[k] < idx[l]
  }

  /** The positions listed are exactly those whose DOI is not a result id. */
  predicate NewPositions(idx: seq<int>, items: seq<CrossRefItem>, results: seq<SearchResult>)
  {
    forall i :: 0 <= i < |items| ==> (i in idx <==> !HasId(results, items[i].doi))
  }

  /** `NewItems` is the `filter`: the works whose DOI is new, each once per position,
      in the batch's order. */
  lemma {:induction false} NewItemsInOrder(results: seq<SearchResult>, items: seq<CrossRefItem>)
    ensures exists idx :: SelectsNew(idx, NewItems(results, items), items, results)
    decreases |items|
  {
    if items == [] {
      assert NewItems(results, items) == [];
      assert SelectsNew([], NewItems(results, items), items, results);
    } else {
      NewItemsInOrder(results, items[1..]);
      var rest := NewItems(results, items[1..]);
      var idx' :| SelectsNew(idx', rest, items[1..], results);
      var r, sh := NewItems(results, items), Shift(idx');
      ShiftPicks(idx', rest, items);
      ShiftIncreasing(idx');
      ShiftPositions(idx', items, results);
      if HasId(results, items[0].doi) {
        assert r == rest;
        assert NewPositions(sh, items, results) by {
          ShiftIn(idx', 0);
        }
        assert SelectsNew(sh, r, items, results);
      } else {
        assert r == [items[0]] + rest;
        KeepFirst(idx', rest, items, results);
        assert SelectsNew([0] + sh, r, items, results);
      }
    }
  }

  /** Every position moved one further on. */
  function Shift(idx: seq<int>): (r: seq<int>)
    ensures |r| == |idx| && forall k :: 0 <= k < |idx| ==> r[k] == idx[k] + 1
  {
    seq(|idx|, k requires 0 <= k < |idx| => idx[k] + 1)
  }

  lemma ShiftIn(idx: seq<int>, i: int)
    ensures i in Shift(idx) <==> i - 1 in idx
  {
    var sh := Shift(idx);
    if i in sh {
      var k :| 0 <= k < |sh| && sh[k] == i;
      assert idx[k] == i - 1;
    }
    if i - 1 in idx {
      var k :| 0 <= k < |idx| && idx[k] == i - 1;
      assert sh[k] == i;
    }
  }

  lemma ShiftPicks(idx: seq<int>, rest: seq<CrossRefItem>, items: seq<CrossRefItem>)
    requires items != [] && |idx| == |rest| && Picks(idx, rest, items[1..])
    ensures Picks(Shift(idx), rest, items)
    ensures forall k :: 0 <= k < |idx| ==> Shift(idx)[k] >= 1
  {
  }

  lemma ShiftIncreasing(idx: seq<int>)
    requires Increasing(idx)
    ensures Increasing(Shift(idx))
  {
  }

  /** Past the first position, the shifted positions are the new ones of the batch. */
  lemma ShiftPositions(idx: seq<int>, items: seq<CrossRefItem>, results: seq<SearchResult>)
    requires items != [] && NewPositions(idx, items[1..], results)
    ensures forall i :: 1 <= i < |items| ==> (i in Shift(idx) <==> !HasId(results, items[i].doi))
  {
    forall i | 1 <= i < |items| ensures i in Shift(idx) <==> !HasId(results, items[i].doi) {
      ShiftIn(idx, i);
      assert items[i] == items[1..][i - 1];
    }
  }

  /** Putting a new first work in front of the tail's selection. */
  lemma KeepFirst(idx: seq<int>, rest: seq<CrossRefItem>, items: seq<CrossRefItem>, results: seq<SearchResult>)
    requires items != [] && |idx| == |rest| && !HasId(results, items[0].doi)
    requires Picks(Shift(idx), rest, items) && Increasing(Shift(idx))
    requires forall k :: 0 <= k < |idx| ==> Shift(idx)[k] >= 1
    requires forall i :: 1 <= i < |items| ==> (i in Shift(idx) <==> !HasId(results, items[i].doi))
    ensures Picks([0] + Shift(idx), [items[0]] + rest, items)
    ensures Increasing([0] + Shift(idx))
    ensures NewPositions([0] + Shift(idx), items, results)
  {
    var sh := Shift(idx);
    var full, r := [0] + sh, [items[0]] + rest;
    forall k | 0 <= k < |full| ensures 0 <= full[k] < |items| && r[k] == items[full[k]] {
      if k > 0 {
        assert full[k] == sh[k - 1] && r[k] == rest[k - 1];
      }
    }
    forall k, l | 0 <= k < l < |full| ensures full[k] < full[l] {
      assert full[l] == sh[l - 1];
      if k > 0 {
        assert full[k] == sh[k - 1];
      }
    }
    forall i | 0 <= i < |items| ensures i in full <==> !HasId(results, items[i].doi) {
      assert i in full <==> i == 0 || i in sh;
    }
  }

  /** The results after the family-name search: the earlier results first and
      unchanged, then the new works, none of which has a DOI already among them. */
  function MergeFamilyResults(results: seq<SearchResult>, items: seq<CrossRefItem>): (r: seq<SearchResult>)
    ensures |results| <= |r| <= |results| + |items|
    ensures r[..|results|] == results
    ensures forall k :: |results| <= k < |r| ==> !HasId(results, r[k].id)
    ensures forall x :: x in items && !HasId(results, x.doi) ==> FromCrossRef(x) in r
    ensures r[|results|..] == MapCrossRef(NewItems(results, items))
  {
    AppendedAreNew(results, items);
    results + MapCrossRef(NewItems(results, items))
  }

  lemma AppendedAreNew(results: seq<SearchResult>, items: seq<CrossRefItem>)
    ensures var added := MapCrossRef(NewItems(results, items));
      && (forall k :: 0 <= k < |added| ==> !HasId(results, added[k].id))
      && (forall x :: x in items && !HasId(results, x.doi) ==> FromCrossRef(x) in added)
  {
    var newItems := NewItems(results, items);
    var added := MapCrossRef(newItems);
    forall k | 0 <= k < |added| ensures !HasId(results, added[k].id) {
      assert added[k].id == newItems[k].doi && newItems[k] in newItems;
    }
    forall x | x in items && !HasId(results, x.doi) ensures FromCrossRef(x) in added {
      var j :| 0 <= j < |newItems| && newItems[j] == x;
      assert added[j] == FromCrossRef(x);
    }
  }

  /** Every work of a merged batch has its DOI among the merged results. */
  lemma MergedDoisPresent(results: seq<SearchResult>, items: seq<CrossRefItem>)
    ensures forall x :: x in items ==> HasId(MergeFamilyResults(results, items), x.doi)
  {
    var r := MergeFamilyResults(results, items);
    forall x | x in items ensures HasId(r, x.doi) {
      if HasId(results, x.doi) {
        var k :| 0 <= k < |results| && results[k].id == x.doi;
        assert r[k] == results[k];
      } else {
        assert FromCrossRef(x) in r;
        var k :| 0 <= k < |r| && r[k] == FromCrossRef(x);
        assert r[k].id == x.doi;
      }
    }
  }

  lemma NothingNew(results: seq<SearchResult>, items: seq<CrossRefItem>)
    requires forall x :: x in items ==> HasId(results, x.doi)
    ensures NewItems(results, items) == []
  {
  }

  /** Merging the same batch again adds nothing: duplicates are never appended twice. */
  lemma MergeFamilyIdempotent(results: seq<SearchResult>, items: seq<CrossRefItem>)
    ensures var once := MergeFamilyResults(results, items);
      MergeFamilyResults(once, items) == once
  {
    var once := MergeFamilyResults(results, items);
    MergedDoisPresent(results, items);
    NothingNew(once, items);
    assert once + MapCrossRef([]) == once;
  }

  // ---------------------------------------------------------------------------
  // arXiv
  // ---------------------------------------------------------------------------

  const ARXIV_PDF_PREFIX := "https://arxiv.org/pdf/"

  /** The PDF address of an arXiv id: the id's last `/`-segment between the PDF prefix
      and ".pdf". */
  function ArxivPdfUrl(id: string): (r: string)
    ensures StartsWith(r, ARXIV_PDF_PREFIX) && EndsWith(r, ".pdf")
    ensures |r| >= |ARXIV_PDF_PREFIX| + 4
    ensures var middle := r[|ARXIV_PDF_PREFIX|..|r| - 4];
      '/' !in middle && EndsWith(id, middle) && ('/' !in id ==> middle == id)
      && ('/' in id ==> |middle| < |id| && id[|id| - |middle| - 1] == '/')
  {
    var middle := AfterLast(id, '/');
    var r := ARXIV_PDF_PREFIX + middle + ".pdf";
    assert r[..|ARXIV_PDF_PREFIX|] == ARXIV_PDF_PREFIX;
    assert r[|r| - 4..] == ".pdf";
    assert r[|ARXIV_PDF_PREFIX|..|r| - 4] == middle;
    r
  }

  const ENTRY_TAG := "<entry>"

  /** `feed.split('<entry>').slice(1)`: the pieces after each `<entry>` tag. The feed
      is a leading piece followed by the entries, each after its tag, and no entry
      holds a tag of its own. */
  function ArxivEntries(feed: string): (entries: seq<string>)
    ensures entries == [] <==> !Contains(feed, ENTRY_TAG)
    ensures forall k :: 0 <= k < |entries| ==> !Contains(entries[k], ENTRY_TAG)
    ensures exists lead :: IsEntrySplit(feed, lead, entries)
  {
    var parts := Split(feed, ENTRY_TAG);
    SplitSeveralIffContains(feed, ENTRY_TAG);
    SplitPiecesFree(feed, ENTRY_TAG);
    JoinSplit(feed, ENTRY_TAG);
    SplitFirstIsPrefix(feed, ENTRY_TAG);
    assert [parts[0]] + parts[1..] == parts;
    assert IsEntrySplit(feed, parts[0], parts[1..]);
    parts[1..]
  }

  /** `feed` is `lead`, a prefix without the tag, followed by each entry after an
      `<entry>` tag. */
  predicate IsEntrySplit(feed: string, lead: string, entries: seq<string>)
  {
    StartsWith(feed, lead) && !Contains(lead, ENTRY_TAG) && Join([lead] + entries, ENTRY_TAG) == feed
  }

  // ---------------------------------------------------------------------------
  // Import checks
  // ---------------------------------------------------------------------------

  /** One-tap add goes ahead only for a non-empty address starting with "http" and
      ending with ".pdf". */
  predicate IsDownloadablePdfUrl(url: Option<string>)
  {
    url.Some? && url.value != [] && StartsWith(url.value, "http") && EndsWith(url.value, ".pdf")
  }

  /** Every arXiv PDF address passes the one-tap check. */
  lemma ArxivPdfUrlDownloadable(id: string)
    ensures IsDownloadablePdfUrl(Some(ArxivPdfUrl(id)))
  {
    var r := ArxivPdfUrl(id);
    assert r[..4] == ARXIV_PDF_PREFIX[..4];
  }

  const PDF_MAGIC := "%PDF-"

  /** The check on the text read back from a downloaded file. */
  predicate HasPdfMagic(head: string)
  {
    StartsWith(head, PDF_MAGIC)
  }

  /** The check needs no more than five characters of the text read back: on them it
      agrees with the check on the whole text. */
  lemma MagicNeedsFiveCharacters(file: string)
    ensures HasPdfMagic(file[..if |file| < 5 then |file| else 5]) <==> StartsWith(file, PDF_MAGIC)
  {
    var head := file[..if |file| < 5 then |file| else 5];
    if StartsWith(file, PDF_MAGIC) {
      assert head[..5] == file[..5];
    }
    if HasPdfMagic(head) {
      assert file[..5] == head[..5];
    }
  }

  // ---------------------------------------------------------------------------
  // File names
  // ---------------------------------------------------------------------------

  /** `title.replace(/[^a-z0-9]/gi, '_')`. */
  function ReplaceNonAlnum(title: string): (r: string)
    ensures |r| == |title|
    ensures forall k :: 0 <= k < |r| ==> r[k] == if IsAsciiAlnum(title[k]) then title[k] else '_'
  {
    seq(|title|, k requires 0 <= k < |title| => if IsAsciiAlnum(title[k]) then title[k] else '_')
  }

  /** `toLowerCase()` on a string of ASCII letters, digits and underscores. */
  function ToLowerAscii(s: string): (r: string)
    ensures |r| == |s| && forall k :: 0 <= k < |s| ==> r[k] == AsciiLower(s[k])
  {
    seq(|s|, k requires 0 <= k < |s| => AsciiLower(s[k]))
  }

  /** The sanitised title: one character per title character, a lower-case letter or
      digit for each ASCII letter or digit and `_` for everything else. */
  function SanitizedStem(title: string): (r: string)
    ensures |r| == |title|
    ensures forall k :: 0 <= k < |r| ==> IsAsciiLower(r[k]) || IsDigit(r[k]) || r[k] == '_'
    ensures forall k :: 0 <= k < |r| ==> IsAsciiAlnum(title[k]) ==> AsciiLower(r[k]) == AsciiLower(title[k])
    ensures forall k :: 0 <= k < |r| ==> !IsAsciiAlnum(title[k]) ==> r[k] == '_'
  {
    ToLowerAscii(ReplaceNonAlnum(title))
  }

  /** Sanitising a sanitised title changes nothing. */
  lemma SanitizeIdempotent(title: string)
    ensures SanitizedStem(SanitizedStem(title)) == SanitizedStem(title)
  {
    var s := SanitizedStem(title);
    var t := SanitizedStem(s);
    forall k | 0 <= k < |s| ensures t[k] == s[k] {
      if IsAsciiAlnum(s[k]) {
        assert t[k] == AsciiLower(s[k]);
      }
    }
  }

  /** The name a PDF is saved under: the sanitised title, `_`, the timestamp in
      decimal, `.pdf`. It has no `/`, so the file stays in the documents directory. */
  function FileName(title: string, stamp: nat): (r: string)
    ensures '/' !in r
    ensures EndsWith(r, ".pdf") && StartsWith(r, SanitizedStem(title))
    ensures |r| == |title| + |Decimal(stamp)| + 5
    ensures r[|title|] == '_' && r[|title| + 1..|r| - 4] == Decimal(stamp)
  {
    var stem, digits := SanitizedStem(title), Decimal(stamp);
    var r := stem + "_" + digits + ".pdf";
    assert r[..|stem|] == stem && r[|r| - 4..] == ".pdf" && r[|title| + 1..|r| - 4] == digits;
    assert forall k :: 0 <= k < |r| ==> r[k] != '/' by {
      forall k | 0 <= k < |r| ensures r[k] != '/' {
        if k < |stem| {
        } else if |stem| < k < |stem| + 1 + |digits| {
          assert r[k] == digits[k - |stem| - 1] && IsDigit(digits[k - |stem| - 1]);
        }
      }
    }
    r
  }
}
