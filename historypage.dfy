/** The history page, src/pages/BuildHistory.tsx: a read-only view of the
    build history filtered by a search term and a status. */
module HistoryPage {
  import opened Wrappers
  import opened Strings
  import opened Filtering
  import opened HistoryLog

  /** `text.toLowerCase().includes(term.toLowerCase())`. */
  predicate MatchesText(text: string, term: string)
  {
    Contains(Lower(text), Lower(term))
  }

  /** `matchesSearch`: the term occurs, ignoring case, in the component, the
      branch or the tag; a record without a tag can match only by the first
      two. */
  predicate MatchesSearch(entry: BuildEntry, term: string)
  {
    || MatchesText(entry.component, term)
    || MatchesText(entry.branch, term)
    || (entry.tag.Some? && MatchesText(entry.tag.value, term))
  }

  /** `matchesStatus`. */
  predicate MatchesStatus(entry: BuildEntry, statusFilter: string)
  {
    statusFilter == "All" || StatusName(entry.status) == statusFilter
  }

  /** The page's filter predicate. */
  function Keep(term: string, statusFilter: string): BuildEntry -> bool
  {
    (e: BuildEntry) => MatchesSearch(e, term) && MatchesStatus(e, statusFilter)
  }

  /** `filteredHistory`: keeps exactly the records that match both the
      search and the status filter, in their history order. Records can
      repeat, so it also keeps every copy of a matching record. */
  function FilteredHistory(history: seq<BuildEntry>, term: string, statusFilter: string): (r: seq<BuildEntry>)
    ensures forall e :: e in r <==> e in history && MatchesSearch(e, term) && MatchesStatus(e, statusFilter)
    ensures forall e :: multiset(r)[e] ==
              if MatchesSearch(e, term) && MatchesStatus(e, statusFilter) then multiset(history)[e] else 0
    ensures IsSubsequence(r, history)
  {
    FilterIsSubsequence(history, Keep(term, statusFilter));
    Filter(history, Keep(term, statusFilter))
  }

  /** An empty search with "All" shows the whole history. */
  lemma EmptySearchShowsAll(history: seq<BuildEntry>)
    ensures FilteredHistory(history, "", "All") == history
  {
    forall i | 0 <= i < |history| ensures Keep("", "All")(history[i]) {
      ContainsEmpty(Lower(history[i].component));
    }
    FilterKeepsAll(history, Keep("", "All"));
  }

  /** A record without a tag is kept only through its component or
      branch. */
  lemma UntaggedMatch(entry: BuildEntry, term: string)
    requires entry.tag.None?
    ensures MatchesSearch(entry, term) <==> MatchesText(entry.component, term) || MatchesText(entry.branch, term)
  {
  }

  /** Filtering the view again with the same term and status changes
      nothing. */
  lemma FilteredHistoryIdempotent(history: seq<BuildEntry>, term: string, statusFilter: string)
    ensures FilteredHistory(FilteredHistory(history, term, statusFilter), term, statusFilter)
            == FilteredHistory(history, term, statusFilter)
  {
    FilterIdempotent(history, Keep(term, statusFilter));
  }

  /** With a real status, only records of that status are shown. */
  lemma StatusFilterExact(history: seq<BuildEntry>, term: string, status: EntryStatus)
    ensures forall e :: e in FilteredHistory(history, term, StatusName(status)) ==> e.status == status
  {
    forall e | e in FilteredHistory(history, term, StatusName(status)) ensures e.status == status {
      StatusNameInjective(e.status, status);
    }
  }
}
