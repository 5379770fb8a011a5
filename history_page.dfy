/**
 * The keyword search of the history page: a blank keyword shows every record; otherwise
 * a record is shown when one of its text fields, lower-cased, contains the lower-cased
 * and trimmed keyword.
 */
module HistoryPage {
  import opened Wrappers
  import opened Text
  import opened Engines
  import opened Types
  import opened Sequences

  /** The keyword as it is searched for: lower-cased first, then trimmed. */
  function SearchTerm(e: Engines, keyword: string): string {
    Trim(e.toLowerCase(keyword))
  }

  /** `field.toLowerCase().includes(term)` */
  predicate FieldMatches(e: Engines, field: string, term: string) {
    Includes(e.toLowerCase(field), term)
  }

  /** `(field && field.toLowerCase().includes(term))`: an absent or empty field is falsy and never matches. */
  predicate OptionalFieldMatches(e: Engines, field: Option<string>, term: string) {
    field.Some? && field.value != "" && FieldMatches(e, field.value, term)
  }

  /** The record shows up for `term`: its URL pattern, URL, value, rule type, header name, parameter name or timestamp contains it. */
  predicate RecordMatches(e: Engines, record: HistoryRecord, term: string) {
    || FieldMatches(e, record.urlPattern, term)
    || FieldMatches(e, record.url, term)
    || FieldMatches(e, record.value, term)
    || FieldMatches(e, record.ruleType, term)
    || OptionalFieldMatches(e, record.headerName, term)
    || OptionalFieldMatches(e, record.paramName, term)
    || FieldMatches(e, record.timestamp, term)
  }

  /** The filter callback for one search term. */
  function MatcherFor(e: Engines, term: string): HistoryRecord -> bool {
    record => RecordMatches(e, record, term)
  }

  /** The page's `filteredRecords` for the loaded records and the typed keyword. */
  function FilterRecords(e: Engines, records: seq<HistoryRecord>, keyword: string): (r: seq<HistoryRecord>)
    ensures |r| <= |records|
  {
    if IsBlank(keyword) then records
    else Filter(records, MatcherFor(e, SearchTerm(e, keyword)))
  }

  /** A keyword of white space only (or none) shows every record, in stored order. */
  lemma BlankKeywordShowsAll(e: Engines, records: seq<HistoryRecord>, keyword: string)
    requires forall i :: 0 <= i < |keyword| ==> IsJsSpace(keyword[i])
    ensures FilterRecords(e, records, keyword) == records
  {
    BlankIffAllSpace(keyword);
  }

  /**
   * For any other keyword the page shows, newest first as stored, exactly the records that
   * match the search term: every record shown matches, every matching record is shown as
   * many times as it is stored, and the order is kept.
   */
  lemma FilterRecordsSpec(e: Engines, records: seq<HistoryRecord>, keyword: string)
    requires !IsBlank(keyword)
    ensures var r := FilterRecords(e, records, keyword);
            var term := SearchTerm(e, keyword);
            && SubsequenceOf(r, records)
            && (forall i :: 0 <= i < |r| ==> RecordMatches(e, r[i], term))
            && (forall i :: 0 <= i < |records| && RecordMatches(e, records[i], term) ==> records[i] in r)
            && (forall x :: multiset(r)[x] == if RecordMatches(e, x, term) then multiset(records)[x] else 0)
  {
    var term := SearchTerm(e, keyword);
    var keep := MatcherFor(e, term);
    var r := FilterRecords(e, records, keyword);
    assert r == Filter(records, keep);
    FilterIsSubsequence(records, keep);
    FilterMultiset(records, keep);
    forall x
      ensures multiset(r)[x] == if RecordMatches(e, x, term) then multiset(records)[x] else 0
    {
      assert keep(x) == RecordMatches(e, x, term);
    }
    forall i | 0 <= i < |r|
      ensures RecordMatches(e, r[i], term)
    {
      FilterAccepts(records, keep, i);
    }
    forall i | 0 <= i < |records| && RecordMatches(e, records[i], term)
      ensures records[i] in r
    {
      assert keep(records[i]);
      FilterKeeps(records, keep, i);
    }
  }

  /** A record whose header and parameter names are absent is found only through its other five fields. */
  lemma AbsentNamesNeverMatch(e: Engines, record: HistoryRecord, term: string)
    requires record.headerName.None? && record.paramName.None?
    ensures RecordMatches(e, record, term) <==>
              || FieldMatches(e, record.urlPattern, term) || FieldMatches(e, record.url, term)
              || FieldMatches(e, record.value, term) || FieldMatches(e, record.ruleType, term)
              || FieldMatches(e, record.timestamp, term)
  {
  }

  /**
   * Two non-blank keywords with the same lower-cased form select the same records: the
   * search ignores letter case. With `toLowerCase` an abstract engine, this is all that can
   * be said about case.
   */
  lemma SearchIgnoresCase(e: Engines, records: seq<HistoryRecord>, keyword1: string, keyword2: string)
    requires !IsBlank(keyword1) && !IsBlank(keyword2)
    requires e.toLowerCase(keyword1) == e.toLowerCase(keyword2)
    ensures FilterRecords(e, records, keyword1) == FilterRecords(e, records, keyword2)
  {
  }
}
