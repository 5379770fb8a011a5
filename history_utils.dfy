/**
 * The capture history: a list of at most 30 records kept newest first under the
 * `historyRecords` key. Adding a record puts it at the front and evicts the oldest beyond
 * the cap; identical records are not merged.
 */
module HistoryUtils {
  import opened Wrappers
  import opened Types
  import opened Storage

  const MaxHistoryRecords: nat := 30

  /** A record before it gets its id (`Omit<HistoryRecord, 'id'>`). */
  datatype RecordFields = RecordFields(
    ruleType: string,
    urlPattern: string,
    headerName: Option<string>,
    paramName: Option<string>,
    value: string,
    timestamp: string,
    url: string)

  /** The fields of a stored record other than its id. */
  function FieldsOf(h: HistoryRecord): RecordFields {
    RecordFields(h.ruleType, h.urlPattern, h.headerName, h.paramName, h.value, h.timestamp, h.url)
  }

  /** `{ ...record, id }`: the stored record is the given fields plus the generated id. */
  function WithId(record: RecordFields, id: string): (h: HistoryRecord)
    ensures h.id == id && FieldsOf(h) == record
  {
    HistoryRecord(id, record.ruleType, record.urlPattern, record.headerName, record.paramName,
                  record.value, record.timestamp, record.url)
  }

  function Min(a: nat, b: nat): nat {
    if a < b then a else b
  }

  /**
   * The list after adding `h` to `records`: `h` first, then the newest
   * `min(|records|, 29)` old records in their order; the oldest are evicted.
   */
  function Added(records: seq<HistoryRecord>, h: HistoryRecord): (r: seq<HistoryRecord>)
    ensures |r| == Min(|records| + 1, MaxHistoryRecords)
    ensures r[0] == h
    ensures r[1..] == records[..Min(|records|, MaxHistoryRecords - 1)]
  {
    var all := [h] + records;
    if |all| > MaxHistoryRecords then all[..MaxHistoryRecords] else all
  }

  /** `result.historyRecords || []` */
  function HistoryIn(d: Data): (records: seq<HistoryRecord>)
    ensures HistoryRecordsKey !in d ==> records == []
  {
    if HistoryRecordsKey in d && d[HistoryRecordsKey].StoredHistory? then d[HistoryRecordsKey].records else []
  }

  /** The list after adding each of `hs` in turn. */
  function AddedAll(records: seq<HistoryRecord>, hs: seq<HistoryRecord>): seq<HistoryRecord>
    decreases |hs|
  {
    if hs == [] then records else AddedAll(Added(records, hs[0]), hs[1..])
  }

  /**
   * However many records are added, the list never holds more than 30, and it holds
   * exactly as many as were there and were added up to that cap.
   */
  lemma {:induction false} AddedAllLength(records: seq<HistoryRecord>, hs: seq<HistoryRecord>)
    requires |records| <= MaxHistoryRecords
    ensures |AddedAll(records, hs)| == Min(|records| + |hs|, MaxHistoryRecords)
    decreases |hs|
  {
    if hs != [] {
      AddedAllLength(Added(records, hs[0]), hs[1..]);
    }
  }

  /** Adding a 31st record to a full list evicts exactly the oldest one. */
  lemma FullListEvictsOldest(records: seq<HistoryRecord>, h: HistoryRecord)
    requires |records| == MaxHistoryRecords
    ensures Added(records, h) == [h] + records[..MaxHistoryRecords - 1]
  {
    var r := Added(records, h);
    assert r == [h] + r[1..];
  }

  /** `addHistoryRecord(record)`: the generated id is a parameter. */
  method AddHistoryRecord(store: LocalStore, record: RecordFields, id: string)
    modifies store
    ensures store.data == old(store.data)[HistoryRecordsKey := StoredHistory(Added(HistoryIn(old(store.data)), WithId(record, id)))]
  {
    var v := store.Get(HistoryRecordsKey);
    var historyRecords := if v.Some? && v.value.StoredHistory? then v.value.records else [];
    var newRecord := WithId(record, id);
    historyRecords := [newRecord] + historyRecords;
    if |historyRecords| > MaxHistoryRecords {
      historyRecords := historyRecords[..MaxHistoryRecords];
    }
    store.Set(HistoryRecordsKey, StoredHistory(historyRecords));
  }

  /** `getHistoryRecords()` */
  method GetHistoryRecords(store: LocalStore) returns (records: seq<HistoryRecord>)
    ensures records == HistoryIn(store.data)
  {
    var v := store.Get(HistoryRecordsKey);
    records := if v.Some? && v.value.StoredHistory? then v.value.records else [];
  }

  /** `clearHistoryRecords()` */
  method ClearHistoryRecords(store: LocalStore)
    modifies store
    ensures store.data == old(store.data)[HistoryRecordsKey := StoredHistory([])]
    ensures HistoryIn(store.data) == []
  {
    store.Set(HistoryRecordsKey, StoredHistory([]));
  }
}
