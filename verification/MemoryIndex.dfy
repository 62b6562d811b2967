/** The disposable memory index: two counts and one lookup per record decide its two tables. */
module MemoryIndex {
  import opened Values

  datatype MemoryRow = MemoryRow(kind: string, topic: string, active: bool)

  /** One canonical record as the memory index projects it. */
  datatype MemoryEntry = MemoryEntry(id: string, row: MemoryRow, text: string)

  ghost predicate DistinctEntries(expected: seq<MemoryEntry>) {
    forall i, j :: 0 <= i < j < |expected| ==> expected[i].id != expected[j].id
  }

  function SearchRows(expected: seq<MemoryEntry>): seq<(string, string)> {
    seq(|expected|, i requires 0 <= i < |expected| => (expected[i].id, expected[i].text))
  }

  function RecordRows(expected: seq<MemoryEntry>): map<string, MemoryRow> {
    if expected == [] then map[]
    else
      var last := expected[|expected| - 1];
      RecordRows(expected[..|expected| - 1])[last.id := last.row]
  }

  lemma {:induction false} RecordRowsKeys(expected: seq<MemoryEntry>, id: string)
    ensures id in RecordRows(expected) <==> exists i :: 0 <= i < |expected| && expected[i].id == id
  {
    if expected != [] {
      var n := |expected| - 1;
      RecordRowsKeys(expected[..n], id);
      if i :| 0 <= i < n && expected[i].id == id {
        assert expected[..n][i].id == id;
      }
    }
  }

  lemma {:induction false} RecordRowsSize(expected: seq<MemoryEntry>)
    requires DistinctEntries(expected)
    ensures |RecordRows(expected)| == |expected|
  {
    if expected != [] {
      var n := |expected| - 1;
      RecordRowsSize(expected[..n]);
      RecordRowsKeys(expected[..n], expected[n].id);
      FreshKey(RecordRows(expected[..n]), expected[n].id, expected[n].row);
    }
  }

  lemma {:induction false} RecordRowsAt(expected: seq<MemoryEntry>, i: nat)
    requires DistinctEntries(expected) && i < |expected|
    ensures expected[i].id in RecordRows(expected) && RecordRows(expected)[expected[i].id] == expected[i].row
  {
    var n := |expected| - 1;
    if i < n {
      RecordRowsAt(expected[..n], i);
      assert expected[..n][i] == expected[i];
    }
  }

  lemma FreshKey(m: map<string, MemoryRow>, id: string, row: MemoryRow)
    requires id !in m
    ensures |m[id := row]| == |m| + 1
  {
    assert m[id := row].Keys == m.Keys + {id};
  }

  /** Joins the two tables on an id; with several search rows the database may return any. */
  method JoinById(records: map<string, MemoryRow>, search: seq<(string, string)>, id: string)
    returns (row: Option<(MemoryRow, string)>)
    ensures row.Some? ==> id in records && row.value.0 == records[id] && (id, row.value.1) in search
    ensures row.None? ==> id !in records || forall text :: (id, text) !in search
  {
    row := None;
    if id in records {
      for i := 0 to |search|
        invariant row.Some? ==> row.value.0 == records[id] && (id, row.value.1) in search
        invariant row.None? ==> forall k :: 0 <= k < i ==> search[k].0 != id
      {
        if search[i].0 == id {
          row := Some((records[id], search[i].1));
        }
      }
    }
  }

  /** Two counts and one lookup per record decide exactly whether both tables are the projection. */
  method MemoryHealthCheck(records: map<string, MemoryRow>, search: seq<(string, string)>, expected: seq<MemoryEntry>)
    returns (healthy: bool)
    requires DistinctEntries(expected)
    ensures healthy <==> records == RecordRows(expected) && multiset(search) == multiset(SearchRows(expected))
  {
    RecordRowsSize(expected);
    if |records| != |expected| || |search| != |expected| {
      assert |multiset(search)| == |search| && |multiset(SearchRows(expected))| == |expected|;
      return false;
    }
    ghost var matching := records == RecordRows(expected) && multiset(search) == multiset(SearchRows(expected));
    for i := 0 to |expected|
      invariant forall k :: 0 <= k < i ==>
                  && expected[k].id in records && records[expected[k].id] == expected[k].row
                  && (expected[k].id, expected[k].text) in search
    {
      if matching {
        RecordRowsAt(expected, i);
        OneSearchRow(search, expected, i);
      }
      var row := JoinById(records, search, expected[i].id);
      assert matching ==> expected[i].id in records && (expected[i].id, expected[i].text) in search;
      if row != Some((expected[i].row, expected[i].text)) {
        return false;
      }
    }
    healthy := true;
    SameSearchRows(search, expected);
    SameRecordRows(records, expected);
  }

  lemma OneSearchRow(search: seq<(string, string)>, expected: seq<MemoryEntry>, i: nat)
    requires DistinctEntries(expected) && i < |expected| && multiset(search) == multiset(SearchRows(expected))
    ensures forall text :: (expected[i].id, text) in search <==> text == expected[i].text
  {
    var rows := SearchRows(expected);
    forall text ensures (expected[i].id, text) in search <==> text == expected[i].text {
      var r := (expected[i].id, text);
      assert r in multiset(search) <==> r in multiset(rows);
      if r in rows {
        var k :| 0 <= k < |rows| && rows[k] == r;
      }
      assert rows[i] in rows;
    }
  }

  lemma SameSearchRows(search: seq<(string, string)>, expected: seq<MemoryEntry>)
    requires DistinctEntries(expected) && |search| == |expected|
    requires forall k :: 0 <= k < |expected| ==> (expected[k].id, expected[k].text) in search
    ensures multiset(search) == multiset(SearchRows(expected))
  {
    var rows := SearchRows(expected);
    OncePerId(expected);
    forall r ensures multiset(rows)[r] <= multiset(search)[r] {
      if r in rows {
        var k :| 0 <= k < |rows| && rows[k] == r;
        assert r in search;
      }
    }
    assert multiset(search) == multiset(rows) + (multiset(search) - multiset(rows));
    assert |multiset(search) - multiset(rows)| == 0;
  }

  lemma {:induction false} OncePerId(expected: seq<MemoryEntry>)
    requires DistinctEntries(expected)
    ensures forall r :: multiset(SearchRows(expected))[r] <= 1
  {
    if expected != [] {
      var n := |expected| - 1;
      OncePerId(expected[..n]);
      assert SearchRows(expected) == SearchRows(expected[..n]) + [(expected[n].id, expected[n].text)];
      assert (expected[n].id, expected[n].text) !in SearchRows(expected[..n]);
    }
  }

  lemma SameRecordRows(records: map<string, MemoryRow>, expected: seq<MemoryEntry>)
    requires DistinctEntries(expected) && |records| == |expected|
    requires forall k :: 0 <= k < |expected| ==> expected[k].id in records && records[expected[k].id] == expected[k].row
    ensures records == RecordRows(expected)
  {
    var rows := RecordRows(expected);
    RecordRowsSize(expected);
    forall id | id in rows ensures id in records && records[id] == rows[id] {
      RecordRowsKeys(expected, id);
      var i :| 0 <= i < |expected| && expected[i].id == id;
      RecordRowsAt(expected, i);
    }
    assert rows.Keys <= records.Keys;
    SameSizeSubset(rows.Keys, records.Keys);
  }

  lemma SameSizeSubset(a: set<string>, b: set<string>)
    requires a <= b && |a| == |b|
    ensures a == b
  {
    assert |b - a| == |b| - |a|;
  }
}
