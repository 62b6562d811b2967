/**
 * What the issue cache must hold: for every catalog, each table's rows in the order of its key.
 *
 * A row has the key its table is ordered by and all its columns; `IsProjection` says which rows a
 * catalog calls for, without the order in which the tables are filled.
 */
module IssueProjection {
  import opened Texts

  /** The columns a table is ordered by; a table leaves the ones it does not have blank. */
  datatype Key = Key(id: string, relationship: string, ordinal: nat)

  /** A column of a row: its name, and its value with the text that stands for it in JSON. */
  datatype Cell = Null | Number(digits: string) | Text(text: string, quoted: string)

  datatype AnyColumn = Column(name: string, cell: Cell)

  /** A number has a digit; a text is quoted, and escapes only add to it. */
  predicate IsColumn(column: AnyColumn) {
    match column.cell
    case Null => true
    case Number(digits) => |digits| >= 1
    case Text(text, quoted) => |quoted| >= |text| + 2
  }

  type Column = column: AnyColumn | IsColumn(column) witness Column("", Null)

  type Columns = seq<Column>

  /** A row by its key and all its columns. */
  datatype Row = Row(key: Key, columns: Columns)

  // ---------------------------------------------------------------- keys

  /** Lexicographic order of the key columns, as in the queries. */
  predicate Before(a: Key, b: Key) {
    || Less(a.id, b.id)
    || (a.id == b.id && Less(a.relationship, b.relationship))
    || (a.id == b.id && a.relationship == b.relationship && a.ordinal < b.ordinal)
  }

  lemma BeforeIsTotal(a: Key, b: Key)
    ensures Before(a, b) ==> !Before(b, a) && a != b
    ensures Before(a, b) || Before(b, a) || a == b
  {
    LessIsTotal(a.id, b.id);
    LessIsTotal(a.relationship, b.relationship);
  }

  lemma BeforeIsTransitive(a: Key, b: Key, c: Key)
    requires Before(a, b) && Before(b, c)
    ensures Before(a, c)
  {
    if Less(a.id, b.id) && Less(b.id, c.id) {
      LessIsTransitive(a.id, b.id, c.id);
    }
    if Less(a.relationship, b.relationship) && Less(b.relationship, c.relationship) {
      LessIsTransitive(a.relationship, b.relationship, c.relationship);
    }
  }

  ghost predicate Sorted(rows: seq<Row>) {
    forall i, j :: 0 <= i < j < |rows| ==> !Before(rows[j].key, rows[i].key)
  }

  ghost predicate StrictlySorted(rows: seq<Row>) {
    forall i, j :: 0 <= i < j < |rows| ==> Before(rows[i].key, rows[j].key)
  }

  // ---------------------------------------------------------------- selection

  /** The rows in `above` are read in order as `page`, those in `rest` follow them. */
  ghost predicate Divided(above: multiset<Row>, page: seq<Row>, rest: seq<Row>) {
    multiset(page + rest) == above && Sorted(page) && Follows(page, rest)
  }

  ghost predicate Follows(page: seq<Row>, rest: seq<Row>) {
    forall p, r :: p in page && r in rest ==> !Before(r.key, p.key)
  }

  ghost predicate NoneBefore(rows: seq<Row>, n: nat, key: Key) {
    forall k :: 0 <= k < n && k < |rows| ==> !Before(rows[k].key, key)
  }

  method LeastRow(rows: seq<Row>) returns (least: nat)
    requires rows != []
    ensures least < |rows| && NoneBefore(rows, |rows|, rows[least].key)
  {
    least := 0;
    BeforeIsTotal(rows[0].key, rows[0].key);
    for i := 1 to |rows|
      invariant least < |rows| && NoneBefore(rows, i, rows[least].key)
    {
      if Before(rows[i].key, rows[least].key) {
        SmallerLeast(rows, i, rows[least].key);
        least := i;
      }
    }
  }

  lemma SmallerLeast(rows: seq<Row>, i: nat, key: Key)
    requires i < |rows| && NoneBefore(rows, i, key) && Before(rows[i].key, key)
    ensures NoneBefore(rows, i + 1, rows[i].key)
  {
    forall k | 0 <= k <= i ensures !Before(rows[k].key, rows[i].key) {
      BeforeIsTotal(rows[i].key, rows[i].key);
      if Before(rows[k].key, rows[i].key) {
        BeforeIsTransitive(rows[k].key, rows[i].key, key);
      }
    }
  }

  lemma DividedStep(above: multiset<Row>, page: seq<Row>, rest: seq<Row>, least: nat)
    requires Divided(above, page, rest) && least < |rest| && NoneBefore(rest, |rest|, rest[least].key)
    ensures Divided(above, page + [rest[least]], rest[..least] + rest[least + 1..])
  {
    var row, others := rest[least], rest[..least] + rest[least + 1..];
    SameRows(page, rest, least);
    assert row in rest;
    forall p, r: Row | p in page + [row] && r in others ensures !Before(r.key, p.key) {
      assert r in rest;
    }
  }

  lemma SameRows(page: seq<Row>, rest: seq<Row>, k: nat)
    requires k < |rest|
    ensures multiset(page + [rest[k]] + (rest[..k] + rest[k + 1..])) == multiset(page + rest)
  {
    assert page + rest == page + rest[..k] + [rest[k]] + rest[k + 1..];
    assert page + [rest[k]] + (rest[..k] + rest[k + 1..]) == page + [rest[k]] + rest[..k] + rest[k + 1..];
  }

  /** The first rows in key order, and those that are left. */
  method Select(rows: seq<Row>, limit: nat) returns (page: seq<Row>, rest: seq<Row>)
    ensures Divided(multiset(rows), page, rest)
    ensures |page| <= limit && (|page| < limit ==> rest == [])
  {
    page, rest := [], rows;
    assert [] + rest == rest;
    while |page| < limit && rest != []
      invariant |page| <= limit && Divided(multiset(rows), page, rest)
      decreases |rest|
    {
      var least := LeastRow(rest);
      DividedStep(multiset(rows), page, rest, least);
      page, rest := page + [rest[least]], rest[..least] + rest[least + 1..];
    }
  }

  // ---------------------------------------------------------------- the projection

  /** One catalog issue as the rows it contributes, lists in their canonical order. */
  datatype Entry = Entry(issue: Columns, search: Columns, metadata: Columns, hierarchy: Columns,
                         dependsOn: seq<Columns>, relatesTo: seq<Columns>, duplicates: seq<Columns>,
                         supersedes: seq<Columns>,
                         comments: seq<Columns>, links: seq<Columns>)

  datatype Table = Issues | Search | Metadata | Hierarchy | Relationships | Comments | Links

  datatype CacheProjection = CacheProjection(issues: seq<Row>, search: seq<Row>, metadata: seq<Row>,
                                             hierarchy: seq<Row>,
                                             relationships: seq<Row>, comments: seq<Row>, links: seq<Row>)

  const RELATIONSHIPS: seq<string> := ["depends_on", "relates_to", "duplicates", "supersedes"]

  function Kinds(table: Table): seq<string> {
    if table.Relationships? then RELATIONSHIPS else [""]
  }

  function Items(entry: Entry, table: Table, kind: string): seq<Columns> {
    match table
    case Issues => [entry.issue]
    case Search => [entry.search]
    case Metadata => [entry.metadata]
    case Hierarchy => [entry.hierarchy]
    case Comments => entry.comments
    case Links => entry.links
    case Relationships =>
      if kind == "depends_on" then entry.dependsOn
      else if kind == "relates_to" then entry.relatesTo
      else if kind == "duplicates" then entry.duplicates
      else entry.supersedes
  }

  function TableRows(projection: CacheProjection, table: Table): seq<Row> {
    match table
    case Issues => projection.issues
    case Search => projection.search
    case Metadata => projection.metadata
    case Hierarchy => projection.hierarchy
    case Relationships => projection.relationships
    case Comments => projection.comments
    case Links => projection.links
  }

  /** The row is one of those that the catalog calls for. */
  ghost predicate IsProjected(catalog: map<string, Entry>, table: Table, row: Row) {
    row.key.id in catalog && IsListed(catalog[row.key.id], table, row)
  }

  ghost predicate IsListed(entry: Entry, table: Table, row: Row) {
    row.key.relationship in Kinds(table) && HasItem(entry, table, row)
  }

  ghost predicate HasItem(entry: Entry, table: Table, row: Row) {
    && row.key.ordinal < |Items(entry, table, row.key.relationship)|
    && row.columns == Items(entry, table, row.key.relationship)[row.key.ordinal]
  }

  /** Exactly the rows the catalog calls for, in the order in which the queries return them. */
  ghost predicate IsTable(catalog: map<string, Entry>, table: Table, rows: seq<Row>) {
    StrictlySorted(rows) && forall row :: row in rows <==> IsProjected(catalog, table, row)
  }

  ghost predicate IsProjection(catalog: map<string, Entry>, projection: CacheProjection) {
    forall table :: IsTable(catalog, table, TableRows(projection, table))
  }

  function RowsOf(id: string, kind: string, items: seq<Columns>): seq<Row> {
    seq(|items|, i requires 0 <= i < |items| => Row(Key(id, kind, i), items[i]))
  }

  function KindRows(id: string, entry: Entry, table: Table, kinds: seq<string>, n: nat): seq<Row>
    requires n <= |kinds|
  {
    if n == 0 then []
    else KindRows(id, entry, table, kinds, n - 1) + RowsOf(id, kinds[n - 1], Items(entry, table, kinds[n - 1]))
  }

  function IssueRows(id: string, entry: Entry, table: Table): seq<Row> {
    KindRows(id, entry, table, Kinds(table), |Kinds(table)|)
  }

  /** The rows in the order in which they are pushed, issue by issue. */
  function Pushed(catalog: map<string, Entry>, ids: seq<string>, table: Table, n: nat): seq<Row>
    requires n <= |ids| && forall id :: id in ids ==> id in catalog
  {
    if n == 0 then []
    else Pushed(catalog, ids, table, n - 1) + IssueRows(ids[n - 1], catalog[ids[n - 1]], table)
  }

  ghost predicate DistinctKeys(rows: seq<Row>) {
    forall i, j :: 0 <= i < j < |rows| ==> rows[i].key != rows[j].key
  }

  lemma DistinctConcat(a: seq<Row>, b: seq<Row>)
    requires DistinctKeys(a) && DistinctKeys(b) && forall r, s :: r in a && s in b ==> r.key != s.key
    ensures DistinctKeys(a + b)
  {
  }

  lemma SortedConcat(a: seq<Row>, b: seq<Row>)
    requires StrictlySorted(a) && StrictlySorted(b) && forall r, s :: r in a && s in b ==> Before(r.key, s.key)
    ensures StrictlySorted(a + b)
  {
  }

  lemma RowsOfItems(id: string, kind: string, items: seq<Columns>)
    ensures StrictlySorted(RowsOf(id, kind, items)) && DistinctKeys(RowsOf(id, kind, items))
  {
  }

  lemma ItemRows(id: string, kind: string, items: seq<Columns>, row: Row)
    ensures row in RowsOf(id, kind, items)
            <==> row.key.id == id && row.key.relationship == kind
                 && row.key.ordinal < |items| && row.columns == items[row.key.ordinal]
  {
    if row.key.id == id && row.key.relationship == kind && row.key.ordinal < |items|
       && row.columns == items[row.key.ordinal] {
      assert RowsOf(id, kind, items)[row.key.ordinal] == row;
    }
  }

  ghost predicate AmongFirst(values: seq<string>, n: nat, value: string)
    requires n <= |values|
  {
    exists k :: 0 <= k < n && values[k] == value
  }

  lemma {:induction false} KindRowsListed(id: string, entry: Entry, table: Table, kinds: seq<string>, n: nat, row: Row)
    requires n <= |kinds|
    ensures row in KindRows(id, entry, table, kinds, n)
            <==> row.key.id == id && AmongFirst(kinds, n, row.key.relationship) && HasItem(entry, table, row)
  {
    if n > 0 {
      KindRowsListed(id, entry, table, kinds, n - 1, row);
      ItemRows(id, kinds[n - 1], Items(entry, table, kinds[n - 1]), row);
      NextAmongFirst(kinds, n, row.key.relationship);
    }
  }

  lemma NextAmongFirst(values: seq<string>, n: nat, value: string)
    requires 0 < n <= |values|
    ensures AmongFirst(values, n, value) <==> AmongFirst(values, n - 1, value) || value == values[n - 1]
  {
    if value == values[n - 1] {
      assert AmongFirst(values, n, value);
    }
  }

  lemma KindsAreDistinct(table: Table)
    ensures Distinct(Kinds(table))
  {
    assert "depends_on"[0] != "relates_to"[0] && "duplicates"[1] != "depends_on"[1]
           && "duplicates"[0] != "relates_to"[0];
    assert "supersedes"[0] == 's';
  }

  lemma {:induction false} KindRowsDistinct(id: string, entry: Entry, table: Table, kinds: seq<string>, n: nat)
    requires n <= |kinds| && Distinct(kinds)
    ensures DistinctKeys(KindRows(id, entry, table, kinds, n))
  {
    if n > 0 {
      var before, block := KindRows(id, entry, table, kinds, n - 1),
                             RowsOf(id, kinds[n - 1], Items(entry, table, kinds[n - 1]));
      KindRowsDistinct(id, entry, table, kinds, n - 1);
      RowsOfItems(id, kinds[n - 1], Items(entry, table, kinds[n - 1]));
      forall r, s | r in before && s in block ensures r.key != s.key {
        KindRowsListed(id, entry, table, kinds, n - 1, r);
      }
      DistinctConcat(before, block);
    }
  }

  lemma OneKind(id: string, entry: Entry, table: Table)
    requires !table.Relationships?
    ensures StrictlySorted(IssueRows(id, entry, table))
  {
    RowsOfItems(id, "", Items(entry, table, ""));
    SingleKindRows(id, entry, table);
  }

  lemma {:induction false} PushedListed(catalog: map<string, Entry>, ids: seq<string>, table: Table, n: nat, row: Row)
    requires n <= |ids| && forall id :: id in ids ==> id in catalog
    ensures row in Pushed(catalog, ids, table, n)
            <==> AmongFirst(ids, n, row.key.id) && IsProjected(catalog, table, row)
  {
    if n > 0 {
      PushedListed(catalog, ids, table, n - 1, row);
      ListedStep(catalog, ids[n - 1], table, Pushed(catalog, ids, table, n - 1), row);
      NextAmongFirst(ids, n, row.key.id);
    }
  }

  lemma ListedStep(catalog: map<string, Entry>, id: string, table: Table, before: seq<Row>, row: Row)
    requires id in catalog
    ensures row in before + IssueRows(id, catalog[id], table)
            <==> row in before || (row.key.id == id && IsProjected(catalog, table, row))
  {
    IssueRowsListed(id, catalog[id], table, row);
  }

  lemma IssueRowsListed(id: string, entry: Entry, table: Table, row: Row)
    ensures row in IssueRows(id, entry, table) <==> row.key.id == id && IsListed(entry, table, row)
  {
    KindRowsListed(id, entry, table, Kinds(table), |Kinds(table)|, row);
  }

  lemma EarlierIssue(catalog: map<string, Entry>, ids: seq<string>, table: Table, n: nat, r: Row, s: Row)
    requires 0 < n <= |ids| && Ascending(ids) && forall id :: id in ids ==> id in catalog
    requires r in Pushed(catalog, ids, table, n - 1)
    requires s in IssueRows(ids[n - 1], catalog[ids[n - 1]], table)
    ensures Before(r.key, s.key) && r.key != s.key
  {
    PushedListed(catalog, ids, table, n - 1, r);
    IssueRowsListed(ids[n - 1], catalog[ids[n - 1]], table, s);
    LessIsTotal(r.key.id, s.key.id);
  }

  lemma {:induction false} PushedDistinct(catalog: map<string, Entry>, ids: seq<string>, table: Table, n: nat)
    requires n <= |ids| && Ascending(ids) && forall id :: id in ids ==> id in catalog
    ensures DistinctKeys(Pushed(catalog, ids, table, n))
  {
    if n > 0 {
      var id := ids[n - 1];
      var before, block := Pushed(catalog, ids, table, n - 1), IssueRows(id, catalog[id], table);
      PushedDistinct(catalog, ids, table, n - 1);
      KindsAreDistinct(table);
      KindRowsDistinct(id, catalog[id], table, Kinds(table), |Kinds(table)|);
      forall r, s | r in before && s in block ensures r.key != s.key {
        EarlierIssue(catalog, ids, table, n, r, s);
      }
      DistinctConcat(before, block);
    }
  }

  /** Every table but one is pushed in key order. */
  lemma {:induction false} PushedSorted(catalog: map<string, Entry>, ids: seq<string>, table: Table, n: nat)
    requires n <= |ids| && Ascending(ids) && (forall id :: id in ids ==> id in catalog) && !table.Relationships?
    ensures StrictlySorted(Pushed(catalog, ids, table, n))
  {
    if n > 0 {
      var id := ids[n - 1];
      var before, block := Pushed(catalog, ids, table, n - 1), IssueRows(id, catalog[id], table);
      PushedSorted(catalog, ids, table, n - 1);
      OneKind(id, catalog[id], table);
      forall r, s | r in before && s in block ensures Before(r.key, s.key) {
        EarlierIssue(catalog, ids, table, n, r, s);
      }
      SortedConcat(before, block);
    }
  }

  /** The relationships need their own sort: kinds are pushed in an order that is not theirs. */
  lemma RelationshipsOutOfOrder(id: string, entry: Entry)
    requires entry.relatesTo != [] && entry.duplicates != []
    ensures !Sorted(IssueRows(id, entry, Relationships))
  {
    var rows := IssueRows(id, entry, Relationships);
    var first, second := Row(Key(id, "relates_to", 0), entry.relatesTo[0]),
                           Row(Key(id, "duplicates", 0), entry.duplicates[0]);
    var head, a, b := KindRows(id, entry, Relationships, RELATIONSHIPS, 1), RowsOf(id, "relates_to", entry.relatesTo),
      RowsOf(id, "duplicates", entry.duplicates);
    assert KindRows(id, entry, Relationships, RELATIONSHIPS, 3) == head + a + b;
    assert rows[|head|] == a[0] == first;
    assert rows[|head| + |a|] == b[0] == second;
    assert Before(second.key, first.key);
  }

  lemma SortedPermutation(rows: seq<Row>, sorted: seq<Row>)
    requires DistinctKeys(rows) && Sorted(sorted) && multiset(rows) == multiset(sorted)
    ensures StrictlySorted(sorted) && forall row :: row in sorted <==> row in rows
  {
    forall row ensures row in sorted <==> row in rows {
      assert row in multiset(rows) <==> row in multiset(sorted);
    }
    forall i, j | 0 <= i < j < |sorted| ensures Before(sorted[i].key, sorted[j].key) {
      BeforeIsTotal(sorted[i].key, sorted[j].key);
      if sorted[i].key == sorted[j].key {
        SameKeySameRow(rows, sorted[i], sorted[j]);
        OnceByKey(rows);
        CountTwice(sorted, i, j);
      }
    }
  }

  lemma SameKeySameRow(rows: seq<Row>, r: Row, s: Row)
    requires DistinctKeys(rows) && r in rows && s in rows && r.key == s.key
    ensures r == s
  {
  }

  lemma {:induction false} OnceByKey(rows: seq<Row>)
    requires DistinctKeys(rows)
    ensures forall r :: multiset(rows)[r] <= 1
  {
    if rows != [] {
      var n := |rows| - 1;
      OnceByKey(rows[..n]);
      assert rows == rows[..n] + [rows[n]];
    }
  }

  lemma CountTwice(rows: seq<Row>, i: nat, j: nat)
    requires i < j < |rows| && rows[i] == rows[j]
    ensures multiset(rows)[rows[i]] >= 2
  {
    assert rows == rows[..j] + [rows[j]] + rows[j + 1..];
    assert rows[i] in rows[..j];
  }

  method PushItems(rows: seq<Row>, id: string, kind: string, items: seq<Columns>) returns (pushed: seq<Row>)
    ensures pushed == rows + RowsOf(id, kind, items)
  {
    pushed := rows;
    for ordinal := 0 to |items|
      invariant pushed == rows + RowsOf(id, kind, items)[..ordinal]
    {
      pushed := pushed + [Row(Key(id, kind, ordinal), items[ordinal])];
    }
  }

  method PushRelationships(rows: seq<Row>, id: string, entry: Entry) returns (pushed: seq<Row>)
    ensures pushed == rows + IssueRows(id, entry, Relationships)
  {
    var kinds := RELATIONSHIPS;
    pushed := rows;
    for n := 0 to |kinds|
      invariant pushed == rows + KindRows(id, entry, Relationships, kinds, n)
    {
      ghost var before := KindRows(id, entry, Relationships, kinds, n);
      pushed := PushItems(pushed, id, kinds[n], Items(entry, Relationships, kinds[n]));
      assert pushed == rows + (before + RowsOf(id, kinds[n], Items(entry, Relationships, kinds[n])));
    }
  }

  method PushIssue(projection: CacheProjection, id: string, entry: Entry) returns (pushed: CacheProjection)
    ensures forall table :: TableRows(pushed, table) == TableRows(projection, table) + IssueRows(id, entry, table)
  {
    var relationships := PushRelationships(projection.relationships, id, entry);
    var comments := PushItems(projection.comments, id, "", entry.comments);
    var links := PushItems(projection.links, id, "", entry.links);
    pushed := CacheProjection(
      projection.issues + [Row(Key(id, "", 0), entry.issue)],
      projection.search + [Row(Key(id, "", 0), entry.search)],
      projection.metadata + [Row(Key(id, "", 0), entry.metadata)],
      projection.hierarchy + [Row(Key(id, "", 0), entry.hierarchy)],
      relationships, comments, links);
    forall table ensures TableRows(pushed, table) == TableRows(projection, table) + IssueRows(id, entry, table) {
      if !table.Relationships? {
        PushedTable(projection, pushed, id, entry, table);
      }
    }
  }

  /** A table of one kind gets one row, or those of one list. */
  lemma PushedTable(projection: CacheProjection, pushed: CacheProjection, id: string, entry: Entry, table: Table)
    requires !table.Relationships?
    requires pushed.issues == projection.issues + [Row(Key(id, "", 0), entry.issue)]
    requires pushed.search == projection.search + [Row(Key(id, "", 0), entry.search)]
    requires pushed.metadata == projection.metadata + [Row(Key(id, "", 0), entry.metadata)]
    requires pushed.hierarchy == projection.hierarchy + [Row(Key(id, "", 0), entry.hierarchy)]
    requires pushed.comments == projection.comments + RowsOf(id, "", entry.comments)
    requires pushed.links == projection.links + RowsOf(id, "", entry.links)
    ensures TableRows(pushed, table) == TableRows(projection, table) + IssueRows(id, entry, table)
  {
    SingleKindRows(id, entry, table);
    if !table.Comments? && !table.Links? {
      SingleItem(id, Items(entry, table, ""));
    }
  }

  lemma SingleItem(id: string, items: seq<Columns>)
    requires |items| == 1
    ensures RowsOf(id, "", items) == [Row(Key(id, "", 0), items[0])]
  {
  }

  lemma SingleKindRows(id: string, entry: Entry, table: Table)
    requires !table.Relationships?
    ensures IssueRows(id, entry, table) == RowsOf(id, "", Items(entry, table, ""))
  {
    assert KindRows(id, entry, table, [""], 0) == [];
  }

  /** Sorting by key, as the relationships are before they are written. */
  method SortRows(rows: seq<Row>) returns (sorted: seq<Row>)
    ensures Sorted(sorted) && multiset(sorted) == multiset(rows)
  {
    var rest;
    sorted, rest := Select(rows, |rows|);
    assert |multiset(sorted + rest)| == |multiset(rows)|;
    assert sorted + rest == sorted;
  }

  /**
   * What the tables must hold: for every catalog exactly its rows, in the order of the queries
   * that read them back.
   */
  method ProjectionRows(catalog: map<string, Entry>) returns (projection: CacheProjection)
    ensures IsProjection(catalog, projection)
    ensures forall row :: HoldsRow(catalog, projection, row)
  {
    var ids := SortSet(catalog.Keys);
    var pushed := PushCatalog(catalog, ids);
    var sorted := SortRows(pushed.relationships);
    projection := pushed.(relationships := sorted);
    WrittenTables(catalog, ids, pushed, sorted);
    forall row ensures HoldsRow(catalog, projection, row) {
      ProjectionHolds(catalog, projection, row);
    }
  }

  /** Which rows stand in which table: one per issue, or one per element of a list, by its kind and position. */
  ghost predicate HoldsRow(catalog: map<string, Entry>, projection: CacheProjection, row: Row) {
    && (row in projection.issues <==> IsSingle(catalog, row) && row.columns == catalog[row.key.id].issue)
    && (row in projection.search <==> IsSingle(catalog, row) && row.columns == catalog[row.key.id].search)
    && (row in projection.metadata <==> IsSingle(catalog, row) && row.columns == catalog[row.key.id].metadata)
    && (row in projection.hierarchy <==> IsSingle(catalog, row) && row.columns == catalog[row.key.id].hierarchy)
    && (row in projection.comments <==> row.key.id in catalog && IsElement(catalog[row.key.id].comments, "", row))
    && (row in projection.links <==> row.key.id in catalog && IsElement(catalog[row.key.id].links, "", row))
    && (row in projection.relationships <==>
          && row.key.id in catalog
          && (|| IsElement(catalog[row.key.id].dependsOn, "depends_on", row)
              || IsElement(catalog[row.key.id].relatesTo, "relates_to", row)
              || IsElement(catalog[row.key.id].duplicates, "duplicates", row)
              || IsElement(catalog[row.key.id].supersedes, "supersedes", row)))
  }

  ghost predicate IsSingle(catalog: map<string, Entry>, row: Row) {
    row.key.id in catalog && row.key.relationship == "" && row.key.ordinal == 0
  }

  ghost predicate IsElement(items: seq<Columns>, kind: string, row: Row) {
    row.key.relationship == kind && row.key.ordinal < |items| && row.columns == items[row.key.ordinal]
  }

  lemma ProjectionHolds(catalog: map<string, Entry>, projection: CacheProjection, row: Row)
    requires IsProjection(catalog, projection)
    ensures HoldsRow(catalog, projection, row)
  {
    forall table ensures row in TableRows(projection, table) <==> IsProjected(catalog, table, row) {
      assert IsTable(catalog, table, TableRows(projection, table));
    }
    assert row in TableRows(projection, Issues) <==> row in projection.issues;
    assert row in TableRows(projection, Search) <==> row in projection.search;
    assert row in TableRows(projection, Metadata) <==> row in projection.metadata;
    assert row in TableRows(projection, Hierarchy) <==> row in projection.hierarchy;
    assert row in TableRows(projection, Comments) <==> row in projection.comments;
    assert row in TableRows(projection, Links) <==> row in projection.links;
    assert row in TableRows(projection, Relationships) <==> row in projection.relationships;
    KindsAreDistinct(Relationships);
    if row.key.id in catalog {
      ListedKinds(catalog[row.key.id], row);
    }
  }

  lemma ListedKinds(entry: Entry, row: Row)
    ensures IsListed(entry, Relationships, row) <==>
            || IsElement(entry.dependsOn, "depends_on", row) || IsElement(entry.relatesTo, "relates_to", row)
            || IsElement(entry.duplicates, "duplicates", row) || IsElement(entry.supersedes, "supersedes", row)
  {
    var kind := row.key.relationship;
    assert kind in RELATIONSHIPS <==> kind == RELATIONSHIPS[0] || kind == RELATIONSHIPS[1]
                                      || kind == RELATIONSHIPS[2] || kind == RELATIONSHIPS[3];
    assert "depends_on"[0] == 'd' && "relates_to"[0] == 'r' && "duplicates"[0] == 'd' && "supersedes"[0] == 's';
    assert "depends_on"[1] != "duplicates"[1];
  }

  lemma WrittenTables(catalog: map<string, Entry>, ids: seq<string>, pushed: CacheProjection, sorted: seq<Row>)
    requires Ascending(ids) && forall id :: id in ids <==> id in catalog
    requires HasPushed(pushed, catalog, ids, |ids|)
    requires Sorted(sorted) && multiset(sorted) == multiset(pushed.relationships)
    ensures IsProjection(catalog, pushed.(relationships := sorted))
  {
    var projection := pushed.(relationships := sorted);
    forall table ensures IsTable(catalog, table, TableRows(projection, table)) {
      assert TableRows(pushed, table) == Pushed(catalog, ids, table, |ids|);
      WrittenTable(catalog, ids, table, TableRows(projection, table));
    }
  }

  ghost predicate HasPushed(projection: CacheProjection, catalog: map<string, Entry>, ids: seq<string>, n: nat)
    requires n <= |ids| && forall id :: id in ids ==> id in catalog
  {
    forall table :: TableRows(projection, table) == Pushed(catalog, ids, table, n)
  }

  method PushCatalog(catalog: map<string, Entry>, ids: seq<string>) returns (projection: CacheProjection)
    requires forall id :: id in ids ==> id in catalog
    ensures HasPushed(projection, catalog, ids, |ids|)
  {
    projection := CacheProjection([], [], [], [], [], [], []);
    NonePushed(catalog, ids);
    for i := 0 to |ids|
      invariant HasPushed(projection, catalog, ids, i)
    {
      var before := projection;
      projection := PushIssue(before, ids[i], catalog[ids[i]]);
      PushedStep(before, projection, catalog, ids, i);
    }
  }

  lemma NonePushed(catalog: map<string, Entry>, ids: seq<string>)
    requires forall id :: id in ids ==> id in catalog
    ensures HasPushed(CacheProjection([], [], [], [], [], [], []), catalog, ids, 0)
  {
  }

  lemma PushedStep(before: CacheProjection, after: CacheProjection, catalog: map<string, Entry>, ids: seq<string>,
                   n: nat)
    requires n < |ids| && (forall id :: id in ids ==> id in catalog) && HasPushed(before, catalog, ids, n)
    requires forall table :: TableRows(after, table)
                             == TableRows(before, table) + IssueRows(ids[n], catalog[ids[n]], table)
    ensures HasPushed(after, catalog, ids, n + 1)
  {
  }

  lemma WrittenTable(catalog: map<string, Entry>, ids: seq<string>, table: Table, rows: seq<Row>)
    requires Ascending(ids) && forall id :: id in ids <==> id in catalog
    requires if table.Relationships? then Sorted(rows) && multiset(rows) == multiset(Pushed(catalog, ids, table, |ids|))
             else rows == Pushed(catalog, ids, table, |ids|)
    ensures IsTable(catalog, table, rows)
  {
    forall row ensures row in Pushed(catalog, ids, table, |ids|) <==> IsProjected(catalog, table, row) {
      PushedListed(catalog, ids, table, |ids|, row);
    }
    PushedDistinct(catalog, ids, table, |ids|);
    if table.Relationships? {
      SortedPermutation(Pushed(catalog, ids, table, |ids|), rows);
    } else {
      PushedSorted(catalog, ids, table, |ids|);
    }
  }
}
