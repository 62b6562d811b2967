/**
 * The disposable search index: a stored table is accepted exactly when its rows are the
 * canonical projection, read back page by page in key order.
 */
module IssueCache {
  import opened IssueProjection
  import opened Values

  const MAX_PROJECTION_ROWS: nat := 1_000_000
  const MAX_PROJECTION_BYTES: nat := 268_435_456
  const MAX_PAGE_ROWS: nat := 128

  // ---------------------------------------------------------------- sizes

  /** A row as a JSON object: braces, quoted names, colons and commas. */
  function Encoded(columns: Columns): nat {
    if columns == [] then 2
    else
      var last := columns[|columns| - 1];
      Encoded(columns[..|columns| - 1]) + (if |columns| > 1 then 1 else 0) + |last.name| + 3
        + match last.cell case Null => 4 case Number(digits) => |digits| case Text(_, quoted) => |quoted|
  }

  /** What the connection charges for a row: names and values, a number as eight bytes. */
  function Charged(columns: Columns): nat {
    if columns == [] then 0
    else
      var last := columns[|columns| - 1];
      Charged(columns[..|columns| - 1]) + |last.name|
        + match last.cell case Null => 1 case Number(_) => 8 case Text(text, _) => |text|
  }

  /** The text that is measured. */
  function RowText(columns: Columns): (text: string)
    ensures |text| >= 2
  {
    if columns == [] then "{}"
    else
      var before := RowText(columns[..|columns| - 1]);
      before[..|before| - 1] + (if |columns| > 1 then "," else "") + MemberText(columns[|columns| - 1]) + "}"
  }

  function MemberText(column: Column): string {
    "\"" + column.name + "\":" +
    match column.cell
    case Null => "null"
    case Number(digits) => digits
    case Text(_, quoted) => quoted
  }

  lemma {:induction false} EncodedIsMeasured(columns: Columns)
    ensures |RowText(columns)| == Encoded(columns)
  {
    if columns != [] {
      EncodedIsMeasured(columns[..|columns| - 1]);
      assert |MemberText(columns[|columns| - 1])| >= 3;
    }
  }

  /** A row is charged column by column: one for null, eight for a number, each byte of a text. */
  lemma {:induction false} ChargedAddsUp(a: Columns, b: Columns)
    ensures Charged(a + b) == Charged(a) + Charged(b)
    ensures |b| == 1 ==>
              match b[0].cell
              case Null => Charged(b) == |b[0].name| + 1
              case Number(_) => Charged(b) == |b[0].name| + 8
              case Text(text, _) => Charged(b) == |b[0].name| + |text|
  {
    if b == [] {
      assert a + b == a;
    } else {
      assert (a + b)[..|a + b| - 1] == a + b[..|b| - 1];
      ChargedAddsUp(a, b[..|b| - 1]);
    }
  }

  lemma {:induction false} ChargedWithinTwice(columns: Columns)
    ensures Charged(columns) <= 2 * Encoded(columns) && Encoded(columns) >= 2
  {
    if columns != [] {
      assert IsColumn(columns[|columns| - 1]);
      ChargedWithinTwice(columns[..|columns| - 1]);
    }
  }

  function ByteSize(rows: seq<Row>): nat {
    if rows == [] then 0 else ByteSize(rows[..|rows| - 1]) + Encoded(rows[|rows| - 1].columns)
  }

  function TotalCharged(rows: seq<Row>): nat {
    if rows == [] then 0 else TotalCharged(rows[..|rows| - 1]) + Charged(rows[|rows| - 1].columns)
  }

  lemma {:induction false} TotalWithinTwice(rows: seq<Row>)
    ensures TotalCharged(rows) <= 2 * ByteSize(rows) && ByteSize(rows) >= 2 * |rows|
  {
    if rows != [] {
      TotalWithinTwice(rows[..|rows| - 1]);
      ChargedWithinTwice(rows[|rows| - 1].columns);
    }
  }

  /** No single row exceeds the byte limit of a query. */
  ghost predicate EachWithin(rows: seq<Row>, maxBytes: nat) {
    forall i :: 0 <= i < |rows| ==> Charged(rows[i].columns) <= maxBytes
  }

  lemma {:induction false} TotalBoundsEach(rows: seq<Row>, i: nat)
    requires i < |rows|
    ensures Charged(rows[i].columns) <= TotalCharged(rows)
  {
    if i < |rows| - 1 {
      TotalBoundsEach(rows[..|rows| - 1], i);
    }
  }

  lemma {:induction false} ByteSizeConcat(a: seq<Row>, b: seq<Row>)
    ensures ByteSize(a + b) == ByteSize(a) + ByteSize(b)
  {
    if b == [] {
      assert a + b == a;
    } else {
      assert (a + b)[..|a + b| - 1] == a + b[..|b| - 1];
      ByteSizeConcat(a, b[..|b| - 1]);
    }
  }

  // ---------------------------------------------------------------- keyset pages

  predicate IsAbove(row: Row, after: Option<Key>) {
    after.Some? ==> Before(after.value, row.key)
  }

  /** The rows above a key among the first `n`. */
  function AboveUpTo(table: seq<Row>, after: Option<Key>, n: nat): seq<Row>
    requires n <= |table|
  {
    if n == 0 then []
    else if IsAbove(table[n - 1], after) then AboveUpTo(table, after, n - 1) + [table[n - 1]]
    else AboveUpTo(table, after, n - 1)
  }

  function Above(table: seq<Row>, after: Option<Key>): seq<Row> {
    AboveUpTo(table, after, |table|)
  }

  lemma AboveCounts(table: seq<Row>, after: Option<Key>)
    ensures forall r :: multiset(Above(table, after))[r] == if IsAbove(r, after) then multiset(table)[r] else 0
  {
    forall r ensures multiset(Above(table, after))[r] == if IsAbove(r, after) then multiset(table)[r] else 0 {
      AboveCount(table, after, |table|, r);
      assert table[..|table|] == table;
    }
  }

  lemma {:induction false} AboveCount(table: seq<Row>, after: Option<Key>, n: nat, r: Row)
    requires n <= |table|
    ensures multiset(AboveUpTo(table, after, n))[r] == if IsAbove(r, after) then multiset(table[..n])[r] else 0
  {
    if n > 0 {
      AboveCount(table, after, n - 1, r);
      assert table[..n] == table[..n - 1] + [table[n - 1]];
    }
  }

  /**
   * `page` is what a query for rows above a key, ordered by key and limited, may return,
   * leaving `rest` unread.
   */
  ghost predicate IsPage(table: seq<Row>, after: Option<Key>, limit: nat, page: seq<Row>, rest: seq<Row>) {
    && Divided(multiset(Above(table, after)), page, rest)
    && |page| <= limit && (|page| < limit ==> rest == [])
  }

  /**
   * The database's side: a sorted, limited page, in which rows with equal keys come in any order;
   * and the connection, which refuses a page above the byte limit of the query.
   */
  method Fetch(table: seq<Row>, after: Option<Key>, limit: nat, maxBytes: nat)
    returns (page: Option<seq<Row>>, ghost selected: seq<Row>, ghost rest: seq<Row>)
    ensures IsPage(table, after, limit, selected, rest)
    ensures page == if TotalCharged(selected) <= maxBytes then Some(selected) else None
  {
    var rows, unread := Select(Above(table, after), limit);
    selected, rest := rows, unread;
    var within := MeasureRows(rows, maxBytes);
    page := if within then Some(rows) else None;
  }

  /** Measures row by row and stops above the limit. */
  method MeasureRows(rows: seq<Row>, maxBytes: nat) returns (within: bool)
    ensures within <==> TotalCharged(rows) <= maxBytes
  {
    var bytes := 0;
    for i := 0 to |rows|
      invariant bytes == TotalCharged(rows[..i]) <= maxBytes
    {
      assert rows[..i + 1][..i] == rows[..i];
      bytes := bytes + Charged(rows[i].columns);
      if bytes > maxBytes {
        TotalOfPrefix(rows, i + 1);
        return false;
      }
    }
    assert rows[..|rows|] == rows;
    return true;
  }

  lemma {:induction false} TotalOfPrefix(rows: seq<Row>, n: nat)
    requires n <= |rows|
    ensures TotalCharged(rows[..n]) <= TotalCharged(rows)
    decreases |rows|
  {
    if n < |rows| {
      TotalOfPrefix(rows[..|rows| - 1], n);
      assert rows[..|rows| - 1][..n] == rows[..n];
    } else {
      assert rows[..n] == rows;
    }
  }

  /** Reading a matching table returns exactly the next expected rows. */
  lemma PageOfMatching(table: seq<Row>, expected: seq<Row>, index: nat, count: nat, page: seq<Row>, rest: seq<Row>)
    requires StrictlySorted(expected) && multiset(table) == multiset(expected)
    requires index <= |expected|
    requires IsPage(table, KeyBefore(expected, index), count, page, rest)
    ensures page == expected[index..if index + count <= |expected| then index + count else |expected|]
  {
    TailIsAbove(table, expected, index);
    SortedPrefix(expected[index..], page, rest);
  }

  function KeyBefore(expected: seq<Row>, index: nat): Option<Key>
    requires index <= |expected|
  {
    if index == 0 then None else Some(expected[index - 1].key)
  }

  lemma TailIsAbove(table: seq<Row>, expected: seq<Row>, index: nat)
    requires StrictlySorted(expected) && multiset(table) == multiset(expected) && index <= |expected|
    ensures multiset(Above(table, KeyBefore(expected, index))) == multiset(expected[index..])
  {
    SameAbove(table, expected, KeyBefore(expected, index));
    AboveSorted(expected, index, |expected|);
    assert expected[index..|expected|] == expected[index..];
  }

  lemma SameAbove(table: seq<Row>, expected: seq<Row>, after: Option<Key>)
    requires multiset(table) == multiset(expected)
    ensures multiset(Above(table, after)) == multiset(Above(expected, after))
  {
    AboveCounts(table, after);
    AboveCounts(expected, after);
  }

  lemma {:induction false} AboveSorted(expected: seq<Row>, index: nat, n: nat)
    requires StrictlySorted(expected) && index <= n <= |expected|
    ensures AboveUpTo(expected, KeyBefore(expected, index), n) == expected[index..n]
    decreases n
  {
    if n > index {
      AboveSorted(expected, index, n - 1);
      assert IsAbove(expected[n - 1], KeyBefore(expected, index));
      assert expected[index..n - 1] + [expected[n - 1]] == expected[index..n];
    } else {
      NoneAbove(expected, index, n);
    }
  }

  lemma {:induction false} NoneAbove(expected: seq<Row>, index: nat, n: nat)
    requires StrictlySorted(expected) && n <= index <= |expected|
    ensures AboveUpTo(expected, KeyBefore(expected, index), n) == []
  {
    if n > 0 {
      NoneAbove(expected, index, n - 1);
      BeforeIsTotal(expected[n - 1].key, expected[index - 1].key);
    }
  }

  /** What is read first of a strictly sorted sequence is its prefix. */
  lemma {:induction false} SortedPrefix(tail: seq<Row>, page: seq<Row>, rest: seq<Row>)
    requires StrictlySorted(tail) && Divided(multiset(tail), page, rest)
    ensures |page| + |rest| == |tail| && page == tail[..|page|]
  {
    SameLength(tail, page + rest);
    if page != [] {
      HeadOfPrefix(tail, page, rest);
      TailOfPrefix(tail, page, rest);
      SortedPrefix(tail[1..], page[1..], rest);
    }
  }

  lemma SameLength(a: seq<Row>, b: seq<Row>)
    requires multiset(a) == multiset(b)
    ensures |a| == |b|
  {
    assert |multiset(a)| == |a| && |multiset(b)| == |b|;
  }

  lemma HeadOfPrefix(tail: seq<Row>, page: seq<Row>, rest: seq<Row>)
    requires StrictlySorted(tail) && Divided(multiset(tail), page, rest) && page != []
    ensures tail != [] && page[0] == tail[0]
  {
    var head := page[0];
    assert head in page + rest;
    assert head in multiset(page + rest);
    assert head in tail;
    var least := tail[0];
    assert least in multiset(page + rest);
    assert page != [] && !Before(least.key, head.key) by {
      BeforeIsTotal(head.key, head.key);
      assert least in page + rest;
    }
  }

  lemma TailOfPrefix(tail: seq<Row>, page: seq<Row>, rest: seq<Row>)
    requires Divided(multiset(tail), page, rest) && page != [] && tail != [] && page[0] == tail[0]
    ensures Divided(multiset(tail[1..]), page[1..], rest)
  {
    HeadApart(tail);
    HeadApart(page + rest);
    assert (page + rest)[1..] == page[1..] + rest;
    CancelHead(tail[0], page[1..] + rest, tail[1..]);
    TailFollows(page, rest);
  }

  lemma HeadApart(rows: seq<Row>)
    requires rows != []
    ensures rows == [rows[0]] + rows[1..]
  {
  }

  lemma CancelHead(head: Row, a: seq<Row>, b: seq<Row>)
    requires multiset([head] + a) == multiset([head] + b)
    ensures multiset(a) == multiset(b)
  {
    WithoutHead(head, a);
    WithoutHead(head, b);
  }

  lemma TailFollows(page: seq<Row>, rest: seq<Row>)
    requires page != [] && Sorted(page) && Follows(page, rest)
    ensures Sorted(page[1..]) && Follows(page[1..], rest)
  {
  }

  lemma WithoutHead(head: Row, rows: seq<Row>)
    ensures multiset(rows) == multiset([head] + rows) - multiset{head}
  {
  }

  lemma StrictKeysAreDistinct(rows: seq<Row>)
    requires StrictlySorted(rows)
    ensures DistinctKeys(rows)
  {
    forall i, j | 0 <= i < j < |rows| ensures rows[i].key != rows[j].key {
      BeforeIsTotal(rows[i].key, rows[j].key);
    }
  }

  /** Pigeonhole: if every expected row is stored and the counts agree, nothing else is. */
  lemma SameCountSameRows(table: seq<Row>, expected: seq<Row>)
    requires StrictlySorted(expected) && |table| == |expected|
    requires forall r :: r in expected ==> r in table
    ensures multiset(table) == multiset(expected)
  {
    StrictKeysAreDistinct(expected);
    OnceByKey(expected);
    forall r ensures multiset(expected)[r] <= multiset(table)[r] {
      if r in expected {
        assert r in multiset(table);
      }
    }
    assert multiset(table) == multiset(expected) + (multiset(table) - multiset(expected));
    assert |multiset(table) - multiset(expected)| == 0;
  }

  // ---------------------------------------------------------------- pages

  function Min(a: nat, b: nat): (least: nat)
    ensures least <= a && least <= b && (least == a || least == b)
  {
    if a < b then a else b
  }

  /** Half the limit, rounded down, and at least one. */
  function ByteTarget(maxBytes: nat): (target: nat)
    ensures 1 <= target && maxBytes - 1 <= 2 * target && (target == 1 || 2 * target <= maxBytes)
  {
    if maxBytes / 2 > 1 then maxBytes / 2 else 1
  }

  /** Every page makes progress, respects its bounds, and is as long as they allow. */
  method VerificationPageEnd(rows: seq<Row>, start: nat, maxRows: nat, maxBytes: nat) returns (end: nat)
    requires start < |rows| && maxRows >= 1
    ensures start < end <= |rows| && end - start <= Min(MAX_PAGE_ROWS, maxRows)
    ensures end - start > 1 ==> ByteSize(rows[start..end]) <= ByteTarget(maxBytes)
    ensures end == |rows| || end - start == Min(MAX_PAGE_ROWS, maxRows)
            || ByteSize(rows[start..end + 1]) > ByteTarget(maxBytes)
  {
    var byteTarget, rowLimit := ByteTarget(maxBytes), Min(MAX_PAGE_ROWS, maxRows);
    var bytes := 0;
    end := start;
    while end < |rows| && end - start < rowLimit
      invariant start <= end <= |rows| && end - start <= rowLimit
      invariant bytes == ByteSize(rows[start..end])
      invariant end - start > 1 ==> bytes <= byteTarget
    {
      var rowBytes := Encoded(rows[end].columns);
      OneMoreRow(rows, start, end);
      if end > start && bytes + rowBytes > byteTarget {
        return;
      }
      bytes, end := bytes + rowBytes, end + 1;
    }
  }

  lemma OneMoreRow(rows: seq<Row>, start: nat, end: nat)
    requires start <= end < |rows|
    ensures ByteSize(rows[start..end + 1]) == ByteSize(rows[start..end]) + Encoded(rows[end].columns)
  {
    assert rows[start..end + 1][..end - start] == rows[start..end];
  }

  /** Why the target is half the limit: a page of several rows within it is never refused by the connection. */
  lemma MultiRowPageFits(rows: seq<Row>, maxBytes: nat)
    requires |rows| > 1 && ByteSize(rows) <= ByteTarget(maxBytes)
    ensures TotalCharged(rows) <= maxBytes
  {
    TotalWithinTwice(rows);
  }

  /** So only a page that is one row too large can be refused. */
  lemma PageFits(rows: seq<Row>, start: nat, end: nat, maxBytes: nat)
    requires start < end <= |rows| && (end - start > 1 ==> ByteSize(rows[start..end]) <= ByteTarget(maxBytes))
    requires Charged(rows[start].columns) <= maxBytes
    ensures TotalCharged(rows[start..end]) <= maxBytes
  {
    if end - start > 1 {
      MultiRowPageFits(rows[start..end], maxBytes);
    } else {
      assert rows[start..end] == [rows[start]];
      OneRow(rows[start]);
    }
  }

  lemma OneRow(row: Row)
    ensures TotalCharged([row]) == Charged(row.columns)
  {
    assert [row][..0] == [];
  }

  // ---------------------------------------------------------------- verification

  class VerificationBudget {
    var rows: nat
    var bytes: nat

    constructor ()
      ensures rows == 0 && bytes == 0
    {
      rows, bytes := 0, 0;
    }

    method AccountVerifiedRows(page: seq<Row>) returns (within: bool)
      modifies this
      ensures rows == old(rows) + |page| && bytes == old(bytes) + ByteSize(page)
      ensures within <==> rows <= MAX_PROJECTION_ROWS && bytes <= MAX_PROJECTION_BYTES
    {
      rows := rows + |page|;
      for i := 0 to |page|
        invariant bytes == old(bytes) + ByteSize(page[..i]) && rows == old(rows) + |page|
      {
        assert page[..i + 1][..i] == page[..i];
        bytes := bytes + Encoded(page[i].columns);
      }
      assert page[..|page|] == page;
      within := rows <= MAX_PROJECTION_ROWS && bytes <= MAX_PROJECTION_BYTES;
    }

    /** Room for the whole expected table is left. */
    ghost predicate Fits(expected: seq<Row>)
      reads this
    {
      rows + |expected| <= MAX_PROJECTION_ROWS && bytes + ByteSize(expected) <= MAX_PROJECTION_BYTES
    }
  }

  /**
   * Compares a stored table with the expected rows page by page. With equal counts acceptance
   * means the same multiset of rows, whether or not stored keys are unique, and that no row exceeds
   * the byte limit; and a matching table without such a row is accepted if it fits in the budget.
   */
  method VerifyRows(table: seq<Row>, expected: seq<Row>, maxRows: nat, maxBytes: nat, budget: VerificationBudget)
    returns (accepted: bool)
    requires StrictlySorted(expected) && maxRows >= 1
    modifies budget
    ensures accepted && |table| == |expected| ==> multiset(table) == multiset(expected)
    ensures accepted ==> EachWithin(expected, maxBytes)
    ensures accepted ==> budget.rows == old(budget.rows) + |expected|
    ensures accepted ==> budget.bytes == old(budget.bytes) + ByteSize(expected)
    ensures multiset(table) == multiset(expected) && EachWithin(expected, maxBytes) && old(budget.Fits(expected)) ==>
              accepted
  {
    var index := 0;
    ghost var matching := multiset(table) == multiset(expected) && EachWithin(expected, maxBytes)
      && budget.Fits(expected);
    assert expected[0..] == expected;
    while index < |expected|
      invariant index <= |expected|
      invariant forall k :: 0 <= k < index ==> expected[k] in table && Charged(expected[k].columns) <= maxBytes
      invariant budget.rows == old(budget.rows) + index
      invariant budget.bytes == old(budget.bytes) + ByteSize(expected[..index])
      invariant matching ==> budget.Fits(expected[index..])
      decreases |expected| - index
    {
      var end := VerifyPage(table, expected, index, maxRows, maxBytes, budget);
      if end.None? {
        return false;
      }
      PrefixBytes(expected, index, end.value);
      index := end.value;
    }
    assert expected[..index] == expected;
    if |table| == |expected| {
      SameCountSameRows(table, expected);
    }
    accepted := NothingMore(table, expected, maxBytes, budget);
  }

  /** One query more, for rows after the last expected one. */
  method NothingMore(table: seq<Row>, expected: seq<Row>, maxBytes: nat, budget: VerificationBudget)
    returns (accepted: bool)
    requires StrictlySorted(expected)
    modifies budget
    ensures accepted ==> budget.rows == old(budget.rows) && budget.bytes == old(budget.bytes)
    ensures multiset(table) == multiset(expected) && old(budget.Fits([])) ==> accepted
  {
    ghost var selected, rest;
    var extra;
    extra, selected, rest := Fetch(table, KeyBefore(expected, |expected|), 1, maxBytes);
    if multiset(table) == multiset(expected) {
      PageOfMatching(table, expected, |expected|, 1, selected, rest);
    }
    if extra.None? {
      return false;
    }
    var within := budget.AccountVerifiedRows(extra.value);
    accepted := within && extra.value == [];
  }

  /** Reads and compares one page; on success its rows are stored and accounted for. */
  method VerifyPage(table: seq<Row>, expected: seq<Row>, index: nat, maxRows: nat, maxBytes: nat,
                    budget: VerificationBudget)
    returns (next: Option<nat>)
    requires StrictlySorted(expected) && maxRows >= 1 && index < |expected|
    modifies budget
    ensures next.Some? ==> index < next.value <= |expected|
    ensures next.Some? ==>
              forall k :: index <= k < next.value ==> expected[k] in table && Charged(expected[k].columns) <= maxBytes
    ensures next.Some? ==> budget.rows == old(budget.rows) + next.value - index
    ensures next.Some? ==> budget.bytes == old(budget.bytes) + ByteSize(expected[index..next.value])
    ensures multiset(table) == multiset(expected) && EachWithin(expected, maxBytes)
            && old(budget.Fits(expected[index..])) ==>
              next.Some? && budget.Fits(expected[next.value..])
  {
    var end := VerificationPageEnd(expected, index, maxRows, maxBytes);
    var actual := ReadPage(table, expected, index, end, maxBytes);
    if actual.None? {
      return None;
    }
    PageBytes(expected, index, end);
    var within := budget.AccountVerifiedRows(actual.value);
    if !within || actual.value != expected[index..end] {
      return None;
    }
    SlicesAreStored(table, expected, index, end, maxBytes);
    next := Some(end);
  }

  /** Stored rows from the last verified key on: of a matching table the next expected ones. */
  method ReadPage(table: seq<Row>, expected: seq<Row>, index: nat, end: nat, maxBytes: nat)
    returns (actual: Option<seq<Row>>)
    requires StrictlySorted(expected) && index < end <= |expected|
    requires end - index > 1 ==> ByteSize(expected[index..end]) <= ByteTarget(maxBytes)
    ensures actual.Some? ==> (forall r :: r in actual.value ==> r in table) && TotalCharged(actual.value) <= maxBytes
    ensures multiset(table) == multiset(expected) && Charged(expected[index].columns) <= maxBytes ==>
              actual == Some(expected[index..end])
  {
    ghost var selected, rest;
    actual, selected, rest := Fetch(table, KeyBefore(expected, index), end - index, maxBytes);
    PageIsStored(table, KeyBefore(expected, index), end - index, selected, rest);
    if multiset(table) == multiset(expected) && Charged(expected[index].columns) <= maxBytes {
      MatchingPage(table, expected, index, end, maxBytes, selected, rest);
    }
  }

  lemma MatchingPage(table: seq<Row>, expected: seq<Row>, index: nat, end: nat, maxBytes: nat, page: seq<Row>,
                     rest: seq<Row>)
    requires StrictlySorted(expected) && multiset(table) == multiset(expected) && index < end <= |expected|
    requires IsPage(table, KeyBefore(expected, index), end - index, page, rest)
    requires end - index > 1 ==> ByteSize(expected[index..end]) <= ByteTarget(maxBytes)
    requires Charged(expected[index].columns) <= maxBytes
    ensures page == expected[index..end] && TotalCharged(page) <= maxBytes
  {
    PageOfMatching(table, expected, index, end - index, page, rest);
    PageFits(expected, index, end, maxBytes);
  }

  lemma SlicesAreStored(table: seq<Row>, expected: seq<Row>, index: nat, end: nat, maxBytes: nat)
    requires index <= end <= |expected| && forall r :: r in expected[index..end] ==> r in table
    requires TotalCharged(expected[index..end]) <= maxBytes
    ensures forall k :: index <= k < end ==> expected[k] in table && Charged(expected[k].columns) <= maxBytes
  {
    forall k | index <= k < end ensures expected[k] in table && Charged(expected[k].columns) <= maxBytes {
      assert expected[index..end][k - index] == expected[k];
      TotalBoundsEach(expected[index..end], k - index);
    }
  }

  lemma Slices(rows: seq<Row>, index: nat, end: nat)
    requires index <= end <= |rows|
    ensures rows[index..end] + rows[end..] == rows[index..] && rows[..index] + rows[index..end] == rows[..end]
  {
  }

  lemma {:induction false} PageBytes(expected: seq<Row>, index: nat, end: nat)
    requires index <= end <= |expected|
    ensures ByteSize(expected[index..]) == ByteSize(expected[index..end]) + ByteSize(expected[end..])
  {
    Slices(expected, index, end);
    ByteSizeConcat(expected[index..end], expected[end..]);
  }

  lemma PageIsStored(table: seq<Row>, after: Option<Key>, limit: nat, page: seq<Row>, rest: seq<Row>)
    requires IsPage(table, after, limit, page, rest)
    ensures forall r :: r in page ==> r in table
  {
    AboveCounts(table, after);
    forall r | r in page ensures r in table {
      assert r in page + rest;
      assert r in multiset(page + rest);
      assert r in multiset(table);
    }
  }

  lemma {:induction false} PrefixBytes(expected: seq<Row>, index: nat, end: nat)
    requires index <= end <= |expected|
    ensures ByteSize(expected[..end]) == ByteSize(expected[..index]) + ByteSize(expected[index..end])
  {
    Slices(expected, index, end);
    ByteSizeConcat(expected[..index], expected[index..end]);
  }

  // ---------------------------------------------------------------- all tables

  /** A stored table with the row count recorded beside it. */
  datatype StoredTable = StoredTable(recorded: Option<nat>, rows: seq<Row>)

  /** Rows and bytes of the first tables. */
  function RowsUpTo(projection: seq<seq<Row>>, n: nat): nat
    requires n <= |projection|
  {
    if n == 0 then 0 else RowsUpTo(projection, n - 1) + |projection[n - 1]|
  }

  function BytesUpTo(projection: seq<seq<Row>>, n: nat): nat
    requires n <= |projection|
  {
    if n == 0 then 0 else BytesUpTo(projection, n - 1) + ByteSize(projection[n - 1])
  }

  ghost predicate Admitted(projection: seq<seq<Row>>) {
    && RowsUpTo(projection, |projection|) <= MAX_PROJECTION_ROWS
    && BytesUpTo(projection, |projection|) <= MAX_PROJECTION_BYTES
  }

  lemma {:induction false} TotalsGrow(projection: seq<seq<Row>>, n: nat, m: nat)
    requires n <= m <= |projection|
    ensures RowsUpTo(projection, n) <= RowsUpTo(projection, m) && BytesUpTo(projection, n) <= BytesUpTo(projection, m)
  {
    if n < m {
      TotalsGrow(projection, n, m - 1);
    }
  }

  /** Refuses a projection that exceeds the hard safety budget. */
  method AssertProjectionBudget(projection: seq<seq<Row>>) returns (admitted: bool)
    ensures admitted <==> Admitted(projection)
  {
    var rows, bytes := 0, 0;
    for i := 0 to |projection|
      invariant rows == RowsUpTo(projection, i) && bytes == BytesUpTo(projection, i)
    {
      rows := rows + |projection[i]|;
      var table := projection[i];
      ghost var before := bytes;
      for k := 0 to |table|
        invariant bytes == before + ByteSize(table[..k])
      {
        assert table[..k + 1][..k] == table[..k];
        bytes := bytes + Encoded(table[k].columns);
      }
      assert table[..|table|] == table;
    }
    admitted := rows <= MAX_PROJECTION_ROWS && bytes <= MAX_PROJECTION_BYTES;
  }

  /** Every table holds what it should, and all of it can be read. */
  ghost predicate Healthy(stored: seq<StoredTable>, projection: seq<seq<Row>>, maxBytes: nat)
    requires |stored| == |projection|
  {
    forall i :: 0 <= i < |projection| ==> TableHealthy(stored[i], projection[i], maxBytes)
  }

  ghost predicate TableHealthy(stored: StoredTable, rows: seq<Row>, maxBytes: nat) {
    TableMatches(stored, rows) && EachWithin(rows, maxBytes)
  }

  ghost predicate TableMatches(stored: StoredTable, rows: seq<Row>) {
    stored.recorded == Some(|rows|) && multiset(stored.rows) == multiset(rows)
  }

  predicate CountsAgree(stored: StoredTable, rows: seq<Row>) {
    stored.recorded == Some(|rows|) && |stored.rows| == |rows|
  }

  method CheckCounts(stored: seq<StoredTable>, projection: seq<seq<Row>>) returns (agree: bool)
    requires |stored| == |projection|
    ensures agree <==> forall k :: 0 <= k < |projection| ==> CountsAgree(stored[k], projection[k])
  {
    for i := 0 to |projection|
      invariant forall k :: 0 <= k < i ==> CountsAgree(stored[k], projection[k])
    {
      if stored[i].recorded != Some(|projection[i]|) || |stored[i].rows| != |projection[i]| {
        assert !CountsAgree(stored[i], projection[i]);
        return false;
      }
    }
    agree := true;
  }

  lemma HealthyCounts(stored: StoredTable, rows: seq<Row>, maxBytes: nat)
    requires TableHealthy(stored, rows, maxBytes)
    ensures CountsAgree(stored, rows)
  {
    assert |multiset(stored.rows)| == |stored.rows| && |multiset(rows)| == |rows|;
  }

  /**
   * Verification is exact: for an admitted projection with unique keys the cache is accepted if
   * and only if every stored table is the projected one and no row exceeds the query's byte limit.
   */
  method HealthCheck(stored: seq<StoredTable>, projection: seq<seq<Row>>, maxRows: nat, maxBytes: nat)
    returns (healthy: bool)
    requires |stored| == |projection| && maxRows >= 1
    requires forall i :: 0 <= i < |projection| ==> StrictlySorted(projection[i])
    requires Admitted(projection)
    ensures healthy <==> Healthy(stored, projection, maxBytes)
  {
    var counted := CheckCounts(stored, projection);
    if counted {
      healthy := VerifyTables(stored, projection, maxRows, maxBytes);
    } else {
      ghost var k :| 0 <= k < |projection| && !CountsAgree(stored[k], projection[k]);
      if TableHealthy(stored[k], projection[k], maxBytes) {
        HealthyCounts(stored[k], projection[k], maxBytes);
      }
      healthy := false;
    }
  }

  method VerifyTables(stored: seq<StoredTable>, projection: seq<seq<Row>>, maxRows: nat, maxBytes: nat)
    returns (accepted: bool)
    requires |stored| == |projection| && maxRows >= 1
    requires forall i :: 0 <= i < |projection| ==> StrictlySorted(projection[i])
    requires forall i :: 0 <= i < |projection| ==> CountsAgree(stored[i], projection[i])
    requires Admitted(projection)
    ensures accepted <==> Healthy(stored, projection, maxBytes)
  {
    var budget := new VerificationBudget();
    for i := 0 to |projection|
      invariant fresh(budget)
      invariant forall k :: 0 <= k < i ==> TableHealthy(stored[k], projection[k], maxBytes)
      invariant budget.rows == RowsUpTo(projection, i) && budget.bytes == BytesUpTo(projection, i)
    {
      TotalsGrow(projection, i + 1, |projection|);
      accepted := VerifyTable(stored[i], projection[i], maxRows, maxBytes, budget);
      if !accepted {
        return;
      }
    }
    accepted := true;
  }

  /** One table whose counts agree already, with room left for it. */
  method VerifyTable(stored: StoredTable, rows: seq<Row>, maxRows: nat, maxBytes: nat, budget: VerificationBudget)
    returns (accepted: bool)
    requires StrictlySorted(rows) && maxRows >= 1 && CountsAgree(stored, rows) && budget.Fits(rows)
    modifies budget
    ensures accepted <==> TableHealthy(stored, rows, maxBytes)
    ensures accepted ==> budget.rows == old(budget.rows) + |rows| && budget.bytes == old(budget.bytes) + ByteSize(rows)
  {
    accepted := VerifyRows(stored.rows, rows, maxRows, maxBytes, budget);
  }

  /** The tables in the order in which they are counted and verified. */
  function ProjectionTables(projection: CacheProjection): seq<seq<Row>> {
    [projection.issues, projection.search, projection.metadata, projection.hierarchy, projection.relationships,
     projection.comments, projection.links]
  }

  /**
   * The whole check of a cache against a catalog: refused for its size, or else accepted if and
   * only if every stored table holds exactly the rows that the catalog calls for and each of
   * these can be read within the query's byte limit.
   */
  method VerifyCatalog(stored: seq<StoredTable>, catalog: map<string, Entry>, maxRows: nat, maxBytes: nat)
    returns (healthy: Option<bool>, projection: CacheProjection)
    requires |stored| == 7 && maxRows >= 1
    ensures IsProjection(catalog, projection)
    ensures healthy.Some? <==> Admitted(ProjectionTables(projection))
    ensures healthy.Some? ==> (healthy.value <==> Healthy(stored, ProjectionTables(projection), maxBytes))
  {
    projection := ProjectionRows(catalog);
    var tables := ProjectionTables(projection);
    var admitted := AssertProjectionBudget(tables);
    if !admitted {
      return None, projection;
    }
    TablesSorted(catalog, projection);
    var accepted := HealthCheck(stored, tables, maxRows, maxBytes);
    healthy := Some(accepted);
  }

  lemma TablesSorted(catalog: map<string, Entry>, projection: CacheProjection)
    requires IsProjection(catalog, projection)
    ensures forall i :: 0 <= i < 7 ==> StrictlySorted(ProjectionTables(projection)[i])
  {
    forall table ensures StrictlySorted(TableRows(projection, table)) {
      assert IsTable(catalog, table, TableRows(projection, table));
    }
    assert StrictlySorted(TableRows(projection, Issues)) && StrictlySorted(TableRows(projection, Search));
    assert StrictlySorted(TableRows(projection, Metadata)) && StrictlySorted(TableRows(projection, Hierarchy));
    assert StrictlySorted(TableRows(projection, Relationships)) && StrictlySorted(TableRows(projection, Comments));
    assert StrictlySorted(TableRows(projection, Links));
  }
}
