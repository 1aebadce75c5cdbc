/**
  The response cache: `load_cache` (skills/icp-batch-skill/scripts/run_icp_batch.py:64-71)
  and `rewrite_cache` (95-105).

  The cache is a Python dict from domain to CSV row. Python dicts remember the
  order in which keys were first inserted, and both `write_success` and the
  success-map loop walk the cache in that order, so the model keeps the key
  order beside the entries. The CSV text itself (quoting, escaping, line ends)
  is not modelled: a file is the sequence of rows `csv.DictReader` yields, and
  a written file is the sequence of lines `csv.DictWriter` emits, each line a
  sequence of field texts.
*/
module CacheStore {
  import opened Wrappers
  import opened Seqs

  /** One CSV record as `csv.DictReader` yields it: field name to text. */
  type Row = map<string, string>

  /** The columns of the cache file, in the order they are written. */
  const CacheFields: seq<string> := ["domain", "status_code", "error_header", "body"]

  /** `row.get(key, "")`. */
  function Field(row: Row, key: string): string {
    if key in row then row[key] else ""
  }

  /** A dict from domain to row: its keys in first-insertion order, and its entries. */
  datatype Cache = Cache(keys: seq<string>, rows: map<string, Row>)

  /** The order lists every key once, and only keys of the dict. */
  ghost predicate Valid(c: Cache) {
    NoDuplicates(c.keys) && forall k :: k in c.rows <==> k in c.keys
  }

  /** Every entry is the row of its own key. */
  ghost predicate WellKeyed(c: Cache) {
    forall k :: k in c.rows ==> "domain" in c.rows[k] && c.rows[k]["domain"] == k
  }

  const EmptyCache: Cache := Cache([], map[])

  /** `cache[k] = v`: a new key goes to the end of the order, an existing key keeps its place. */
  function Put(c: Cache, k: string, v: Row): Cache {
    Cache(if k in c.rows then c.keys else c.keys + [k], c.rows[k := v])
  }

  /** Storing an entry keeps the order in step with the entries, and keeps entries filed under their own key. */
  lemma PutValid(c: Cache, k: string, v: Row)
    ensures Valid(c) ==> Valid(Put(c, k, v))
    ensures WellKeyed(c) && "domain" in v && v["domain"] == k ==> WellKeyed(Put(c, k, v))
  {
  }

  // ----- load_cache -----

  /** The key a CSV row is filed under: its `domain` field, if it has one. */
  function KeyOf(row: Row): Option<string> {
    if "domain" in row then Some(row["domain"]) else None
  }

  /** The dict comprehension over the rows read: rows without `domain` are skipped, a later row replaces an earlier one. */
  function LoadRows(rows: seq<Row>): (c: Cache)
    ensures Valid(c) && WellKeyed(c)
  {
    if rows == [] then EmptyCache
    else
      var n := |rows| - 1;
      var c := LoadRows(rows[..n]);
      match KeyOf(rows[n])
      case None => c
      case Some(k) => PutValid(c, k, rows[n]); Put(c, k, rows[n])
  }

  /** `load_cache(path)`: `file` is the rows of the cache file, or `None` when it does not exist. */
  function LoadCache(file: Option<seq<Row>>): (c: Cache)
    ensures file.None? ==> c == EmptyCache
    ensures Valid(c) && WellKeyed(c)
  {
    match file
    case None => EmptyCache
    case Some(rows) => LoadRows(rows)
  }

  /** Row `i` is the last row filed under `k`. */
  ghost predicate LastWithKey(rows: seq<Row>, k: string, i: int) {
    && 0 <= i < |rows| && KeyOf(rows[i]) == Some(k)
    && forall j :: i < j < |rows| ==> KeyOf(rows[j]) != Some(k)
  }

  /** The keys of the loaded cache are the `domain` values of the rows, in order of first appearance. */
  lemma {:induction false} LoadRowsKeys(rows: seq<Row>)
    ensures LoadRows(rows).keys == Dedup(FilterMap(rows, KeyOf))
  {
    if rows != [] {
      var n := |rows| - 1;
      LoadRowsKeys(rows[..n]);
      if KeyOf(rows[n]).Some? {
        DedupStep(FilterMap(rows[..n], KeyOf), KeyOf(rows[n]).value);
      }
    }
  }

  lemma {:induction false} LastRowIndex(rows: seq<Row>, k: string) returns (i: nat)
    requires k in LoadRows(rows).rows
    ensures LastWithKey(rows, k, i) && LoadRows(rows).rows[k] == rows[i]
  {
    var n := |rows| - 1;
    var init := rows[..n];
    if KeyOf(rows[n]) == Some(k) {
      i := n;
    } else {
      LoadRowsOther(rows, k);
      i := LastRowIndex(init, k);
      LastWithKeyExtend(rows, k, i);
    }
  }

  /** The last row under `k` among all but the final row stays the last one when the final row has another key. */
  lemma LastWithKeyExtend(rows: seq<Row>, k: string, i: nat)
    requires rows != [] && LastWithKey(rows[..|rows| - 1], k, i) && KeyOf(rows[|rows| - 1]) != Some(k)
    ensures LastWithKey(rows, k, i) && rows[i] == rows[..|rows| - 1][i]
  {
    var init := rows[..|rows| - 1];
    forall j | i < j < |rows| ensures KeyOf(rows[j]) != Some(k) {
      if j < |init| {
        assert rows[j] == init[j];
      }
    }
  }

  /** A last row filed under another key leaves the entry of `k` as the rows before it made it. */
  lemma LoadRowsOther(rows: seq<Row>, k: string)
    requires rows != [] && KeyOf(rows[|rows| - 1]) != Some(k)
    ensures var c := LoadRows(rows); var c0 := LoadRows(rows[..|rows| - 1]);
      (k in c.rows <==> k in c0.rows) && (k in c.rows ==> c.rows[k] == c0.rows[k])
  {
  }

  /** Each key's entry is the LAST row filed under that key: a later duplicate replaces an earlier one. */
  lemma LoadRowsLastWins(rows: seq<Row>, k: string)
    requires k in LoadRows(rows).rows
    ensures exists i :: LastWithKey(rows, k, i) && LoadRows(rows).rows[k] == rows[i]
  {
    var i := LastRowIndex(rows, k);
  }

  /** A key is in the loaded cache exactly when some row is filed under it. */
  lemma {:induction false} LoadRowsMembership(rows: seq<Row>, k: string)
    ensures k in LoadRows(rows).rows <==> exists i :: 0 <= i < |rows| && KeyOf(rows[i]) == Some(k)
  {
    LoadRowsKeys(rows);
    FilterMapMembership(rows, KeyOf, k);
  }

  // ----- rewrite_cache -----

  /** `row = rows_by_domain.get(dom); if row:` — the entry of `d`, when present and non-empty. */
  function Listed(c: Cache, d: string): Option<Row> {
    if d in c.rows && c.rows[d] != map[] then Some(c.rows[d]) else None
  }

  function ListedIn(c: Cache): string -> Option<Row> {
    d => Listed(c, d)
  }

  /** The entries `rewrite_cache` hands to the writer, in the order of `allDomains`. */
  function WrittenRows(allDomains: seq<string>, c: Cache): seq<Row> {
    FilterMap(allDomains, ListedIn(c))
  }

  /** `csv.DictWriter` accepts a row only when each of its keys is a column (`extrasaction="raise"`). */
  predicate Fits(row: Row) {
    forall k :: k in row ==> k in CacheFields
  }

  /** The line `csv.DictWriter` writes for a row: each column's value, `""` where the row lacks it. */
  function Line(row: Row): seq<string> {
    seq(|CacheFields|, i requires 0 <= i < |CacheFields| => Field(row, CacheFields[i]))
  }

  function Lines(rows: seq<Row>): (r: seq<seq<string>>)
    ensures |r| == |rows|
  {
    seq(|rows|, i requires 0 <= i < |rows| => Line(rows[i]))
  }

  /**
    `rewrite_cache`: truncate the file, write the header, then the line of each
    listed domain's non-empty entry, in list order. A row with a key that is not a
    column makes the writer raise; the file then holds what was written before it,
    and `ok` is false.
  */
  method RewriteCache(allDomains: seq<string>, c: Cache) returns (lines: seq<seq<string>>, ok: bool)
    ensures ok <==> forall row :: row in WrittenRows(allDomains, c) ==> Fits(row)
    ensures ok ==> lines == [CacheFields] + Lines(WrittenRows(allDomains, c))
    ensures !ok ==>
      var w := WrittenRows(allDomains, c);
      exists n :: 0 <= n < |w| && !Fits(w[n]) && (forall m :: 0 <= m < n ==> Fits(w[m])) && lines == [CacheFields] + Lines(w[..n])
  {
    lines := [CacheFields];
    for i := 0 to |allDomains|
      invariant lines == [CacheFields] + Lines(WrittenRows(allDomains[..i], c))
      invariant forall row :: row in WrittenRows(allDomains[..i], c) ==> Fits(row)
    {
      var d := allDomains[i];
      assert allDomains[..i + 1] == allDomains[..i] + [d];
      FilterMapAppend(allDomains[..i], [d], ListedIn(c));
      if d in c.rows && c.rows[d] != map[] {
        var row := c.rows[d];
        if exists k :: k in row && k !in CacheFields {
          var w := WrittenRows(allDomains, c);
          var n := |WrittenRows(allDomains[..i], c)|;
          assert allDomains == allDomains[..i + 1] + allDomains[i + 1..];
          FilterMapAppend(allDomains[..i + 1], allDomains[i + 1..], ListedIn(c));
          assert w[..n] == WrittenRows(allDomains[..i], c);
          assert w[n] == row && row in w && !Fits(row);
          assert forall m :: 0 <= m < n ==> w[m] in WrittenRows(allDomains[..i], c);
          return lines, false;
        }
        lines := lines + [Line(row)];
      }
    }
    assert allDomains[..|allDomains|] == allDomains;
    ok := true;
  }

  /** The row `csv.DictReader` yields when it reads a written line back under the cache header. */
  function ReadBack(line: seq<string>): (row: Row)
    requires |line| == |CacheFields|
    ensures forall i :: 0 <= i < |CacheFields| ==> CacheFields[i] in row && row[CacheFields[i]] == line[i]
  {
    map["domain" := line[0], "status_code" := line[1], "error_header" := line[2], "body" := line[3]]
  }

  /** Does `d` have a non-empty entry? */
  function HasEntryIn(c: Cache): string -> bool {
    d => Listed(c, d).Some?
  }

  /**
    What `rewrite_cache` writes, given that each entry carries its own key: the
    entries of exactly those listed domains that have a non-empty entry, in the
    order of the list. Cache keys outside the list are dropped.
  */
  lemma {:induction false} WrittenRowsSpec(allDomains: seq<string>, c: Cache)
    requires WellKeyed(c)
    ensures var w := WrittenRows(allDomains, c);
      var ds := Filter(allDomains, HasEntryIn(c));
      && |w| == |ds|
      && forall i :: 0 <= i < |w| ==> ds[i] in c.rows && w[i] == c.rows[ds[i]] && Line(w[i])[0] == ds[i]
  {
    if allDomains != [] {
      var n := |allDomains| - 1;
      WrittenRowsSpec(allDomains[..n], c);
    }
  }

  /** Reading a written line back gives every column of the row it was written from. */
  lemma ReadBackLine(row: Row)
    ensures forall f :: f in CacheFields ==> Field(ReadBack(Line(row)), f) == Field(row, f)
    ensures Fits(row) && (forall f :: f in CacheFields ==> f in row) ==> ReadBack(Line(row)) == row
  {
  }

  /** The rows `csv.DictReader` yields for a written file: the first line is the header, each later line one row. */
  function Reread(lines: seq<seq<string>>): seq<Row>
    requires |lines| >= 1 && forall i :: 1 <= i < |lines| ==> |lines[i]| == |CacheFields|
  {
    seq(|lines| - 1, i requires 0 <= i < |lines| - 1 => ReadBack(lines[i + 1]))
  }

  /**
    When every listed domain has a non-empty entry filed under it, the file
    holds the header and then one line per listed domain, in list order.
  */
  lemma WrittenLinesCover(ds: seq<string>, c: Cache)
    requires WellKeyed(c) && forall i :: 0 <= i < |ds| ==> Listed(c, ds[i]).Some?
    ensures var lines := [CacheFields] + Lines(WrittenRows(ds, c));
      && |lines| == |ds| + 1 && lines[0] == CacheFields
      && forall i :: 0 <= i < |ds| ==> ds[i] in c.rows && lines[i + 1] == Line(c.rows[ds[i]]) && lines[i + 1][0] == ds[i]
  {
    FilterAll(ds, HasEntryIn(c));
    WrittenRowsSpec(ds, c);
    var w := WrittenRows(ds, c);
    var lines := [CacheFields] + Lines(w);
    forall i | 0 <= i < |ds|
      ensures ds[i] in c.rows && lines[i + 1] == Line(c.rows[ds[i]]) && lines[i + 1][0] == ds[i]
    {
      assert w[i] == c.rows[ds[i]] && Line(w[i])[0] == ds[i];
      assert lines[i + 1] == Lines(w)[i] == Line(w[i]);
    }
  }
}
