/**
  `extract_domains` (skills/icp-batch-skill/scripts/run_icp_batch.py:29-61): the
  ordered, duplicate-free list of domains named in the link column of a sheet.

  The sheet is the sequence of rows the read-only reader yields, first row the
  header; each row holds as many cells as the reader yields for it.
*/
module Extract {
  import opened Wrappers
  import opened Seqs
  import opened JsonValue
  import opened Links

  /** The domain a data row contributes: none when the link column is out of range or the cell is empty. */
  function RowDomain(row: seq<Cell>, col: nat): Option<string> {
    if col < |row| then CellDomain(row[col]) else None
  }

  /** The domain of each data row, as a function of the row. */
  function RowDomainIn(col: nat): seq<Cell> -> Option<string> {
    row => RowDomain(row, col)
  }

  /** The domains of the data rows, in row order, repetitions included. */
  function RowDomains(rows: seq<seq<Cell>>, col: nat): seq<string> {
    FilterMap(rows, RowDomainIn(col))
  }

  /**
    What `extract_domains` returns: nothing for a sheet without a header row;
    otherwise the row domains below the header with repetitions dropped, each
    kept where it first occurs.
  */
  function ExtractedDomains(sheet: seq<seq<Cell>>, linkHeader: string): seq<string> {
    if sheet == [] then [] else Dedup(RowDomains(sheet[1..], LinkColumn(sheet[0], linkHeader)))
  }

  /** One more data row adds its domain, if it has one, at the end. */
  lemma RowDomainsStep(rows: seq<seq<Cell>>, i: nat, col: nat)
    requires i < |rows|
    ensures RowDomains(rows[..i + 1], col) ==
      match RowDomain(rows[i], col)
      case None => RowDomains(rows[..i], col)
      case Some(d) => RowDomains(rows[..i], col) + [d]
  {
    assert rows[..i + 1][..i] == rows[..i];
  }

  /** The extraction loop: a `seen` set and a growing list, walked over the data rows. */
  method ExtractDomains(sheet: seq<seq<Cell>>, linkHeader: string) returns (domains: seq<string>)
    ensures domains == ExtractedDomains(sheet, linkHeader)
  {
    if sheet == [] {
      return [];
    }
    var col := LocateLinkColumn(sheet[0], linkHeader);
    var rows := sheet[1..];
    var seen: set<string> := {};
    domains := [];
    for i := 0 to |rows|
      invariant domains == Dedup(RowDomains(rows[..i], col))
      invariant forall d :: d in seen <==> d in domains
    {
      var row := rows[i];
      RowDomainsStep(rows, i, col);
      if col < |row| && row[col] != Null {
        var d := NormalizeLink(CellText(row[col]));
        DedupStep(RowDomains(rows[..i], col), d);
        if d !in seen {
          seen := seen + {d};
          domains := domains + [d];
        }
      }
    }
    assert rows[..|rows|] == rows;
  }

  /**
    The properties `extract_domains` promises: no header row gives no domains;
    otherwise the result has no repetitions, holds exactly the normalised values
    of the non-empty in-range link cells of the data rows, and lists them in the
    order of their first occurrence.
  */
  lemma ExtractedDomainsSpec(sheet: seq<seq<Cell>>, linkHeader: string)
    ensures sheet == [] ==> ExtractedDomains(sheet, linkHeader) == []
    ensures NoDuplicates(ExtractedDomains(sheet, linkHeader))
    ensures sheet != [] ==>
      var col := LinkColumn(sheet[0], linkHeader);
      var ds := ExtractedDomains(sheet, linkHeader);
      && (forall d :: d in ds <==> exists r :: 1 <= r < |sheet| && RowDomain(sheet[r], col) == Some(d))
      && (forall i, j :: 0 <= i < j < |ds| ==>
            FirstIndex(RowDomains(sheet[1..], col), ds[i]) < FirstIndex(RowDomains(sheet[1..], col), ds[j]))
  {
    if sheet != [] {
      var col := LinkColumn(sheet[0], linkHeader);
      var rows := sheet[1..];
      DedupFirstOccurrenceOrder(RowDomains(rows, col));
      forall d
        ensures d in RowDomains(rows, col) <==> (exists r :: 1 <= r < |sheet| && RowDomain(sheet[r], col) == Some(d))
      {
        FilterMapMembership(rows, RowDomainIn(col), d);
        if exists r :: 0 <= r < |rows| && RowDomain(rows[r], col) == Some(d) {
          var r :| 0 <= r < |rows| && RowDomain(rows[r], col) == Some(d);
          assert sheet[r + 1] == rows[r];
        }
        if exists r :: 1 <= r < |sheet| && RowDomain(sheet[r], col) == Some(d) {
          var r :| 1 <= r < |sheet| && RowDomain(sheet[r], col) == Some(d);
          assert rows[r - 1] == sheet[r];
        }
      }
    }
  }
}
