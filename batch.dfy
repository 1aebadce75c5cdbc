/**
  The pipeline of `main` (skills/icp-batch-skill/scripts/run_icp_batch.py:365-470):
  extract the domains of the workbook, load the cache, select the domains to
  query, merge the answers, rewrite the cache, build the success map, write the
  success report and annotate the workbook, all with the default link header.

  The command line, the AppCode lookup, the paths, the progress display, the
  clock and the pause between calls are not modelled. A step that raises ends
  the run (`sys.exit(1)`); the model then returns `None`.
*/
module Batch {
  import opened Wrappers
  import opened Seqs
  import opened JsonValue
  import opened Links
  import opened Extract
  import opened CacheStore
  import opened Lookup
  import opened Report
  import opened Workbook

  /** The counts of the closing message: domains, API calls, failed calls. */
  datatype Summary = Summary(total: nat, calls: nat, failures: nat)

  /** What a run that finishes leaves behind. */
  datatype Outcome = Outcome(
    cacheLines: seq<seq<string>>,
    successMap: map<string, Info>,
    report: seq<SuccessRecord>,
    sheet: Grid,
    summary: Summary)

  /** The domains the run works on. */
  function Domains(grid: Grid): seq<string> {
    ExtractedDomains(grid, DefaultLinkHeader)
  }

  /** The domains the run queries. */
  function Queried(grid: Grid, cacheFile: Option<seq<Row>>, decode: string -> Option<Json>): seq<string> {
    Misses(Domains(grid), LoadCache(cacheFile), decode)
  }

  /** The cache once every answer is in. */
  function Final(grid: Grid, cacheFile: Option<seq<Row>>, decode: string -> Option<Json>, api: string -> ApiOutcome): Cache {
    Merged(LoadCache(cacheFile), Queried(grid, cacheFile, decode), api)
  }

  /** Everything `main` produces, or `None` when a step raises. */
  function Run(grid: Grid, cacheFile: Option<seq<Row>>, decode: string -> Option<Json>, api: string -> ApiOutcome): Option<Outcome> {
    var domains := Domains(grid);
    var toCall := Queried(grid, cacheFile, decode);
    var c := Final(grid, cacheFile, decode, api);
    var w := WrittenRows(domains, c);
    if exists row :: row in w && !Fits(row) then None
    else
      match SuccessMap(c, decode)
      case None => None
      case Some(sm) =>
        match Annotated(grid, sm, DefaultLinkHeader)
        case None => None
        case Some(g) =>
          Some(Outcome([CacheFields] + Lines(w), sm, FilterMap(c.keys, ReportEntryIn(c, decode)), g,
            Summary(|domains|, |toCall|, |Filter(toCall, FailedIn(api))|)))
  }

  /** `main`, step by step, on the worksheet it annotates. */
  method RunBatch(ws: Worksheet, cacheFile: Option<seq<Row>>, decode: string -> Option<Json>, api: string -> ApiOutcome)
      returns (r: Option<Outcome>)
    modifies ws
    ensures r == Run(old(ws.grid), cacheFile, decode, api)
    ensures r.Some? ==> ws.grid == r.value.sheet
  {
    var grid := ws.grid;
    var domains := ExtractDomains(grid, DefaultLinkHeader);
    var c0 := LoadCache(cacheFile);
    var toCall := SelectMisses(domains, c0, decode);
    var c, errors := Merge(c0, toCall, api);
    var lines, ok := RewriteCache(domains, c);
    if !ok {
      return None;
    }
    var sm := BuildSuccessMap(c, decode);
    if sm.None? {
      return None;
    }
    SuccessMapSpec(c, decode, c.keys);
    var report := WriteSuccess(c, decode);
    var saved := UpdateWorkbook(ws, sm.value, DefaultLinkHeader);
    if !saved {
      return None;
    }
    r := Some(Outcome(lines, sm.value, report.value, ws.grid, Summary(|domains|, |toCall|, errors)));
  }

  /** The final cache is in step with its order and files each entry under its own domain. */
  lemma FinalValid(grid: Grid, cacheFile: Option<seq<Row>>, decode: string -> Option<Json>, api: string -> ApiOutcome)
    ensures Valid(Final(grid, cacheFile, decode, api)) && WellKeyed(Final(grid, cacheFile, decode, api))
  {
    MergedValid(LoadCache(cacheFile), Queried(grid, cacheFile, decode), api);
  }

  /**
    After the merge every domain of the workbook has a non-empty entry: the
    answer of its call when it was queried, its cached entry otherwise.
  */
  lemma FinalEntry(grid: Grid, cacheFile: Option<seq<Row>>, decode: string -> Option<Json>, api: string -> ApiOutcome, d: string)
    requires d in Domains(grid)
    ensures var c := Final(grid, cacheFile, decode, api);
      && d in c.rows && c.rows[d] != map[]
      && (d in Queried(grid, cacheFile, decode) ==> c.rows[d] == CallRecord(d, api(d)))
      && (d !in Queried(grid, cacheFile, decode) ==> Passes(decode, c.rows[d]))
  {
    var c0 := LoadCache(cacheFile);
    var toCall := Queried(grid, cacheFile, decode);
    MissesSpec(Domains(grid), c0, decode);
    if d in toCall {
      MergedCalled(c0, toCall, api);
      CallRecordShape(d, api(d));
    } else {
      MergedFrame(c0, toCall, api, d);
    }
  }

  /** The parts of a finished run, named by the steps that produce them. */
  lemma RunParts(grid: Grid, cacheFile: Option<seq<Row>>, decode: string -> Option<Json>, api: string -> ApiOutcome)
    requires Run(grid, cacheFile, decode, api).Some?
    ensures var o := Run(grid, cacheFile, decode, api).value;
      var c := Final(grid, cacheFile, decode, api);
      && o.cacheLines == [CacheFields] + Lines(WrittenRows(Domains(grid), c))
      && SuccessMap(c, decode) == Some(o.successMap)
      && Annotated(grid, o.successMap, DefaultLinkHeader) == Some(o.sheet)
  {
  }

  /** The saved workbook names the same domains as the workbook the run read. */
  lemma SavedSheetSameDomains(grid: Grid, cacheFile: Option<seq<Row>>, decode: string -> Option<Json>, api: string -> ApiOutcome)
    requires Run(grid, cacheFile, decode, api).Some?
    ensures Domains(Run(grid, cacheFile, decode, api).value.sheet) == Domains(grid)
  {
    RunParts(grid, cacheFile, decode, api);
    assert DefaultLinkHeader != SubjectLabel && DefaultLinkHeader != NumberLabel;
    AnnotatedSameDomains(grid, Run(grid, cacheFile, decode, api).value.successMap, DefaultLinkHeader);
  }

  /**
    The rewritten cache file holds the header and then exactly one line per
    domain of the workbook, in workbook order, each the line of that domain's
    final entry: entries of domains no longer in the workbook are dropped.
  */
  lemma RunRewritesEveryDomain(grid: Grid, cacheFile: Option<seq<Row>>, decode: string -> Option<Json>, api: string -> ApiOutcome)
    requires Run(grid, cacheFile, decode, api).Some?
    ensures var lines := Run(grid, cacheFile, decode, api).value.cacheLines;
      var ds := Domains(grid);
      var c := Final(grid, cacheFile, decode, api);
      && |lines| == |ds| + 1 && lines[0] == CacheFields
      && forall i :: 0 <= i < |ds| ==> ds[i] in c.rows && lines[i + 1] == Line(c.rows[ds[i]]) && lines[i + 1][0] == ds[i]
  {
    var ds := Domains(grid);
    var c := Final(grid, cacheFile, decode, api);
    FinalValid(grid, cacheFile, decode, api);
    forall i | 0 <= i < |ds|
      ensures Listed(c, ds[i]).Some?
    {
      FinalEntry(grid, cacheFile, decode, api, ds[i]);
    }
    WrittenLinesCover(ds, c);
    RunParts(grid, cacheFile, decode, api);
  }

  /**
    A domain of the workbook is in the success map exactly when it was not
    queried (its cached entry already passed) or its fresh answer passes the gate.
  */
  lemma RunSuccessMap(grid: Grid, cacheFile: Option<seq<Row>>, decode: string -> Option<Json>, api: string -> ApiOutcome, d: string)
    requires Run(grid, cacheFile, decode, api).Some? && d in Domains(grid)
    ensures d in Run(grid, cacheFile, decode, api).value.successMap <==>
      (d in Queried(grid, cacheFile, decode) ==> Passes(decode, CallRecord(d, api(d))))
  {
    var c := Final(grid, cacheFile, decode, api);
    FinalValid(grid, cacheFile, decode, api);
    FinalEntry(grid, cacheFile, decode, api, d);
    SuccessMapAgreesWithMisses(c, decode, d);
  }

  /** The closing counts: failed calls never exceed calls, which never exceed the domains. */
  lemma RunSummary(grid: Grid, cacheFile: Option<seq<Row>>, decode: string -> Option<Json>, api: string -> ApiOutcome)
    requires Run(grid, cacheFile, decode, api).Some?
    ensures var s := Run(grid, cacheFile, decode, api).value.summary;
      && s.total == |Domains(grid)| && s.calls == |Queried(grid, cacheFile, decode)|
      && s.failures <= s.calls <= s.total
  {
  }

  /** Is `d` missing from the success map? */
  function UnreportedIn(sm: map<string, Info>): string -> bool {
    d => d !in sm
  }

  /**
    Reading back lines written from the entries of `c` for the domains `ds`:
    a domain of `ds` needs a call exactly when its entry in `c` fails the gate.
  */
  lemma ReloadNeedsCall(lines: seq<seq<string>>, ds: seq<string>, c: Cache, decode: string -> Option<Json>, i: nat)
    requires |lines| == |ds| + 1 && i < |ds|
    requires forall k :: 0 <= k < |ds| ==> ds[k] in c.rows && lines[k + 1] == Line(c.rows[ds[k]]) && lines[k + 1][0] == ds[k]
    ensures forall k :: 1 <= k < |lines| ==> |lines[k]| == |CacheFields|
    ensures NeedsCall(LoadCache(Some(Reread(lines))), decode, ds[i]) <==> !Passes(decode, c.rows[ds[i]])
  {
    assert forall k :: 1 <= k < |lines| ==> lines[k] == Line(c.rows[ds[k - 1]]);
    RereadLines(lines, ds, c);
    LoadedRowIsLine(Reread(lines), ds, c, i);
  }

  /** The rows read back from lines written for the domains `ds`: one per domain, filed under it. */
  lemma RereadLines(lines: seq<seq<string>>, ds: seq<string>, c: Cache)
    requires |lines| == |ds| + 1
    requires forall k :: 1 <= k < |lines| ==> |lines[k]| == |CacheFields|
    requires forall k :: 0 <= k < |ds| ==> ds[k] in c.rows && lines[k + 1] == Line(c.rows[ds[k]]) && lines[k + 1][0] == ds[k]
    ensures |Reread(lines)| == |ds|
    ensures forall k :: 0 <= k < |ds| ==> Reread(lines)[k] == ReadBack(Line(c.rows[ds[k]])) && KeyOf(Reread(lines)[k]) == Some(ds[k])
  {
  }

  /** The loaded entry of a domain whose every row is the read-back line of its entry in `c` agrees with `c` on the gate's fields. */
  lemma LoadedRowIsLine(rows: seq<Row>, ds: seq<string>, c: Cache, i: nat)
    requires |rows| == |ds| && i < |ds|
    requires forall k :: 0 <= k < |ds| ==> ds[k] in c.rows && rows[k] == ReadBack(Line(c.rows[ds[k]])) && KeyOf(rows[k]) == Some(ds[k])
    ensures ds[i] in LoadRows(rows).rows && LoadRows(rows).rows[ds[i]] != map[]
    ensures Field(LoadRows(rows).rows[ds[i]], "status_code") == Field(c.rows[ds[i]], "status_code")
    ensures Field(LoadRows(rows).rows[ds[i]], "body") == Field(c.rows[ds[i]], "body")
  {
    var d := ds[i];
    LoadRowsMembership(rows, d);
    var j := LastRowIndex(rows, d);
    ReadBackLine(c.rows[d]);
    assert rows[j] == ReadBack(Line(c.rows[d]));
    assert "domain" in LoadRows(rows).rows[d];
  }

  /**
    A second run over the workbook this run saved, reading back the cache file
    this run wrote, finds the same domains and queries exactly the ones this run
    did not find successful, in workbook order.
  */
  lemma RerunQueriesOnlyFailures(grid: Grid, cacheFile: Option<seq<Row>>, decode: string -> Option<Json>, api: string -> ApiOutcome)
    requires Run(grid, cacheFile, decode, api).Some?
    ensures var o := Run(grid, cacheFile, decode, api).value;
      && Domains(o.sheet) == Domains(grid)
      && |o.cacheLines| >= 1 && (forall k :: 1 <= k < |o.cacheLines| ==> |o.cacheLines[k]| == |CacheFields|)
      && Misses(Domains(o.sheet), LoadCache(Some(Reread(o.cacheLines))), decode) == Filter(Domains(o.sheet), UnreportedIn(o.successMap))
  {
    var o := Run(grid, cacheFile, decode, api).value;
    SavedSheetSameDomains(grid, cacheFile, decode, api);
    var ds := Domains(grid);
    var c := Final(grid, cacheFile, decode, api);
    RunRewritesEveryDomain(grid, cacheFile, decode, api);
    RunParts(grid, cacheFile, decode, api);
    FinalValid(grid, cacheFile, decode, api);
    forall d | d in ds
      ensures d in o.successMap <==> Passes(decode, c.rows[d])
    {
      FinalEntry(grid, cacheFile, decode, api, d);
      SuccessMapAgreesWithMisses(c, decode, d);
    }
    RereadMisses(o.cacheLines, ds, c, decode, o.successMap);
  }

  /**
    Reading back lines written from the entries of `c` for the domains `ds`, the
    miss selection over `ds` picks exactly the domains missing from a map that
    holds the domains whose entry passes the gate.
  */
  lemma RereadMisses(lines: seq<seq<string>>, ds: seq<string>, c: Cache, decode: string -> Option<Json>, sm: map<string, Info>)
    requires |lines| == |ds| + 1
    requires forall k :: 0 <= k < |ds| ==> ds[k] in c.rows && lines[k + 1] == Line(c.rows[ds[k]]) && lines[k + 1][0] == ds[k]
    requires forall d :: d in ds ==> (d in sm <==> Passes(decode, c.rows[d]))
    ensures forall k :: 1 <= k < |lines| ==> |lines[k]| == |CacheFields|
    ensures Misses(ds, LoadCache(Some(Reread(lines))), decode) == Filter(ds, UnreportedIn(sm))
  {
    assert forall k :: 1 <= k < |lines| ==> lines[k] == Line(c.rows[ds[k - 1]]);
    var c2 := LoadCache(Some(Reread(lines)));
    forall i | 0 <= i < |ds|
      ensures NeedsCallIn(c2, decode)(ds[i]) == UnreportedIn(sm)(ds[i])
    {
      ReloadNeedsCall(lines, ds, c, decode, i);
    }
    FilterCongruent(ds, NeedsCallIn(c2, decode), UnreportedIn(sm));
  }
}
