/**
  The two consumers of the success gate: the success map `main` builds for the
  workbook (skills/icp-batch-skill/scripts/run_icp_batch.py:448-455) and the rows
  of the success report `write_success` writes (108-132).

  Both walk the cache in key order, skip rows that fail the gate, and read fields
  out of the accepted `data` with `data.get(key, "")`. When an accepted `data` is
  truthy but not an object, `data.get` raises and the run stops: the model
  returns `None` then.
*/
module Report {
  import opened Wrappers
  import opened Seqs
  import opened JsonValue
  import opened CacheStore
  import opened Lookup

  /** The accepted `data` of a row's body (`Null` when the body is not accepted). */
  function DataOf(decode: string -> Option<Json>, row: Row): Json {
    ParseSuccess(decode, Field(row, "body")).GetOr(Null)
  }

  /** A row passes the gate but its `data` is not an object, so `data.get` raises. */
  predicate Breaks(decode: string -> Option<Json>, row: Row) {
    Passes(decode, row) && !DataOf(decode, row).Obj?
  }

  /** `data.get(key, "")` on an object. */
  function FieldOr(fields: map<string, Json>, key: string): Json {
    Get(fields, key, Str(""))
  }

  /** Some key of `ks` has an entry that passes the gate with a `data` that is not an object. */
  ghost predicate BreaksSomewhere(c: Cache, decode: string -> Option<Json>, ks: seq<string>) {
    exists i :: 0 <= i < |ks| && ks[i] in c.rows && Breaks(decode, c.rows[ks[i]])
  }

  // ----- the success map -----

  /** What the success map records for a domain: `(icp_name, icp_num)`. */
  type Info = (Json, Json)

  function InfoOf(fields: map<string, Json>): Info {
    (FieldOr(fields, "icp_name"), FieldOr(fields, "icp_num"))
  }

  /** One step of the success-map loop: the entry of key `k` added to `m` if it passes the gate, `None` if its `data.get` raises. */
  function AddEntry(c: Cache, decode: string -> Option<Json>, m: map<string, Info>, k: string): Option<map<string, Info>> {
    if k !in c.rows || !Passes(decode, c.rows[k]) then Some(m)
    else
      var data := DataOf(decode, c.rows[k]);
      if data.Obj? then Some(m[k := InfoOf(data.fields)]) else None
  }

  /** The success-map loop over the keys `ks`, in order: `None` once `data.get` has raised. */
  function SuccessMapOver(c: Cache, decode: string -> Option<Json>, ks: seq<string>): Option<map<string, Info>> {
    if ks == [] then Some(map[])
    else
      var n := |ks| - 1;
      match SuccessMapOver(c, decode, ks[..n])
      case None => None
      case Some(m) => AddEntry(c, decode, m, ks[n])
  }

  /** The loop over one more key of a prefix. */
  lemma SuccessMapPrefixStep(c: Cache, decode: string -> Option<Json>, ks: seq<string>, i: nat, m: map<string, Info>)
    requires i < |ks| && SuccessMapOver(c, decode, ks[..i]) == Some(m)
    ensures SuccessMapOver(c, decode, ks[..i + 1]) == AddEntry(c, decode, m, ks[i])
  {
    assert ks[..i + 1][..i] == ks[..i];
  }

  /** The success map of a cache. */
  function SuccessMap(c: Cache, decode: string -> Option<Json>): Option<map<string, Info>> {
    SuccessMapOver(c, decode, c.keys)
  }

  /** A prefix that has raised makes the whole walk raise. */
  lemma {:induction false} SuccessMapPrefixBreaks(c: Cache, decode: string -> Option<Json>, ks: seq<string>, i: nat)
    requires i <= |ks| && SuccessMapOver(c, decode, ks[..i]).None?
    ensures SuccessMapOver(c, decode, ks).None?
    decreases |ks| - i
  {
    if i < |ks| {
      assert ks[..i + 1][..i] == ks[..i];
      SuccessMapPrefixBreaks(c, decode, ks, i + 1);
    } else {
      assert ks[..i] == ks;
    }
  }

  /** The loop of `main` that builds `success_map` (the cache walked in key order). */
  method BuildSuccessMap(c: Cache, decode: string -> Option<Json>) returns (r: Option<map<string, Info>>)
    ensures r == SuccessMap(c, decode)
  {
    var m: map<string, Info> := map[];
    for i := 0 to |c.keys|
      invariant SuccessMapOver(c, decode, c.keys[..i]) == Some(m)
    {
      var dom := c.keys[i];
      SuccessMapPrefixStep(c, decode, c.keys, i, m);
      if dom in c.rows {
        var row := c.rows[dom];
        if Field(row, "status_code") != "200" {
          continue;
        }
        var data := ParseSuccess(decode, Field(row, "body"));
        if data.None? || !data.value.Truthy() {
          continue;
        }
        if !data.value.Obj? {
          SuccessMapPrefixBreaks(c, decode, c.keys, i + 1);
          return None;
        }
        m := m[dom := InfoOf(data.value.fields)];
      }
    }
    assert c.keys[..|c.keys|] == c.keys;
    return Some(m);
  }

  /**
    The success map raises exactly when some entry passes the gate with a `data`
    that is not an object; otherwise it maps exactly the keys whose entry passes
    the gate, each to the `icp_name` and `icp_num` of its `data` (`""` when absent).
  */
  lemma {:induction false} SuccessMapSpec(c: Cache, decode: string -> Option<Json>, ks: seq<string>)
    ensures SuccessMapOver(c, decode, ks).None? <==> BreaksSomewhere(c, decode, ks)
    ensures SuccessMapOver(c, decode, ks).Some? ==>
      var m := SuccessMapOver(c, decode, ks).value;
      forall k :: k in m <==> k in ks && k in c.rows && Passes(decode, c.rows[k])
    ensures SuccessMapOver(c, decode, ks).Some? ==>
      var m := SuccessMapOver(c, decode, ks).value;
      forall k :: k in m ==> k in c.rows && DataOf(decode, c.rows[k]).Obj? && m[k] == InfoOf(DataOf(decode, c.rows[k]).fields)
  {
    if ks != [] {
      var n := |ks| - 1;
      SuccessMapSpec(c, decode, ks[..n]);
      assert forall k :: k in ks <==> k in ks[..n] || k == ks[n];
      if BreaksSomewhere(c, decode, ks[..n]) {
        var i :| 0 <= i < n && ks[..n][i] in c.rows && Breaks(decode, c.rows[ks[..n][i]]);
        assert ks[i] == ks[..n][i];
      }
      if BreaksSomewhere(c, decode, ks) && !BreaksSomewhere(c, decode, ks[..n]) {
        var i :| 0 <= i < |ks| && ks[i] in c.rows && Breaks(decode, c.rows[ks[i]]);
      }
    }
  }

  /**
    The success map agrees with the miss selection on the same cache: a domain is
    in the map exactly when the miss selection would not query it again.
  */
  lemma SuccessMapAgreesWithMisses(c: Cache, decode: string -> Option<Json>, d: string)
    requires Valid(c) && SuccessMap(c, decode).Some?
    ensures d in SuccessMap(c, decode).value <==> !NeedsCall(c, decode, d)
  {
    SuccessMapSpec(c, decode, c.keys);
  }

  /** The sentinel entry of a call that raised never passes the gate, so it is never reported. */
  lemma SentinelNeverPasses(decode: string -> Option<Json>, d: string, kind: string, message: string)
    ensures !Passes(decode, CallRecord(d, Raised(kind, message)))
  {
    assert Field(CallRecord(d, Raised(kind, message)), "status_code") == FailedCallStatus;
  }

  // ----- the success report -----

  /** A row of the success report: the six columns, each read out of `data`. */
  datatype SuccessRecord = SuccessRecord(domain: Json, icpName: Json, icpNum: Json, sitename: Json, service: Json, status: Json)

  /** The columns of the success report, in the order they are written. */
  const SuccessFields: seq<string> := ["domain", "icp_name", "icp_num", "sitename", "service", "status"]

  function RecordOf(fields: map<string, Json>): SuccessRecord {
    SuccessRecord(
      FieldOr(fields, "domain"), FieldOr(fields, "icp_name"), FieldOr(fields, "icp_num"),
      FieldOr(fields, "sitename"), FieldOr(fields, "service"), FieldOr(fields, "status"))
  }

  /** The report row an entry contributes, if it passes the gate with an object `data`. */
  function ReportEntry(c: Cache, decode: string -> Option<Json>, k: string): Option<SuccessRecord> {
    if k in c.rows && Passes(decode, c.rows[k]) && DataOf(decode, c.rows[k]).Obj? then
      Some(RecordOf(DataOf(decode, c.rows[k]).fields))
    else None
  }

  function ReportEntryIn(c: Cache, decode: string -> Option<Json>): string -> Option<SuccessRecord> {
    k => ReportEntry(c, decode, k)
  }

  /**
    `write_success`: collect the report rows, then write them; `None` when a
    `data.get` raised, in which case the report file is not opened.
  */
  method WriteSuccess(c: Cache, decode: string -> Option<Json>) returns (r: Option<seq<SuccessRecord>>)
    ensures r.None? <==> BreaksSomewhere(c, decode, c.keys)
    ensures r.Some? ==> r.value == FilterMap(c.keys, ReportEntryIn(c, decode))
  {
    var parsed: seq<SuccessRecord> := [];
    for i := 0 to |c.keys|
      invariant parsed == FilterMap(c.keys[..i], ReportEntryIn(c, decode))
      invariant !BreaksSomewhere(c, decode, c.keys[..i])
    {
      var dom := c.keys[i];
      FilterMapPrefixStep(c.keys, i, ReportEntryIn(c, decode));
      BreaksPrefixStep(c, decode, c.keys, i);
      if dom in c.rows {
        var row := c.rows[dom];
        if Field(row, "status_code") != "200" {
          continue;
        }
        var data := ParseSuccess(decode, Field(row, "body"));
        if data.None? || !data.value.Truthy() {
          continue;
        }
        if !data.value.Obj? {
          assert c.keys[i] in c.rows && Breaks(decode, c.rows[c.keys[i]]);
          return None;
        }
        parsed := parsed + [RecordOf(data.value.fields)];
      }
    }
    assert c.keys[..|c.keys|] == c.keys;
    return Some(parsed);
  }

  /** One more key of a prefix breaks the walk exactly when its own entry breaks it. */
  lemma BreaksPrefixStep(c: Cache, decode: string -> Option<Json>, ks: seq<string>, i: nat)
    requires i < |ks|
    ensures BreaksSomewhere(c, decode, ks[..i + 1]) <==>
      BreaksSomewhere(c, decode, ks[..i]) || (ks[i] in c.rows && Breaks(decode, c.rows[ks[i]]))
  {
    var p := ks[..i + 1];
    if BreaksSomewhere(c, decode, p) {
      var j :| 0 <= j < i + 1 && p[j] in c.rows && Breaks(decode, c.rows[p[j]]);
      if j < i {
        assert ks[..i][j] == p[j];
      }
    }
    if BreaksSomewhere(c, decode, ks[..i]) {
      var j :| 0 <= j < i && ks[..i][j] in c.rows && Breaks(decode, c.rows[ks[..i][j]]);
      assert p[j] == ks[..i][j];
    }
    if ks[i] in c.rows && Breaks(decode, c.rows[ks[i]]) {
      assert p[i] == ks[i];
    }
  }

  /** The cached entry for `k` passes the gate, its `data` is an object, and `rec` is the report row made from it. */
  ghost predicate ReportedBy(c: Cache, decode: string -> Option<Json>, k: string, rec: SuccessRecord) {
    k in c.rows && Passes(decode, c.rows[k]) && DataOf(decode, c.rows[k]).Obj? && rec == RecordOf(DataOf(decode, c.rows[k]).fields)
  }

  /**
    The report lists, in cache order, one row per entry that passes the gate, and
    its columns come from `data` (the `domain` column too, not the cache key). It
    is written exactly when the success map is built.
  */
  lemma ReportSpec(c: Cache, decode: string -> Option<Json>)
    requires !BreaksSomewhere(c, decode, c.keys)
    ensures forall rec :: rec in FilterMap(c.keys, ReportEntryIn(c, decode)) <==>
      exists k :: k in c.keys && ReportedBy(c, decode, k, rec)
    ensures forall k :: k in c.keys && k in c.rows && Passes(decode, c.rows[k]) ==> exists rec :: ReportedBy(c, decode, k, rec)
    ensures SuccessMap(c, decode).Some?
  {
    SuccessMapSpec(c, decode, c.keys);
    PassingReported(c, decode);
    forall rec
      ensures rec in FilterMap(c.keys, ReportEntryIn(c, decode)) <==>
        exists k :: k in c.keys && ReportedBy(c, decode, k, rec)
    {
      ReportMember(c, decode, rec);
    }
  }

  /** One record is in the report exactly when some key's entry passes the gate and its `data` gives that record. */
  lemma ReportMember(c: Cache, decode: string -> Option<Json>, rec: SuccessRecord)
    ensures rec in FilterMap(c.keys, ReportEntryIn(c, decode)) <==>
      exists k :: k in c.keys && ReportedBy(c, decode, k, rec)
  {
    if rec in FilterMap(c.keys, ReportEntryIn(c, decode)) {
      ReportedFromCache(c, decode, rec);
    } else {
      UnreportedNotInCache(c, decode, rec);
    }
  }

  /** A reported record comes from a cached row that passes. */
  lemma ReportedFromCache(c: Cache, decode: string -> Option<Json>, rec: SuccessRecord)
    requires rec in FilterMap(c.keys, ReportEntryIn(c, decode))
    ensures exists k :: k in c.keys && ReportedBy(c, decode, k, rec)
  {
    var f := ReportEntryIn(c, decode);
    FilterMapMembership(c.keys, f, rec);
    var i :| 0 <= i < |c.keys| && f(c.keys[i]) == Some(rec);
    var k := c.keys[i];
    assert f(k) == ReportEntry(c, decode, k);
    assert k in c.keys && ReportedBy(c, decode, k, rec);
  }

  /** A record left out of the report matches no cached entry that passes. */
  lemma UnreportedNotInCache(c: Cache, decode: string -> Option<Json>, rec: SuccessRecord)
    requires rec !in FilterMap(c.keys, ReportEntryIn(c, decode))
    ensures forall k :: k in c.keys ==> !ReportedBy(c, decode, k, rec)
  {
    var f := ReportEntryIn(c, decode);
    FilterMapMembership(c.keys, f, rec);
    forall k | k in c.keys
      ensures !ReportedBy(c, decode, k, rec)
    {
      var i :| 0 <= i < |c.keys| && c.keys[i] == k;
      assert f(c.keys[i]) == ReportEntry(c, decode, k);
    }
  }

  /** Where no data breaks, every cached entry that passes the gate has an object as its `data`, so it makes a report row. */
  lemma PassingReported(c: Cache, decode: string -> Option<Json>)
    requires !BreaksSomewhere(c, decode, c.keys)
    ensures forall k :: k in c.keys && k in c.rows && Passes(decode, c.rows[k]) ==> exists rec :: ReportedBy(c, decode, k, rec)
  {
    forall k | k in c.keys && k in c.rows && Passes(decode, c.rows[k])
      ensures exists rec :: ReportedBy(c, decode, k, rec)
    {
      var i :| 0 <= i < |c.keys| && c.keys[i] == k;
      assert !(c.keys[i] in c.rows && Breaks(decode, c.rows[c.keys[i]]));
      assert ReportedBy(c, decode, k, RecordOf(DataOf(decode, c.rows[k]).fields));
    }
  }
}
