/**
  The cache-first lookup inside `main`: choosing the domains that must be
  queried again (skills/icp-batch-skill/scripts/run_icp_batch.py:402-412) and
  merging the answers of the ICP API into the cache while counting failures
  (423-435).

  The HTTP call (`call_api`, 84-92) is an oracle `api` from a domain to what the
  call produced: a response, or the exception it raised. Timing, sleeping and
  progress messages are not modelled.
*/
module Lookup {
  import opened Wrappers
  import opened Seqs
  import opened Text
  import opened JsonValue
  import opened CacheStore

  /**
    The success gate every consumer of the cache applies to a row: status text
    `"200"` and a body `parse_success` accepts with a truthy result.
  */
  predicate Passes(decode: string -> Option<Json>, row: Row) {
    Field(row, "status_code") == "200" && Accepted(decode, Field(row, "body"))
  }

  /** A domain is queried again when its entry is missing, empty, or fails the gate. */
  predicate NeedsCall(c: Cache, decode: string -> Option<Json>, d: string) {
    !(d in c.rows && c.rows[d] != map[] && Passes(decode, c.rows[d]))
  }

  function NeedsCallIn(c: Cache, decode: string -> Option<Json>): string -> bool {
    d => NeedsCall(c, decode, d)
  }

  /** The domains queried again: the ones that need a call, in list order. */
  function Misses(domains: seq<string>, c: Cache, decode: string -> Option<Json>): seq<string> {
    Filter(domains, NeedsCallIn(c, decode))
  }

  /** The miss-selection loop of `main`, with its three reasons to query a domain again. */
  method SelectMisses(domains: seq<string>, c: Cache, decode: string -> Option<Json>) returns (toCall: seq<string>)
    ensures toCall == Misses(domains, c, decode)
  {
    toCall := [];
    for i := 0 to |domains|
      invariant toCall == Filter(domains[..i], NeedsCallIn(c, decode))
    {
      var dom := domains[i];
      assert domains[..i + 1] == domains[..i] + [dom];
      FilterStep(domains[..i], dom, NeedsCallIn(c, decode));
      if dom !in c.rows || c.rows[dom] == map[] {
        toCall := toCall + [dom];
      } else if Field(c.rows[dom], "status_code") != "200" {
        toCall := toCall + [dom];
      } else if !Accepted(decode, Field(c.rows[dom], "body")) {
        toCall := toCall + [dom];
      }
    }
    assert domains[..|domains|] == domains;
  }

  /**
    When a domain is queried again: no entry, an empty entry, a status other than
    `"200"`, a body that does not decode to an object with `code == 1`, or one whose
    `data` is absent or falsy.
  */
  lemma NeedsCallIff(c: Cache, decode: string -> Option<Json>, d: string)
    ensures NeedsCall(c, decode, d) <==>
      || d !in c.rows || c.rows[d] == map[]
      || Field(c.rows[d], "status_code") != "200"
      || var v := decode(Field(c.rows[d], "body"));
         !(v.Some? && CodeIsOne(v.value) && "data" in v.value.fields && v.value.fields["data"].Truthy())
  {
    if d in c.rows {
      AcceptedIff(decode, Field(c.rows[d], "body"));
    }
  }

  /**
    The selected domains are the domains that need a call, kept in list order; a
    duplicate-free list gives a duplicate-free selection, and when every domain
    passes nothing is queried.
  */
  lemma MissesSpec(domains: seq<string>, c: Cache, decode: string -> Option<Json>)
    ensures forall d :: d in Misses(domains, c, decode) <==> d in domains && NeedsCall(c, decode, d)
    ensures IsSubsequence(Misses(domains, c, decode), domains)
    ensures NoDuplicates(domains) ==> NoDuplicates(Misses(domains, c, decode))
    ensures (forall d :: d in domains ==> !NeedsCall(c, decode, d)) ==> Misses(domains, c, decode) == []
  {
    FilterMembership(domains, NeedsCallIn(c, decode));
    FilterIsSubsequence(domains, NeedsCallIn(c, decode));
    if NoDuplicates(domains) {
      FilterNoDuplicates(domains, NeedsCallIn(c, decode));
    }
    var m := Misses(domains, c, decode);
    if m != [] {
      assert m[0] in m;
    }
  }

  // ----- the merge loop -----

  /** What one call produced: a response (status, `X-Ca-Error-Message` header if sent, text), or a raised exception. */
  datatype ApiOutcome =
    | Response(status: nat, errorMessage: Option<string>, text: string)
    | Raised(kind: string, message: string)

  /** The status text of the sentinel entry recorded for a call that raised. */
  const FailedCallStatus: string := "-1"

  /** The entry `cache[dom]` receives: `call_api`'s record, or the sentinel record of the exception. */
  function CallRecord(d: string, o: ApiOutcome): Row {
    match o
    case Response(status, errorMessage, text) =>
      map["domain" := d, "status_code" := Decimal(status), "error_header" := errorMessage.GetOr(""), "body" := text]
    case Raised(kind, message) =>
      map["domain" := d, "status_code" := FailedCallStatus, "error_header" := kind, "body" := message]
  }

  /** A call's record is filed under its domain and has exactly the cache columns. */
  lemma CallRecordShape(d: string, o: ApiOutcome)
    ensures var row := CallRecord(d, o);
      && "domain" in row && row["domain"] == d
      && Fits(row) && forall f :: f in CacheFields ==> f in row
  {
  }

  /** A call counts as an error when it raised or answered with a status other than 200. */
  predicate Failed(o: ApiOutcome) {
    o.Raised? || o.status != 200
  }

  function FailedIn(api: string -> ApiOutcome): string -> bool {
    d => Failed(api(d))
  }

  /** The cache after the entries of the queried domains have been overwritten in turn. */
  function Merged(c: Cache, toCall: seq<string>, api: string -> ApiOutcome): Cache {
    if toCall == [] then c
    else
      var n := |toCall| - 1;
      Put(Merged(c, toCall[..n], api), toCall[n], CallRecord(toCall[n], api(toCall[n])))
  }

  /** Merging one more queried domain of a list. */
  lemma MergedStep(c: Cache, toCall: seq<string>, i: nat, api: string -> ApiOutcome)
    requires i < |toCall|
    ensures Merged(c, toCall[..i + 1], api) == Put(Merged(c, toCall[..i], api), toCall[i], CallRecord(toCall[i], api(toCall[i])))
  {
    assert toCall[..i + 1][..i] == toCall[..i];
  }

  /** The merge keeps the cache's order in step with its entries, and each entry filed under its own key. */
  lemma {:induction false} MergedValid(c: Cache, toCall: seq<string>, api: string -> ApiOutcome)
    ensures Valid(c) ==> Valid(Merged(c, toCall, api))
    ensures WellKeyed(c) ==> WellKeyed(Merged(c, toCall, api))
  {
    if toCall != [] {
      var n := |toCall| - 1;
      MergedValid(c, toCall[..n], api);
      CallRecordShape(toCall[n], api(toCall[n]));
      PutValid(Merged(c, toCall[..n], api), toCall[n], CallRecord(toCall[n], api(toCall[n])));
    }
  }

  /** The recorded status is `"200"` exactly when the call did not fail. */
  lemma RecordStatus(d: string, o: ApiOutcome)
    ensures Field(CallRecord(d, o), "status_code") == "200" <==> !Failed(o)
  {
    assert Decimal(200) == "200";
    if o.Response? {
      DecimalInjective(o.status, 200);
    }
  }

  /**
    The merge loop of `main`: each queried domain's entry is overwritten with the
    call's record, and `errors` counts the calls that raised or whose recorded
    status is not `"200"`.
  */
  method Merge(c0: Cache, toCall: seq<string>, api: string -> ApiOutcome) returns (c: Cache, errors: nat)
    ensures c == Merged(c0, toCall, api)
    ensures errors == |Filter(toCall, FailedIn(api))|
  {
    c := c0;
    errors := 0;
    for i := 0 to |toCall|
      invariant c == Merged(c0, toCall[..i], api)
      invariant errors == |Filter(toCall[..i], FailedIn(api))|
    {
      var dom := toCall[i];
      MergedStep(c0, toCall, i, api);
      FilterPrefixStep(toCall, i, FailedIn(api));
      var outcome := api(dom);
      var record := CallRecord(dom, outcome);
      RecordStatus(dom, outcome);
      c := Put(c, dom, record);
      if outcome.Raised? {
        errors := errors + 1;
      } else if Field(record, "status_code") != "200" {
        errors := errors + 1;
      }
    }
    assert toCall[..|toCall|] == toCall;
  }

  /** Which queried domains have a brand-new key. */
  function NewKeyIn(c: Cache): string -> bool {
    d => d !in c.rows
  }

  /** After the merge every queried domain holds the record of its call. */
  lemma {:induction false} MergedCalled(c0: Cache, toCall: seq<string>, api: string -> ApiOutcome)
    ensures forall d :: d in toCall ==>
      d in Merged(c0, toCall, api).rows && Merged(c0, toCall, api).rows[d] == CallRecord(d, api(d))
  {
    if toCall != [] {
      var n := |toCall| - 1;
      MergedCalled(c0, toCall[..n], api);
      assert forall d :: d in toCall ==> d in toCall[..n] || d == toCall[n];
    }
  }

  /** Every key that was not queried keeps its entry, and no other key appears. */
  lemma {:induction false} MergedFrame(c0: Cache, toCall: seq<string>, api: string -> ApiOutcome, k: string)
    requires k !in toCall
    ensures k in Merged(c0, toCall, api).rows <==> k in c0.rows
    ensures k in c0.rows ==> Merged(c0, toCall, api).rows[k] == c0.rows[k]
  {
    if toCall != [] {
      var n := |toCall| - 1;
      assert toCall[n] in toCall;
      assert forall d :: d in toCall[..n] ==> d in toCall;
      MergedFrame(c0, toCall[..n], api, k);
    }
  }

  /** The keys after the merge are the old keys and the queried domains. */
  lemma {:induction false} MergedKeySet(c0: Cache, toCall: seq<string>, api: string -> ApiOutcome, k: string)
    ensures k in Merged(c0, toCall, api).rows <==> k in c0.rows || k in toCall
  {
    if toCall != [] {
      var n := |toCall| - 1;
      MergedKeySet(c0, toCall[..n], api, k);
      assert toCall == toCall[..n] + [toCall[n]];
    }
  }

  /** Storing an entry under `d` extends the order `keys0 + f` to `keys0 + g` when `g` is `f`, plus `d` exactly when `d` is new. */
  lemma KeysStep(keys0: seq<string>, m: Cache, f: seq<string>, g: seq<string>, d: string, row: Row)
    requires m.keys == keys0 + f
    requires g == if d in m.rows then f else f + [d]
    ensures Put(m, d, row).keys == keys0 + g
  {
    if d !in m.rows {
      assert (keys0 + f) + [d] == keys0 + (f + [d]);
    }
  }

  /** A domain joins the new keys unless it is an old key or was queried before. */
  lemma NewKeyStep(c0: Cache, init: seq<string>, d: string)
    ensures Dedup(Filter(init + [d], NewKeyIn(c0))) ==
      if d in c0.rows || d in init then Dedup(Filter(init, NewKeyIn(c0))) else Dedup(Filter(init, NewKeyIn(c0))) + [d]
  {
    var f := Filter(init, NewKeyIn(c0));
    FilterStep(init, d, NewKeyIn(c0));
    if d !in c0.rows {
      FilterMembership(init, NewKeyIn(c0));
      DedupStep(f, d);
    }
  }

  /** The key order is the old order followed by the queried domains that were not yet keys, in query order. */
  lemma {:induction false} MergedKeys(c0: Cache, toCall: seq<string>, api: string -> ApiOutcome)
    ensures Merged(c0, toCall, api).keys == c0.keys + Dedup(Filter(toCall, NewKeyIn(c0)))
  {
    if toCall != [] {
      var n := |toCall| - 1;
      MergedKeys(c0, toCall[..n], api);
      MergedKeysStep(c0, toCall[..n], toCall[n], api);
      assert toCall == toCall[..n] + [toCall[n]];
    }
  }

  /** One more queried domain keeps the key order as `MergedKeys` describes it. */
  lemma MergedKeysStep(c0: Cache, init: seq<string>, d: string, api: string -> ApiOutcome)
    requires Merged(c0, init, api).keys == c0.keys + Dedup(Filter(init, NewKeyIn(c0)))
    ensures Merged(c0, init + [d], api).keys == c0.keys + Dedup(Filter(init + [d], NewKeyIn(c0)))
  {
    var m := Merged(c0, init, api);
    assert (init + [d])[..|init|] == init;
    assert Merged(c0, init + [d], api) == Put(m, d, CallRecord(d, api(d)));
    MergedKeySet(c0, init, api, d);
    NewKeyStep(c0, init, d);
    KeysStep(c0.keys, m, Dedup(Filter(init, NewKeyIn(c0))), Dedup(Filter(init + [d], NewKeyIn(c0))), d, CallRecord(d, api(d)));
  }

  /**
    `errors` counts exactly the queried domains whose new entry has a status other
    than `"200"`, so it never exceeds the number of calls.
  */
  lemma ErrorsSpec(c0: Cache, toCall: seq<string>, api: string -> ApiOutcome)
    requires Valid(c0)
    ensures var c := Merged(c0, toCall, api);
      && (forall d :: d in toCall ==> d in c.rows)
      && Filter(toCall, FailedIn(api)) == Filter(toCall, d => d in c.rows && Field(c.rows[d], "status_code") != "200")
      && |Filter(toCall, FailedIn(api))| <= |toCall|
  {
    var c := Merged(c0, toCall, api);
    MergedCalled(c0, toCall, api);
    forall i | 0 <= i < |toCall|
      ensures FailedIn(api)(toCall[i]) == (toCall[i] in c.rows && Field(c.rows[toCall[i]], "status_code") != "200")
    {
      RecordStatus(toCall[i], api(toCall[i]));
    }
    FilterCongruent(toCall, FailedIn(api), d => d in c.rows && Field(c.rows[d], "status_code") != "200");
  }
}
