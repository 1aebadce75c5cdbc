/**
  Spreadsheet cells, the choice of the link column and the normalisation of a
  link cell into a domain. `extract_domains` and `update_workbook` both use these
  (skills/icp-batch-skill/scripts/run_icp_batch.py:39-45, 55-57, 147-153, 161-163).
*/
module Links {
  import opened Wrappers
  import opened Seqs
  import opened Text
  import opened DomainPattern
  import opened JsonValue

  /** The link column's header when none is given. */
  const DefaultLinkHeader: string := "链接"

  /** A cell value: `None` (an empty cell), a boolean, an integer or a string. */
  type Cell = v: Json | v.IsScalar() witness Null

  /** Python's `str(value)` for a cell value. */
  function CellText(c: Cell): string {
    if c.Str? then c.s
    else if c.Int? then IntText(c.i)
    else if c.Bool? then (if c.b then "True" else "False")
    else "None"
  }

  /**
    `str` of a cell: a string is its own text; an integer prints as decimal digits
    that read back as its magnitude, after a `-` exactly when it is negative; a
    boolean prints as `True` or `False` and the empty cell as `None`.
  */
  lemma CellTextSpec(c: Cell)
    ensures c.Str? ==> CellText(c) == c.s
    ensures c.Int? && c.i >= 0 ==> AllDigits(CellText(c)) && ParseDecimal(CellText(c)) == c.i
    ensures c.Int? && c.i < 0 ==>
      |CellText(c)| >= 2 && CellText(c)[0] == '-' && AllDigits(CellText(c)[1..]) && ParseDecimal(CellText(c)[1..]) == -c.i
    ensures c.Bool? ==> CellText(c) == (if c.b then "True" else "False")
    ensures c.Null? ==> CellText(c) == "None"
  {
    if c.Int? {
      var m: nat := if c.i < 0 then -c.i else c.i;
      DecimalRoundTrip(m);
      if c.i < 0 {
        assert CellText(c)[1..] == Decimal(m);
      }
    }
  }

  /** Two integer cells print the same text only when they hold the same number. */
  lemma CellTextIntInjective(m: int, n: int)
    ensures CellText(Int(m)) == CellText(Int(n)) <==> m == n
  {
    CellTextSpec(Int(m));
    CellTextSpec(Int(n));
    if CellText(Int(m)) == CellText(Int(n)) && (m < 0 <==> n >= 0) {
      assert false;
    }
  }

  /**
    The 0-based link column: the first header cell equal to the string
    `linkHeader`, or column 0 when no header cell is.
  */
  function LinkColumn(header: seq<Cell>, linkHeader: string): (col: nat)
    ensures Str(linkHeader) in header ==>
      col < |header| && header[col] == Str(linkHeader)
      && forall i :: 0 <= i < col ==> header[i] != Str(linkHeader)
    ensures Str(linkHeader) !in header ==> col == 0
  {
    if Str(linkHeader) in header then FirstIndex(header, Str(linkHeader)) else 0
  }

  /** The column search as the source writes it: scan the header and stop at the first match. */
  method LocateLinkColumn(header: seq<Cell>, linkHeader: string) returns (col: nat)
    ensures col == LinkColumn(header, linkHeader)
  {
    var idx := 0;
    while idx < |header|
      invariant idx <= |header|
      invariant Str(linkHeader) !in header[..idx]
    {
      if header[idx] == Str(linkHeader) {
        assert Str(linkHeader) !in header[..idx] && header[idx] == Str(linkHeader);
        return idx;
      }
      assert header[..idx + 1] == header[..idx] + [header[idx]];
      idx := idx + 1;
    }
    assert header[..idx] == header;
    return 0;
  }

  /**
    The domain a link text stands for: the leftmost match of the domain pattern in
    the stripped text when there is one, the whole stripped text otherwise, lower-cased.
  */
  function NormalizeLink(text: string): string {
    var t := Strip(text);
    match Search(t)
    case Some(span) => Lower(t[span.0..span.1])
    case None => Lower(t)
  }

  /** The domain a data cell contributes: nothing for an empty cell, else its normalised text. */
  function CellDomain(c: Cell): Option<string> {
    if c == Null then None else Some(NormalizeLink(CellText(c)))
  }

  // ----- Normalising a domain again gives the same domain -----

  lemma LowerCharClasses(c: char)
    ensures IsLetter(LowerChar(c)) == IsLetter(c)
    ensures IsHostChar(LowerChar(c)) == IsHostChar(c)
    ensures (LowerChar(c) == '.') == (c == '.')
    ensures IsSpace(LowerChar(c)) == IsSpace(c)
    ensures LowerChar(LowerChar(c)) == LowerChar(c)
  {
  }

  /** Lower-casing changes no character class the pattern uses, so it matches the same spans. */
  lemma MatchSplitLower(s: string, i: int, j: int, k: int)
    ensures MatchSplit(Lower(s), i, j, k) <==> MatchSplit(s, i, j, k)
  {
    forall t | 0 <= t < |s| {
      LowerCharClasses(s[t]);
    }
  }

  /** A match inside a slice is a match in the whole string, shifted by the slice's start. */
  lemma MatchSplitSlice(s: string, a: nat, b: nat, i: int, j: int, k: int)
    requires a <= b <= |s| && 0 <= i
    ensures MatchSplit(s[a..b], i, j, k) <==> (k <= b - a && MatchSplit(s, a + i, a + j, a + k))
  {
    var u := s[a..b];
    if MatchSplit(u, i, j, k) {
      forall t | a + i <= t < a + j ensures IsHostChar(s[t]) {
        assert s[t] == u[t - a];
      }
      forall t | a + j < t < a + k ensures IsLetter(s[t]) {
        assert s[t] == u[t - a];
      }
    }
    if k <= b - a && MatchSplit(s, a + i, a + j, a + k) {
      forall t | i <= t < j ensures IsHostChar(u[t]) {
        assert u[t] == s[a + t];
      }
      forall t | j < t < k ensures IsLetter(u[t]) {
        assert u[t] == s[a + t];
      }
    }
  }

  lemma LowerIdempotent(s: string)
    ensures Lower(Lower(s)) == Lower(s)
  {
    forall k | 0 <= k < |s| {
      LowerCharClasses(s[k]);
    }
  }

  /** A string that neither starts nor ends with whitespace is its own `strip()`. */
  lemma StripUnpadded(s: string)
    requires s == [] || (!IsSpace(s[0]) && !IsSpace(s[|s| - 1]))
    ensures Strip(s) == s
  {
    assert s[0..] == s;
  }

  /** Two preferred splits at the same start are the same split. */
  lemma PreferredUnique(s: string, i: int, j: int, k: int, j': int, k': int)
    requires PreferredSplit(s, i, j, k) && PreferredSplit(s, i, j', k')
    ensures j == j' && k == k'
  {
  }

  /** A stripped text stays stripped when lower-cased. */
  lemma LowerUnpadded(t: string)
    requires t == [] || (!IsSpace(t[0]) && !IsSpace(t[|t| - 1]))
    ensures Strip(Lower(t)) == Lower(t)
  {
    if t != [] {
      LowerCharClasses(t[0]);
      LowerCharClasses(t[|t| - 1]);
    }
    StripUnpadded(Lower(t));
  }

  /** Text in which the pattern matches nowhere still has no match once lower-cased. */
  lemma NoMatchLower(t: string)
    requires Search(t).None?
    ensures Search(Lower(t)).None?
  {
    SearchSpec(t);
    forall i, j, k ensures !MatchSplit(Lower(t), i, j, k) {
      MatchSplitLower(t, i, j, k);
    }
    SearchSpec(Lower(t));
  }

  /** The span `search` reports, lower-cased, is matched whole by the pattern. */
  lemma WholeMatch(t: string, i: nat, j: int, k: nat)
    requires PreferredSplit(t, i, j, k)
    ensures var d := Lower(t[i..k]);
      Strip(d) == d && Search(d) == Some((0, |d|))
  {
    var m := t[i..k];
    var d := Lower(m);
    forall x | 0 <= x < |m| ensures IsHostChar(m[x]) && !IsSpace(m[x]) {
      assert m[x] == t[i + x];
    }
    LowerUnpadded(m);
    MatchSplitSlice(t, i, k, 0, j - i, k - i);
    MatchSplitLower(m, 0, j - i, k - i);
    assert PreferredSplit(d, 0, j - i, k - i) by {
      forall j', k' | MatchSplit(d, 0, j', k') ensures j' < j - i || (j' == j - i && k' <= k - i) {
        MatchSplitLower(m, 0, j', k');
        MatchSplitSlice(t, i, k, 0, j', k');
      }
    }
    SearchSpec(d);
    var r := Search(d).value;
    assert r.0 == 0;
    var j2 :| PreferredSplit(d, 0, j2, r.1);
    PreferredUnique(d, 0, j - i, k - i, j2, r.1);
  }

  /**
    Normalisation is idempotent: a domain taken out of a link cell normalises to
    itself: running a normalised domain through the same steps changes nothing.
  */
  lemma NormalizeIdempotent(text: string)
    ensures NormalizeLink(NormalizeLink(text)) == NormalizeLink(text)
  {
    var t := Strip(text);
    var d := NormalizeLink(text);
    match Search(t)
    case None =>
      LowerUnpadded(t);
      NoMatchLower(t);
      LowerIdempotent(t);
    case Some(span) =>
      SearchSpec(t);
      var j :| PreferredSplit(t, span.0, j, span.1);
      WholeMatch(t, span.0, j, span.1);
      assert d[0..|d|] == d;
      LowerIdempotent(t[span.0..span.1]);
  }
}
