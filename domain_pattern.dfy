/**
  `DOMAIN_PATTERN.search(text)` for the pattern `[A-Za-z0-9.-]+\.[A-Za-z]{2,}`.

  `MatchSplit` says when a span is matched by the pattern; `Search` is a concrete
  scanner proved to return the span Python's `re.search` returns: the match with
  the leftmost start, and at that start the one the backtracking engine reaches
  first. Both quantifiers are greedy, so the engine first tries the longest
  `[A-Za-z0-9.-]+` (the largest dot position) and then the longest `[A-Za-z]{2,}`.
  `LongestAtStart` shows that this span is also the longest match at that start.
*/
module DomainPattern {
  import opened Wrappers

  /** The class `[A-Za-z]`: ASCII letters only (the pattern is compiled without IGNORECASE or LOCALE). */
  predicate IsLetter(c: char) {
    'A' <= c <= 'Z' || 'a' <= c <= 'z'
  }

  /** The class `[A-Za-z0-9.-]`. */
  predicate IsHostChar(c: char) {
    IsLetter(c) || '0' <= c <= '9' || c == '.' || c == '-'
  }

  /**
    `s[i..k]` is matched by the pattern with `[A-Za-z0-9.-]+` covering `s[i..j]`,
    `\.` matching `s[j]` and `[A-Za-z]{2,}` covering `s[j+1..k]`.
  */
  ghost predicate MatchSplit(s: string, i: int, j: int, k: int) {
    && 0 <= i < j && j + 3 <= k <= |s|
    && (forall t :: i <= t < j ==> IsHostChar(s[t]))
    && s[j] == '.'
    && (forall t :: j < t < k ==> IsLetter(s[t]))
  }

  /** No match of the pattern starts before position `i`. */
  ghost predicate NoMatchBefore(s: string, i: int) {
    forall i', j, k :: i' < i ==> !MatchSplit(s, i', j, k)
  }

  /** Among the matches starting at `i`, the split `(j, k)` is the one backtracking reports first. */
  ghost predicate PreferredSplit(s: string, i: int, j: int, k: int) {
    && MatchSplit(s, i, j, k)
    && (forall j', k' :: MatchSplit(s, i, j', k') ==> j' < j || (j' == j && k' <= k))
  }

  /** End of the maximal run of `[A-Za-z0-9.-]` characters starting at `i`. */
  function RunEnd(s: string, i: nat): (e: nat)
    requires i <= |s|
    ensures i <= e <= |s|
    decreases |s| - i
  {
    if i < |s| && IsHostChar(s[i]) then RunEnd(s, i + 1) else i
  }

  /** The run is maximal: host characters up to its end, and none at its end. */
  lemma {:induction false} RunEndSpec(s: string, i: nat)
    requires i <= |s|
    ensures var e := RunEnd(s, i);
      (forall t :: i <= t < e ==> IsHostChar(s[t])) && (e < |s| ==> !IsHostChar(s[e]))
    decreases |s| - i
  {
    if i < |s| && IsHostChar(s[i]) {
      RunEndSpec(s, i + 1);
    }
  }

  /** End of the maximal run of letters starting at `i`. */
  function LettersEnd(s: string, i: nat): (e: nat)
    requires i <= |s|
    ensures i <= e <= |s|
    decreases |s| - i
  {
    if i < |s| && IsLetter(s[i]) then LettersEnd(s, i + 1) else i
  }

  /** The letter run is maximal: letters up to its end, and no letter at its end. */
  lemma {:induction false} LettersEndSpec(s: string, i: nat)
    requires i <= |s|
    ensures var e := LettersEnd(s, i);
      (forall t :: i <= t < e ==> IsLetter(s[t])) && (e < |s| ==> !IsLetter(s[e]))
    decreases |s| - i
  {
    if i < |s| && IsLetter(s[i]) {
      LettersEndSpec(s, i + 1);
    }
  }

  /** A dot followed by at least two letters: where `\.[A-Za-z]{2,}` can match. */
  predicate ValidDot(s: string, j: nat) {
    j + 2 < |s| && s[j] == '.' && IsLetter(s[j + 1]) && IsLetter(s[j + 2])
  }

  /** The largest `j` with `lo < j < hi` at which `\.[A-Za-z]{2,}` can match. */
  function LastDot(s: string, lo: nat, hi: nat): (r: Option<nat>)
    ensures r.Some? ==> lo < r.value < hi && ValidDot(s, r.value)
    decreases hi
  {
    if hi <= lo + 1 then None
    else if ValidDot(s, hi - 1) then Some(hi - 1)
    else LastDot(s, lo, hi - 1)
  }

  /** No position after the reported one, or none at all when nothing is reported, can start `\.[A-Za-z]{2,}`. */
  lemma {:induction false} LastDotSpec(s: string, lo: nat, hi: nat)
    ensures var r := LastDot(s, lo, hi);
      && (r.Some? ==> forall j :: r.value < j < hi ==> !ValidDot(s, j))
      && (r.None? ==> forall j :: lo < j < hi ==> !ValidDot(s, j))
    decreases hi
  {
    if hi > lo + 1 && !ValidDot(s, hi - 1) {
      LastDotSpec(s, lo, hi - 1);
    }
  }

  /** A stretch of host characters from `i` through `t` lies inside the run at `i`. */
  lemma {:induction false} RunEndCovers(s: string, i: nat, t: nat)
    requires i <= t < |s| && forall u :: i <= u <= t ==> IsHostChar(s[u])
    ensures t < RunEnd(s, i)
    decreases t - i
  {
    if i < t {
      RunEndCovers(s, i + 1, t);
    }
  }

  /** A stretch of letters from `i` up to `t` lies inside the letter run at `i`. */
  lemma {:induction false} LettersEndCovers(s: string, i: nat, t: nat)
    requires i <= t <= |s| && forall u :: i <= u < t ==> IsLetter(s[u])
    ensures t <= LettersEnd(s, i)
    decreases t - i
  {
    if i < t {
      LettersEndCovers(s, i + 1, t);
    }
  }

  /** Any match starting at `i` stays inside the run of host characters at `i` and inside the letter run after its dot. */
  lemma SplitBounds(s: string, i: nat, j: nat, k: nat)
    requires MatchSplit(s, i, j, k)
    ensures j < RunEnd(s, i) && ValidDot(s, j) && k <= LettersEnd(s, j + 1)
  {
    RunEndCovers(s, i, j);
    LettersEndCovers(s, j + 1, k);
  }

  /** The end of the preferred match starting at `i`, if any match starts there. */
  function MatchFrom(s: string, i: nat): (r: Option<nat>)
    requires i <= |s|
    ensures r.Some? ==> i < r.value <= |s|
  {
    var e := RunEnd(s, i);
    match LastDot(s, i, e)
    case None => None
    case Some(j) => Some(LettersEnd(s, j + 1))
  }

  /** `MatchFrom` reports no end exactly when no match starts at `i`, and otherwise the end of the preferred split. */
  lemma MatchFromSpec(s: string, i: nat)
    requires i <= |s|
    ensures MatchFrom(s, i).None? ==> forall j, k :: !MatchSplit(s, i, j, k)
    ensures MatchFrom(s, i).Some? ==> exists j :: PreferredSplit(s, i, j, MatchFrom(s, i).value)
  {
    var e := RunEnd(s, i);
    RunEndSpec(s, i);
    LastDotSpec(s, i, e);
    match LastDot(s, i, e)
    case None =>
      forall j, k | MatchSplit(s, i, j, k) ensures false {
        SplitBounds(s, i, j, k);
      }
    case Some(j) =>
      var k := LettersEnd(s, j + 1);
      LettersEndSpec(s, j + 1);
      assert MatchSplit(s, i, j, k);
      assert PreferredSplit(s, i, j, k) by {
        forall j', k' | MatchSplit(s, i, j', k') ensures j' < j || (j' == j && k' <= k) {
          SplitBounds(s, i, j', k');
        }
      }
  }

  /** The scan for the leftmost start, from position `from` on. */
  function SearchFrom(s: string, from: nat): (r: Option<(nat, nat)>)
    requires from <= |s|
    ensures r.Some? ==> r.value.0 < r.value.1 <= |s|
    decreases |s| - from
  {
    match MatchFrom(s, from)
    case Some(k) => Some((from, k))
    case None =>
      if from == |s| then None else SearchFrom(s, from + 1)
  }

  /** Started where no match can start earlier, the scan finds the leftmost match, or reports that there is none. */
  lemma {:induction false} SearchFromSpec(s: string, from: nat)
    requires from <= |s| && NoMatchBefore(s, from)
    ensures SearchFrom(s, from).None? ==> forall i, j, k :: !MatchSplit(s, i, j, k)
    ensures SearchFrom(s, from).Some? ==>
      var r := SearchFrom(s, from).value;
      NoMatchBefore(s, r.0) && exists j :: PreferredSplit(s, r.0, j, r.1)
    decreases |s| - from
  {
    MatchFromSpec(s, from);
    if MatchFrom(s, from).None? {
      assert NoMatchBefore(s, from + 1) by {
        forall i', j, k | i' < from + 1 ensures !MatchSplit(s, i', j, k) {
          if i' == from {
            assert !MatchSplit(s, from, j, k);
          }
        }
      }
      if from < |s| {
        SearchFromSpec(s, from + 1);
      }
    }
  }

  /** `DOMAIN_PATTERN.search(s)` as a span `(start, end)`. */
  function Search(s: string): (r: Option<(nat, nat)>)
    ensures r.Some? ==> r.value.0 < r.value.1 <= |s|
  {
    SearchFrom(s, 0)
  }

  /**
    `Search` returns `None` exactly when the pattern matches nowhere in `s`;
    otherwise no match starts before `start`, and `(start, end)` is the span
    backtracking reports at that start.
  */
  lemma SearchSpec(s: string)
    ensures Search(s).None? <==> forall i, j, k :: !MatchSplit(s, i, j, k)
    ensures Search(s).Some? ==>
      var r := Search(s).value;
      NoMatchBefore(s, r.0) && exists j :: PreferredSplit(s, r.0, j, r.1)
  {
    SearchFromSpec(s, 0);
  }

  /** The span backtracking reports is the longest match at its start. */
  lemma LongestAtStart(s: string, i: nat, j: nat, k: nat, j': nat, k': nat)
    requires PreferredSplit(s, i, j, k) && MatchSplit(s, i, j', k')
    ensures k' <= k
  {
    if j' < j {
      assert !IsLetter(s[j]);
      assert k' <= j;
    }
  }
}
