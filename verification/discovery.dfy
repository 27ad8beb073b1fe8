/** Input-file selection (`GetDOIFiles`): out of the names a directory
    listing yields, the DOI lists are the `.txt` files that are not reports
    the tool itself generated (`... result.txt`). */
module Discovery {
  import opened Wrappers
  import opened Strings

  const TextExtension := ".txt"
  const ReportSuffix := "result.txt"

  predicate IsInputName(name: string) {
    HasSuffix(name, TextExtension) && !HasSuffix(name, ReportSuffix)
  }

  /** The kept entries, in listing order (the loop appends as it goes). */
  function SelectInputs(entries: seq<string>): (r: seq<string>)
    ensures |r| <= |entries|
    ensures forall x :: x in r <==> x in entries && IsInputName(x)
  {
    if |entries| == 0 then []
    else
      var last := entries[|entries| - 1];
      SelectInputs(entries[..|entries| - 1]) + (if IsInputName(last) then [last] else [])
  }

  /** Positions in `entries` of the kept names, ascending. */
  function SelectedIndices(entries: seq<string>): (idx: seq<nat>)
    ensures forall k :: 0 <= k < |idx| ==> idx[k] < |entries|
  {
    if |entries| == 0 then []
    else
      var n := |entries| - 1;
      SelectedIndices(entries[..n]) + (if IsInputName(entries[n]) then [n] else [])
  }

  /** `r` is the subsequence of `entries` at the strictly increasing
      positions `idx`, and those positions are exactly the ones holding an
      input name. */
  ghost predicate SubsequenceAt(entries: seq<string>, r: seq<string>, idx: seq<nat>) {
    && |idx| == |r|
    && (forall k :: 0 <= k < |idx| ==> idx[k] < |entries| && r[k] == entries[idx[k]])
    && (forall k, l :: 0 <= k < l < |idx| ==> idx[k] < idx[l])
    && (forall i :: 0 <= i < |entries| ==> (IsInputName(entries[i]) <==> i in idx))
  }

  /** One more listing entry extends a subsequence witness. */
  lemma SubsequenceAtExtend(f: seq<string>, r: seq<string>, idx: seq<nat>, x: string)
    requires SubsequenceAt(f, r, idx)
    ensures IsInputName(x) ==> SubsequenceAt(f + [x], r + [x], idx + [|f|])
    ensures !IsInputName(x) ==> SubsequenceAt(f + [x], r, idx)
  {
    var e := f + [x];
    assert forall i :: 0 <= i < |f| ==> e[i] == f[i];
    assert |f| !in idx;
    if IsInputName(x) {
      var idx' := idx + [|f|];
      assert forall i :: 0 <= i < |f| ==> (i in idx' <==> i in idx);
    }
  }

  /** Selection keeps every input name and nothing else, in listing order. */
  lemma {:induction false} SelectionIsOrderedSubsequence(entries: seq<string>)
    ensures SubsequenceAt(entries, SelectInputs(entries), SelectedIndices(entries))
  {
    if |entries| > 0 {
      var n := |entries| - 1;
      var front := entries[..n];
      SelectionIsOrderedSubsequence(front);
      assert entries == front + [entries[n]];
      SubsequenceAtExtend(front, SelectInputs(front), SelectedIndices(front), entries[n]);
    }
  }

  /** Filtering distributes over appending listings. */
  lemma {:induction false} SelectAppend(a: seq<string>, b: seq<string>)
    ensures SelectInputs(a + b) == SelectInputs(a) + SelectInputs(b)
    decreases |b|
  {
    if |b| > 0 {
      var n := |b| - 1;
      assert (a + b)[..|a + b| - 1] == a + b[..n];
      SelectAppend(a, b[..n]);
    } else {
      assert a + b == a;
    }
  }

  /** A listing without input names selects nothing. */
  lemma {:induction false} SelectNothing(entries: seq<string>)
    requires forall i :: 0 <= i < |entries| ==> !IsInputName(entries[i])
    ensures SelectInputs(entries) == []
  {
    if |entries| > 0 {
      SelectNothing(entries[..|entries| - 1]);
    }
  }

  /** The directory scan: a failed read yields no files. */
  function Discovered(listing: Option<seq<string>>): seq<string> {
    match listing
    case None => []
    case Some(entries) => SelectInputs(entries)
  }

  /** The scanning loop of `GetDOIFiles`, appending each kept name. */
  method GetDOIFiles(listing: Option<seq<string>>) returns (files: seq<string>)
    ensures files == Discovered(listing)
    ensures forall x :: x in files ==> IsInputName(x)
  {
    if listing.None? {
      return [];
    }
    var entries := listing.value;
    files := [];
    var i := 0;
    while i < |entries|
      invariant i <= |entries|
      invariant files == SelectInputs(entries[..i])
    {
      assert entries[..i + 1][..i] == entries[..i];
      if HasSuffix(entries[i], TextExtension) {
        if !HasSuffix(entries[i], ReportSuffix) {
          files := files + [entries[i]];
        }
      }
      i := i + 1;
    }
    assert entries[..i] == entries;
  }
}
