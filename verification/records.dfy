/** One line of a report: what the tool writes for one DOI, given what the
    PubPeer search returned for it. The HTTP request, the body read and the
    JSON decoder are abstracted into `FetchOutcome`. */
module Records {
  import opened Wrappers
  import opened Strings
  import Decimal

  /** The two fields of a publication the report uses. */
  datatype Pub = Pub(commentsTotal: int, title: string)

  /** What the request produced: a transport, read or decode failure, or a
      decoded body whose `publications` member is absent or null (`None`)
      or a list (`Some`, possibly empty). */
  datatype FetchOutcome = Failed | Decoded(pubs: Option<seq<Pub>>)

  const ErrorTag := " - error"
  const FoundTag := "&да&"
  const NotFoundTag := "&нет"
  const Separator := "&"

  /** `CurlPubPeer`: the publication list when there is one, an error
      otherwise. A present but empty list is not an error. */
  function Fetch(o: FetchOutcome): (r: Option<seq<Pub>>)
    ensures r.None? <==> o.Failed? || o.pubs.None?
    ensures r.Some? ==> o == Decoded(r)
  {
    match o
    case Failed => None
    case Decoded(pubs) => pubs
  }

  /** The record appended to the buffer for `doi`. */
  function Record(doi: string, o: FetchOutcome): (r: string)
    ensures |r| > 0 && r[|r| - 1] == '\n'
  {
    match Fetch(o)
    case None => doi + ErrorTag + "\n"
    case Some(pubs) =>
      if |pubs| > 0 then
        TrimSuffix(doi, ".") + FoundTag + Decimal.IntToString(pubs[0].commentsTotal)
          + Separator + pubs[0].title + "\n"
      else doi + NotFoundTag + "\n"
  }

  /** The error record is produced exactly when the fetch failed or the
      list is missing; it carries the DOI untouched. */
  lemma ErrorRecordIff(doi: string, o: FetchOutcome)
    ensures Record(doi, o) == doi + " - error\n" <==> o.Failed? || o.pubs.None?
  {
    var r := Record(doi, o);
    if o.Decoded? && o.pubs.Some? {
      var pubs := o.pubs.value;
      var e := doi + " - error\n";
      if |pubs| == 0 {
        assert r[|doi|] == '&' != e[|doi|];
      } else if HasSuffix(doi, ".") {
        assert r[|doi| - 1] == '&' != e[|doi| - 1];
      } else {
        assert r[|doi|] == '&' != e[|doi|];
      }
    }
  }

  /** The `нет` record is produced exactly for a present, empty list, and
      the DOI keeps its trailing period. */
  lemma NotFoundRecordIff(doi: string, o: FetchOutcome)
    ensures Record(doi, o) == doi + "&нет\n" <==> o == Decoded(Some([]))
  {
    var r := Record(doi, o);
    var e := doi + "&нет\n";
    if o.Failed? || o.pubs.None? {
      assert r[|doi|] == ' ' != e[|doi|];
    } else if |o.pubs.value| > 0 {
      if HasSuffix(doi, ".") {
        assert r[|doi| - 1] == '&' != e[|doi| - 1];
      } else {
        assert r[|doi| + 1] == 'д' != e[|doi| + 1];
      }
    }
  }

  /** A non-empty list gives the `да` record: the DOI with at most one
      trailing period removed, then the first publication's comment count
      and title. */
  lemma FoundRecordShape(doi: string, pubs: seq<Pub>)
    requires |pubs| > 0
    ensures var r := Record(doi, Decoded(Some(pubs)));
      var stem := TrimSuffix(doi, ".");
      && (stem == doi || stem + "." == doi)
      && r == stem + "&да&" + Decimal.IntToString(pubs[0].commentsTotal) + "&" + pubs[0].title + "\n"
  {
  }

  /** A trailing period is dropped only in the `да` branch. */
  lemma TrailingPeriodExamples()
    ensures Record("10.1000/xyz.", Decoded(Some([]))) == "10.1000/xyz.&нет\n"
    ensures Record("10.1000/xyz.", Decoded(Some([Pub(3, "T")]))) == "10.1000/xyz&да&3&T\n"
    ensures Record("10.1000/xyz.", Failed) == "10.1000/xyz. - error\n"
  {
    assert HasSuffix("10.1000/xyz.", ".");
    assert Decimal.IntToString(3) == "3";
  }

  /** Publications after the first have no effect on the record. */
  lemma OnlyFirstPublicationMatters(doi: string, pubs: seq<Pub>, others: seq<Pub>)
    requires |pubs| > 0 && |others| > 0 && pubs[0] == others[0]
    ensures Record(doi, Decoded(Some(pubs))) == Record(doi, Decoded(Some(others)))
  {
  }

  /** Reads the comment count and the title back out of a `да` record for
      `doi`. */
  function ParseFoundRecord(doi: string, r: string): Option<(int, string)> {
    var head := TrimSuffix(doi, ".") + FoundTag;
    if |r| < |head| + 1 || r[..|head|] != head || r[|r| - 1] != '\n' then None
    else
      var body := r[|head|..|r| - 1];
      var k := IndexOf(body, '&');
      if k == |body| then None
      else
        match Decimal.ParseInt(body[..k])
        case None => None
        case Some(n) => Some((n, body[k + 1..]))
  }

  /** The `да` record determines the first publication's comment count and
      title: they can be read back from it. */
  lemma FoundRecordRoundTrip(doi: string, pubs: seq<Pub>)
    requires |pubs| > 0
    ensures ParseFoundRecord(doi, Record(doi, Decoded(Some(pubs))))
         == Some((pubs[0].commentsTotal, pubs[0].title))
  {
    var head := TrimSuffix(doi, ".") + FoundTag;
    var num := Decimal.IntToString(pubs[0].commentsTotal);
    var title := pubs[0].title;
    var r := Record(doi, Decoded(Some(pubs)));
    assert r == head + (num + "&" + title) + "\n";
    assert r[..|head|] == head;
    var body := r[|head|..|r| - 1];
    assert body == num + ['&'] + title;
    IndexOfAfter(num, '&', title);
    assert body[..|num|] == num;
    assert body[|num| + 1..] == title;
    Decimal.IntToStringRoundTrip(pubs[0].commentsTotal);
  }

  predicate NoNewline(s: string) {
    forall j :: 0 <= j < |s| ==> s[j] != '\n'
  }

  lemma NoNewlineAppend(a: string, b: string)
    requires NoNewline(a) && NoNewline(b)
    ensures NoNewline(a + b)
  {
    assert forall j :: |a| <= j < |a + b| ==> (a + b)[j] == b[j - |a|];
  }

  /** A record holds a single newline, at its end, when the DOI has none
      and the title it uses has none. */
  lemma RecordIsOneLine(doi: string, o: FetchOutcome)
    requires NoNewline(doi)
    requires o.Decoded? && o.pubs.Some? && |o.pubs.value| > 0 ==> NoNewline(o.pubs.value[0].title)
    ensures NoNewline(Record(doi, o)[..|Record(doi, o)| - 1])
  {
    var r := Record(doi, o);
    var line: string;
    match Fetch(o)
    case None =>
      line := doi + ErrorTag;
      NoNewlineAppend(doi, ErrorTag);
    case Some(pubs) =>
      if |pubs| > 0 {
        var stem := TrimSuffix(doi, ".");
        assert NoNewline(stem) by {
          assert forall j :: 0 <= j < |stem| ==> stem[j] == doi[j];
        }
        var num := Decimal.IntToString(pubs[0].commentsTotal);
        line := stem + FoundTag + num + Separator + pubs[0].title;
        NoNewlineAppend(stem, FoundTag);
        NoNewlineAppend(stem + FoundTag, num);
        NoNewlineAppend(stem + FoundTag + num, Separator);
        NoNewlineAppend(stem + FoundTag + num + Separator, pubs[0].title);
      } else {
        line := doi + NotFoundTag;
        NoNewlineAppend(doi, NotFoundTag);
      }
    assert r == line + "\n";
    assert r[..|r| - 1] == line;
  }
}
