/** Report-code extraction from a report URL (wcl_to_mdt.py:275-277). */
module ReportUrl {
  import opened Wrappers
  import opened SeqFacts

  /** The path marker that precedes the report code. */
  const ReportsMarker: string := "/reports/"

  /** The length every report code has. */
  const ReportIdLength: nat := 16

  datatype UrlError = InvalidReportId

  /** `sep` occurs in `s` starting at index `i`. */
  predicate OccursAt(s: string, sep: string, i: nat) {
    i + |sep| <= |s| && s[i..i + |sep|] == sep
  }

  /** The first index at or after `from` where `sep` occurs. */
  function FirstOccurrence(s: string, sep: string, from: nat): (r: Option<nat>)
    requires from <= |s|
    ensures r.Some? ==> from <= r.value && OccursAt(s, sep, r.value)
    ensures r.Some? ==> forall j :: from <= j < r.value ==> !OccursAt(s, sep, j)
    ensures r.None? ==> forall j :: from <= j <= |s| ==> !OccursAt(s, sep, j)
    decreases |s| - from
  {
    if OccursAt(s, sep, from) then Some(from)
    else if from == |s| then None
    else FirstOccurrence(s, sep, from + 1)
  }

  /** Where the kept text of `s.split(sep)[-1]` starts, scanning from `from`: the
      separators are found left to right, each search resuming after the previous
      separator, and the text after the last one found is kept. */
  function SplitLastStart(s: string, sep: string, from: nat): (k: nat)
    requires sep != [] && from <= |s|
    ensures from <= k <= |s|
    ensures forall j :: k <= j <= |s| ==> !OccursAt(s, sep, j)
    ensures k != from ==> from + |sep| <= k && OccursAt(s, sep, k - |sep|)
    decreases |s| - from
  {
    match FirstOccurrence(s, sep, from)
    case None => from
    case Some(i) => SplitLastStart(s, sep, i + |sep|)
  }

  /** `s.split(sep)[-1]`. */
  function SplitLast(s: string, sep: string): (r: string)
    requires sep != []
    ensures |r| <= |s| && r == s[|s| - |r|..]
    ensures forall j :: |s| - |r| <= j <= |s| ==> !OccursAt(s, sep, j)
    ensures r != s ==> |r| + |sep| <= |s| && OccursAt(s, sep, |s| - |r| - |sep|)
  {
    s[SplitLastStart(s, sep, 0)..]
  }

  /** `s.split(c)[0]`: the text before the first `c`, or all of `s`. */
  function BeforeFirst(s: string, c: char): (r: string)
    ensures |r| <= |s| && r == s[..|r|]
    ensures c !in r
    ensures |r| < |s| ==> s[|r|] == c
  {
    if s == [] then []
    else if s[0] == c then []
    else
      var rest := BeforeFirst(s[1..], c);
      assert [s[0]] + rest == s[..|rest| + 1];
      [s[0]] + rest
  }

  /** The report code candidate of lines 275: after the marker, before any query
      string and any fragment. */
  function ReportIdCandidate(url: string): string {
    BeforeFirst(BeforeFirst(SplitLast(url, ReportsMarker), '?'), '#')
  }

  /** Lines 275-277: the candidate, accepted only when it has sixteen characters. */
  function ExtractReportId(url: string): (r: Result<string, UrlError>)
    ensures r.Ok? <==> |ReportIdCandidate(url)| == ReportIdLength
    ensures r.Ok? ==> r.value == ReportIdCandidate(url)
  {
    var id := ReportIdCandidate(url);
    if |id| != ReportIdLength then Err(InvalidReportId) else Ok(id)
  }

  /** What the candidate is: the longest start of the text after the last marker
      (as `SplitLast` describes it) that holds neither '?' nor '#'. */
  lemma ReportIdCandidateShape(url: string)
    ensures var after := SplitLast(url, ReportsMarker);
      var id := ReportIdCandidate(url);
      |id| <= |after| && id == after[..|id|] &&
      '?' !in id && '#' !in id &&
      (|id| < |after| ==> after[|id|] == '?' || after[|id|] == '#')
  {
    CutTwice(SplitLast(url, ReportsMarker));
  }

  /** Cutting at the first '?' and then at the first '#' keeps the longest start
      holding neither. */
  lemma CutTwice(after: string)
    ensures var id := BeforeFirst(BeforeFirst(after, '?'), '#');
      |id| <= |after| && id == after[..|id|] &&
      '?' !in id && '#' !in id &&
      (|id| < |after| ==> after[|id|] == '?' || after[|id|] == '#')
  {
    var q := BeforeFirst(after, '?');
    var id := BeforeFirst(q, '#');
    assert id == after[..|id|];
    if |id| < |after| && |id| < |q| {
      assert after[|id|] == q[|id|];
    }
  }

  /** Text with no '/' holds no marker. */
  lemma NoSlashNoMarker(s: string)
    requires '/' !in s
    ensures forall j :: 0 <= j <= |s| ==> !OccursAt(s, ReportsMarker, j)
  {
    forall j | 0 <= j <= |s| ensures !OccursAt(s, ReportsMarker, j) {
      if j + |ReportsMarker| <= |s| {
        assert s[j..j + |ReportsMarker|][0] == s[j];
      }
    }
  }

  /** An occurrence that ends inside `a` does not see what follows `a`. */
  lemma OccursAtPrefix(a: string, b: string, sep: string, j: nat)
    requires j + |sep| <= |a|
    ensures OccursAt(a + b, sep, j) == OccursAt(a, sep, j)
  {
    assert (a + b)[j..j + |sep|] == a[j..j + |sep|];
  }

  /** An occurrence that starts after `a` is one in `b`. */
  lemma OccursAtSuffix(a: string, b: string, sep: string, j: nat)
    ensures OccursAt(a + b, sep, |a| + j) == OccursAt(b, sep, j)
  {
    if |a| + j + |sep| <= |a + b| {
      assert (a + b)[|a| + j..|a| + j + |sep|] == b[j..j + |sep|];
    }
  }

  /** A URL whose only marker is the one in front of the code, with the code
      followed by nothing, a query string or a fragment, yields that code. */
  lemma ExtractReportIdOfUrl(site: string, id: string, tail: string)
    requires forall j :: 0 <= j < |site| ==> !OccursAt(site + ReportsMarker, ReportsMarker, j)
    requires |id| == ReportIdLength
    requires '/' !in id && '?' !in id && '#' !in id
    requires '/' !in tail
    requires tail == [] || tail[0] == '?' || tail[0] == '#'
    ensures ExtractReportId(site + ReportsMarker + id + tail) == Ok(id)
  {
    AppendAssoc(site + ReportsMarker, id, tail);
    SplitAtOnlyMarker(site, id + tail);
    BeforeFirstOfClean(id, tail, '?');
    BeforeFirstOfClean(id, BeforeFirst(tail, '?'), '#');
    assert BeforeFirst(tail, '?') == [] || BeforeFirst(tail, '?')[0] == '#';
  }

  /** When the marker after `site` is the only one, the text after it is kept. */
  lemma SplitAtOnlyMarker(site: string, rest: string)
    requires forall j :: 0 <= j < |site| ==> !OccursAt(site + ReportsMarker, ReportsMarker, j)
    requires '/' !in rest
    ensures SplitLast(site + ReportsMarker + rest, ReportsMarker) == rest
  {
    var head := site + ReportsMarker;
    var url := head + rest;
    forall j | 0 <= j < |site| ensures !OccursAt(url, ReportsMarker, j) {
      OccursAtPrefix(head, rest, ReportsMarker, j);
    }
    OccursAtPrefix(head, rest, ReportsMarker, |site|);
    assert head[|site|..|site| + |ReportsMarker|] == ReportsMarker;
    FirstOccurrenceAt(url, ReportsMarker, 0, |site|);
    NoSlashNoMarker(rest);
    forall k | |head| <= k <= |url| ensures !OccursAt(url, ReportsMarker, k) {
      OccursAtSuffix(head, rest, ReportsMarker, k - |head|);
    }
    assert FirstOccurrence(url, ReportsMarker, |head|) == None;
    assert SplitLastStart(url, ReportsMarker, 0) == |head|;
  }

  /** With no occurrence before `i` and one at `i`, the search from `from` finds `i`. */
  lemma {:induction false} FirstOccurrenceAt(s: string, sep: string, from: nat, i: nat)
    requires from <= i <= |s|
    requires OccursAt(s, sep, i)
    requires forall j :: from <= j < i ==> !OccursAt(s, sep, j)
    ensures FirstOccurrence(s, sep, from) == Some(i)
    decreases i - from
  {
    if from < i {
      FirstOccurrenceAt(s, sep, from + 1, i);
    }
  }

  /** Cutting `id + tail` at `c`, when `id` has no `c`. */
  lemma {:induction false} BeforeFirstOfClean(id: string, tail: string, c: char)
    requires c !in id
    ensures BeforeFirst(id + tail, c) == id + BeforeFirst(tail, c)
    decreases |id|
  {
    if id != [] {
      HeadAndTail(id);
      AppendAssoc([id[0]], id[1..], tail);
      ConsParts(id[0], id[1..] + tail);
      BeforeFirstOfClean(id[1..], tail, c);
      AppendAssoc([id[0]], id[1..], BeforeFirst(tail, c));
    } else {
      EmptyAppend(tail);
      EmptyAppend(BeforeFirst(tail, c));
    }
  }

  /** The separators are found left to right without overlapping: in
      "/reports/reports/" the second marker shares its first '/' with the first, so
      only the first is found and "reports/" is kept, where taking the text after
      the last occurrence would keep nothing. */
  lemma SplitLastDoesNotOverlap()
    ensures SplitLast("/reports/reports/", ReportsMarker) == "reports/"
    ensures OccursAt("/reports/reports/", ReportsMarker, 8)
  {
    var s := "/reports/reports/";
    MarkersOfDoubledPath();
    FirstOccurrenceAt(s, ReportsMarker, 0, 0);
    assert SplitLastStart(s, ReportsMarker, 0) == SplitLastStart(s, ReportsMarker, 9);
    assert s[9..] == "reports/";
  }

  lemma MarkersOfDoubledPath()
    ensures OccursAt("/reports/reports/", ReportsMarker, 0)
    ensures OccursAt("/reports/reports/", ReportsMarker, 8)
  {
    assert "/reports/reports/"[0..9] == ReportsMarker;
    assert "/reports/reports/"[8..17] == ReportsMarker;
  }
}
