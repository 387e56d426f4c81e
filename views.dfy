/**
 * The displays the page derives from a session's responses: the rating
 * histogram behind the doughnut chart, the timeline of the latest ratings,
 * the response count and rating sum behind the average, the list of the
 * latest comments, and the CSV export.
 */
module Views {
  import opened FeedbackModel
  import Csv

  function Min(a: int, b: int): int {
    if a <= b then a else b
  }

  /** The ratings of the responses, in order. */
  function Ratings(rs: seq<Response>): (ratings: seq<int>)
    ensures |ratings| == |rs|
    ensures forall i | 0 <= i < |rs| :: ratings[i] == rs[i].rating
  {
    seq(|rs|, i requires 0 <= i < |rs| => rs[i].rating)
  }

  // ---------------------------------------------------------------- histogram

  /** How many of the responses carry rating r. */
  function CountRating(rs: seq<Response>, r: Rating): nat {
    if rs == [] then 0
    else CountRating(rs[..|rs| - 1], r) + (if rs[|rs| - 1].rating == r then 1 else 0)
  }

  /** The count of a rating is its multiplicity among the responses' ratings. */
  lemma {:induction false} CountIsMultiplicity(rs: seq<Response>, r: Rating)
    ensures CountRating(rs, r) == multiset(Ratings(rs))[r]
  {
    if rs != [] {
      var init := rs[..|rs| - 1];
      CountIsMultiplicity(init, r);
      assert Ratings(rs) == Ratings(init) + [rs[|rs| - 1].rating];
    }
  }

  /**
   * The five histogram buckets as the chart update fills them: bucket 5 - r
   * counts the responses with rating r, so the buckets run from "Perfect (5)"
   * down to "Very Confused (1)".
   */
  method RatingCounts(rs: seq<Response>) returns (counts: seq<nat>)
    ensures |counts| == 5
    ensures forall r: Rating :: counts[5 - r] == multiset(Ratings(rs))[r]
  {
    var buckets := new nat[5](_ => 0);
    for i := 0 to |rs|
      invariant forall r: Rating :: buckets[5 - r] == CountRating(rs[..i], r)
    {
      var r := rs[i].rating;
      buckets[5 - r] := buckets[5 - r] + 1;
      assert rs[..i + 1][..i] == rs[..i];
    }
    assert rs[..|rs|] == rs;
    counts := buckets[..];
    forall r: Rating ensures counts[5 - r] == multiset(Ratings(rs))[r] {
      CountIsMultiplicity(rs, r);
    }
  }

  /** The five buckets together count every response once. */
  lemma {:induction false} HistogramTotal(rs: seq<Response>)
    ensures CountRating(rs, 5) + CountRating(rs, 4) + CountRating(rs, 3) + CountRating(rs, 2) + CountRating(rs, 1) == |rs|
  {
    if rs != [] {
      HistogramTotal(rs[..|rs| - 1]);
    }
  }

  // ---------------------------------------------------------------- statistics

  /** The sum of the ratings, accumulated from the left as the reduce does. */
  function SumRatings(rs: seq<Response>): int {
    if rs == [] then 0 else SumRatings(rs[..|rs| - 1]) + rs[|rs| - 1].rating
  }

  /** The rating sum is what the histogram implies: each bucket weighted by its rating. */
  lemma {:induction false} SumFromHistogram(rs: seq<Response>)
    ensures SumRatings(rs) ==
      5 * CountRating(rs, 5) + 4 * CountRating(rs, 4) + 3 * CountRating(rs, 3) + 2 * CountRating(rs, 2) + CountRating(rs, 1)
  {
    if rs != [] {
      SumFromHistogram(rs[..|rs| - 1]);
    }
  }

  /** The average therefore lies between 1 and 5. */
  lemma SumBounds(rs: seq<Response>)
    ensures |rs| <= SumRatings(rs) <= 5 * |rs|
  {
    SumFromHistogram(rs);
    HistogramTotal(rs);
  }

  /** The average, kept as an exact sum over a count rather than a rounded float. */
  datatype Average = Average(sum: int, count: nat)

  /** What the statistics panel shows: the response count, and the average once there is a response. */
  datatype Stats = Stats(totalResponses: nat, average: Option<Average>)

  function Summary(rs: seq<Response>): (st: Stats)
    ensures st.totalResponses == |rs|
    ensures st.average.Some? <==> |rs| > 0
    ensures st.average.Some? ==>
      && st.average.value.count == |rs|
      && st.average.value.sum == SumRatings(rs)
      && st.average.value.count <= st.average.value.sum <= 5 * st.average.value.count
  {
    SumBounds(rs);
    Stats(|rs|, if |rs| > 0 then Some(Average(SumRatings(rs), |rs|)) else None)
  }

  // ---------------------------------------------------------------- windows

  /** `rs.slice(-n)` for n > 0: the last n responses, or all of them when there are fewer. */
  function Last(rs: seq<Response>, n: nat): (w: seq<Response>)
    requires n > 0
    ensures |w| == Min(n, |rs|)
    ensures w == rs[|rs| - |w|..]
  {
    if |rs| <= n then rs else rs[|rs| - n..]
  }

  const TimelineLength := 10
  const RecentListLength := 5

  /** The ratings the timeline plots: the latest (up to ten) ratings, oldest first. */
  function TimelineRatings(rs: seq<Response>): (ratings: seq<int>)
    ensures |ratings| == Min(TimelineLength, |rs|)
    ensures forall i | 0 <= i < |ratings| :: ratings[i] == rs[|rs| - |ratings| + i].rating
  {
    Ratings(Last(rs, TimelineLength))
  }

  /** The timeline is the tail of the full rating sequence. */
  lemma TimelineIsSuffix(rs: seq<Response>)
    ensures TimelineRatings(rs) == Ratings(rs)[|rs| - Min(TimelineLength, |rs|)..]
  {
  }

  /** One more response slides the timeline: the oldest point drops out once ten are shown. */
  lemma TimelineSlides(rs: seq<Response>, f: Response)
    ensures TimelineRatings(rs + [f]) ==
      (if |rs| < TimelineLength then TimelineRatings(rs) else TimelineRatings(rs)[1..]) + [f.rating]
  {
    var before, after := TimelineRatings(rs), TimelineRatings(rs + [f]);
    var expected := (if |rs| < TimelineLength then before else before[1..]) + [f.rating];
    assert |after| == |expected|;
    forall i | 0 <= i < |after| ensures after[i] == expected[i] {
      TimelineShift(rs, f, i);
    }
  }

  lemma TimelineShift(rs: seq<Response>, f: Response, i: nat)
    requires i < |TimelineRatings(rs + [f])|
    ensures i == |TimelineRatings(rs + [f])| - 1 ==> TimelineRatings(rs + [f])[i] == f.rating
    ensures i < |TimelineRatings(rs + [f])| - 1 ==>
      var k := i + (if |rs| < TimelineLength then 0 else 1);
      k < |TimelineRatings(rs)| && TimelineRatings(rs + [f])[i] == TimelineRatings(rs)[k]
  {
    var rs', n := rs + [f], |rs|;
    var n', m := |TimelineRatings(rs')|, |TimelineRatings(rs)|;
    if n < TimelineLength {
      assert n' == n + 1 && m == n;
    } else {
      assert n' == TimelineLength && m == TimelineLength;
    }
    assert TimelineRatings(rs')[i] == rs'[n + 1 - n' + i].rating;
    if i < n' - 1 {
      var k := i + (if n < TimelineLength then 0 else 1);
      assert rs'[n + 1 - n' + i] == rs[n - m + k];
      assert TimelineRatings(rs)[k] == rs[n - m + k].rating;
    }
  }

  /** The n consecutive numbers from lo on. */
  function Range(lo: int, n: nat): (r: seq<int>)
    ensures |r| == n
    ensures forall i | 0 <= i < n :: r[i] == lo + i
  {
    seq(n, i requires 0 <= i < n => lo + i)
  }

  /** The timeline labels as written: label `R<n - 9 + index>` for the point at index. */
  function TimelineLabelsAsWritten(rs: seq<Response>): (labels: seq<int>)
    ensures |labels| == |TimelineRatings(rs)|
    ensures forall i | 0 <= i < |labels| - 1 :: labels[i + 1] == labels[i] + 1
  {
    Range(|rs| - 9, |Last(rs, TimelineLength)|)
  }

  /** With fewer than ten responses, the first label as written is not a response number at all. */
  lemma TimelineLabelsAsWrittenBelowOne(rs: seq<Response>)
    requires 0 < |rs| < TimelineLength
    ensures TimelineLabelsAsWritten(rs)[0] < 1
  {
  }

  /** A single response is labelled R-8. */
  lemma TimelineLabelsAsWrittenOneResponse(r: Response)
    ensures TimelineLabelsAsWritten([r]) == [-8]
  {
  }

  /** The timeline labels as intended: each point is labelled with the 1-based number of its response. */
  function TimelineLabels(rs: seq<Response>): (labels: seq<int>)
    ensures |labels| == |TimelineRatings(rs)|
    ensures forall i | 0 <= i < |labels| :: 1 <= labels[i] <= |rs| && rs[labels[i] - 1].rating == TimelineRatings(rs)[i]
    ensures forall i | 0 <= i < |labels| - 1 :: labels[i + 1] == labels[i] + 1
    ensures |labels| > 0 ==> labels[|labels| - 1] == |rs|
  {
    var n := |TimelineRatings(rs)|;
    Range(|rs| - n + 1, n)
  }

  /** Once ten responses are in, the labels as written and as intended agree. */
  lemma TimelineLabelsAgreeWhenFull(rs: seq<Response>)
    requires |rs| >= TimelineLength
    ensures TimelineLabelsAsWritten(rs) == TimelineLabels(rs)
  {
  }

  function Reverse(s: seq<Response>): (r: seq<Response>)
    ensures |r| == |s|
    ensures forall i | 0 <= i < |s| :: r[i] == s[|s| - 1 - i]
  {
    if s == [] then [] else Reverse(s[1..]) + [s[0]]
  }

  /** The feedback list: the latest (up to five) responses, newest first. */
  function RecentFeedback(rs: seq<Response>): (recent: seq<Response>)
    ensures |recent| == Min(RecentListLength, |rs|)
    ensures forall i | 0 <= i < |recent| :: recent[i] == rs[|rs| - 1 - i]
  {
    Reverse(Last(rs, RecentListLength))
  }

  lemma RecentFeedbackShift(rs: seq<Response>, f: Response, i: nat)
    requires i < |RecentFeedback(rs + [f])|
    ensures i == 0 ==> RecentFeedback(rs + [f])[i] == f
    ensures i > 0 ==> i - 1 < |RecentFeedback(rs)| && RecentFeedback(rs + [f])[i] == RecentFeedback(rs)[i - 1]
  {
    var rs', n := rs + [f], |rs|;
    if n < RecentListLength {
      assert |RecentFeedback(rs')| == n + 1 && |RecentFeedback(rs)| == n;
    } else {
      assert |RecentFeedback(rs')| == RecentListLength && |RecentFeedback(rs)| == RecentListLength;
    }
    assert RecentFeedback(rs')[i] == rs'[n - i];
    if i > 0 {
      assert rs'[n - i] == rs[n - i];
      assert RecentFeedback(rs)[i - 1] == rs[n - i];
    }
  }

  lemma ConsPrefix(a: seq<Response>, x: Response, b: seq<Response>, k: nat)
    requires |a| == k + 1 && k <= |b| && a[0] == x
    requires forall i | 0 < i < |a| :: a[i] == b[i - 1]
    ensures a == [x] + b[..k]
  {
  }

  /** One more response goes to the top of the list; the bottom one drops out once five are shown. */
  lemma RecentFeedbackSlides(rs: seq<Response>, f: Response)
    ensures RecentFeedback(rs + [f]) == [f] + RecentFeedback(rs)[..Min(RecentListLength - 1, |rs|)]
  {
    var after, before := RecentFeedback(rs + [f]), RecentFeedback(rs);
    forall i | 0 <= i < |after| ensures i == 0 ==> after[i] == f
      ensures i > 0 ==> after[i] == before[i - 1] {
      RecentFeedbackShift(rs, f, i);
    }
    ConsPrefix(after, f, before, Min(RecentListLength - 1, |rs|));
  }

  // ---------------------------------------------------------------- CSV export

  const CsvHeader: seq<string> := ["Session ID", "Subject", "Teacher", "Topic", "Rating", "Comment", "Timestamp"]

  /** A rating as the number-to-text conversion of the join writes it: one digit. */
  function RatingText(r: Rating): (t: string)
    ensures |t| == 1 && '1' <= t[0] <= '5'
    ensures t[0] as int - '0' as int == r
  {
    [('0' as int + r) as char]
  }

  function HeaderRow(): seq<Csv.Cell> {
    seq(|CsvHeader|, i requires 0 <= i < |CsvHeader| => Csv.Plain(CsvHeader[i]))
  }

  /** The export row of one response: only the comment is quoted. */
  function ResponseRow(s: Session, r: Response): seq<Csv.Cell> {
    [Csv.Plain(s.id), Csv.Plain(s.subject), Csv.Plain(s.teacher), Csv.Plain(s.topic),
     Csv.Plain(RatingText(r.rating)), Csv.Quoted(r.comment), Csv.Plain(r.timestamp)]
  }

  function CsvRows(s: Session): seq<seq<Csv.Cell>> {
    [HeaderRow()] + seq(|s.responses|, i requires 0 <= i < |s.responses| => ResponseRow(s, s.responses[i]))
  }

  /** The exported text: the header line, then one line per response, joined with line feeds. */
  function GenerateCsv(s: Session): string {
    Csv.Write(CsvRows(s))
  }

  /** The values one export row stands for. */
  function CsvRecord(s: Session, r: Response): seq<string> {
    [s.id, s.subject, s.teacher, s.topic, RatingText(r.rating), r.comment, r.timestamp]
  }

  lemma TimestampPlainSafe(t: Timestamp)
    ensures Csv.PlainSafe(t)
  {
    forall i | 0 <= i < |t| ensures t[i] != ',' && t[i] != '"' && t[i] != '\n' {
      assert IsIsoChar(t[i]);
    }
  }

  lemma CsvRowsWellFormed(s: Session)
    requires Csv.PlainSafe(s.id) && Csv.PlainSafe(s.subject) && Csv.PlainSafe(s.teacher) && Csv.PlainSafe(s.topic)
    ensures Csv.WellFormedRows(CsvRows(s))
  {
    var rows := CsvRows(s);
    forall i | 0 <= i < |rows| ensures |rows[i]| >= 1 && forall j | 0 <= j < |rows[i]| :: Csv.WellFormedCell(rows[i][j]) {
      if i > 0 {
        var r := s.responses[i - 1];
        assert rows[i] == ResponseRow(s, r);
        TimestampPlainSafe(r.timestamp);
      }
    }
  }

  lemma CsvRowValues(s: Session)
    ensures Csv.Values(CsvRows(s)) ==
      [CsvHeader] + seq(|s.responses|, i requires 0 <= i < |s.responses| => CsvRecord(s, s.responses[i]))
  {
    var rows := CsvRows(s);
    var expected := [CsvHeader] + seq(|s.responses|, i requires 0 <= i < |s.responses| => CsvRecord(s, s.responses[i]));
    assert |Csv.Values(rows)| == |expected|;
    forall i | 0 <= i < |rows| ensures Csv.Values(rows)[i] == expected[i] {
      if i == 0 {
        assert Csv.Texts(HeaderRow()) == CsvHeader;
      } else {
        assert rows[i] == ResponseRow(s, s.responses[i - 1]);
        assert Csv.Texts(rows[i]) == CsvRecord(s, s.responses[i - 1]);
      }
    }
  }

  /**
   * Reading the export back gives the seven-field header and then, in order,
   * one seven-field record per response whose comment is the original text
   * (quotes and line breaks included). The unquoted fields must not contain a
   * comma, a double quote or a line feed.
   */
  lemma CsvRoundTrip(s: Session)
    requires Csv.PlainSafe(s.id) && Csv.PlainSafe(s.subject) && Csv.PlainSafe(s.teacher) && Csv.PlainSafe(s.topic)
    ensures Csv.Parse(GenerateCsv(s)) ==
      [CsvHeader] + seq(|s.responses|, i requires 0 <= i < |s.responses| => CsvRecord(s, s.responses[i]))
    ensures |Csv.Parse(GenerateCsv(s))| == 1 + |s.responses|
    ensures forall k | 0 <= k < |Csv.Parse(GenerateCsv(s))| :: |Csv.Parse(GenerateCsv(s))[k]| == 7
  {
    CsvRowsWellFormed(s);
    Csv.ParseWrite(CsvRows(s));
    CsvRowValues(s);
  }

  /** The comment cell of an export row is the comment in quotes, and un-doubling its inside gives the comment back. */
  lemma CommentCellRoundTrip(s: Session, r: Response)
    ensures Csv.Render(ResponseRow(s, r)[5]) == "\"" + Csv.Escape(r.comment) + "\""
    ensures Csv.Unescape(Csv.Render(ResponseRow(s, r)[5])[1..|Csv.Render(ResponseRow(s, r)[5])| - 1]) == r.comment
  {
    var cell := Csv.Render(ResponseRow(s, r)[5]);
    assert cell[1..|cell| - 1] == Csv.Escape(r.comment);
    Csv.UnescapeEscape(r.comment);
  }
}
