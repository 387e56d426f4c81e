/**
 * The page's feedback store: the three module-level variables (the live
 * session, the feedback archive and the selected rating) as the fields of one
 * object, and the actions that change them. Form values arrive already
 * trimmed; the random part of a session id, the clock, the confirmation
 * dialog and the random demo choices arrive as parameters.
 */
module App {
  import opened FeedbackModel
  import Views

  datatype SubmitOutcome = MissingSessionId | MissingRating | Submitted

  /**
   * What the chart update hands to the doughnut and the timeline. A timeline
   * label is kept as the number the page writes after its constant `R` prefix.
   */
  datatype ChartView = ChartView(counts: seq<nat>, labels: seq<int>, ratings: seq<int>)

  /** A CSV download: its content and its file name. */
  datatype Export = Export(content: string, filename: string)

  /** The comments the demo helper chooses from. */
  const DemoComments: seq<string> := [
    "Great explanation!",
    "Very clear and helpful",
    "Could use more examples",
    "Perfect pace",
    "Need more time for questions",
    "Excellent session!",
    "A bit fast for me",
    "Love the interactive approach"
  ]

  /** The comments the simulated live feed chooses from. */
  const LiveComments: seq<string> := ["Great!", "Very helpful", "Need more examples", "Excellent explanation", ""]

  class FeedbackApp {
    /** The teacher's running session, if any. */
    var currentSession: Option<Session>
    /** The archive of all feedback the page knows about. */
    var feedbackData: seq<Record>
    /** The rating option the student picked; 0 while none is picked. */
    var selectedRating: int

    ghost predicate Valid()
      reads this
    {
      && 0 <= selectedRating <= 5
      && (currentSession.Some? ==> WellFormedSession(currentSession.value))
      && (forall i | 0 <= i < |feedbackData| :: feedbackData[i].response.sessionId != "")
    }

    /** The state when the page is loaded, before the demo data is filled in. */
    constructor ()
      ensures Valid()
      ensures currentSession == None && feedbackData == [] && selectedRating == 0
    {
      currentSession := None;
      feedbackData := [];
      selectedRating := 0;
    }

    /**
     * Replaces the archive with the five demo entries. Each entry reads the
     * clock on its own: t0 and t1 are about one day back, t2 and t3 two days,
     * t4 three days.
     */
    method InitializeDemoData(t0: Timestamp, t1: Timestamp, t2: Timestamp, t3: Timestamp, t4: Timestamp)
      requires Valid()
      modifies this
      ensures Valid()
      ensures |feedbackData| == 5
      ensures forall i | 0 <= i < 5 :: feedbackData[i].teacher == None && feedbackData[i].topic == None
      ensures feedbackData[0].response == Response("SESS001", 4, "Great explanation!", t0)
      ensures feedbackData[1].response == Response("SESS001", 5, "Very clear", t1)
      ensures feedbackData[2].response == Response("SESS002", 3, "Need more examples", t2)
      ensures feedbackData[3].response == Response("SESS002", 4, "Good pace", t3)
      ensures feedbackData[4].response == Response("SESS003", 5, "Excellent!", t4)
      ensures feedbackData[0].subject == feedbackData[1].subject == Some("Mathematics")
      ensures feedbackData[2].subject == feedbackData[3].subject == Some("Physics")
      ensures feedbackData[4].subject == Some("Chemistry")
      ensures currentSession == old(currentSession) && selectedRating == old(selectedRating)
    {
      feedbackData := [
        Record(Response("SESS001", 4, "Great explanation!", t0), Some("Mathematics"), None, None),
        Record(Response("SESS001", 5, "Very clear", t1), Some("Mathematics"), None, None),
        Record(Response("SESS002", 3, "Need more examples", t2), Some("Physics"), None, None),
        Record(Response("SESS002", 4, "Good pace", t3), Some("Physics"), None, None),
        Record(Response("SESS003", 5, "Excellent!", t4), Some("Chemistry"), None, None)
      ];
    }

    /**
     * Starts a session when all three fields are filled in; a running session
     * is replaced (its responses are not archived). Blank fields change nothing.
     */
    method StartSession(subject: string, teacher: string, topic: string, idSuffix: string, now: Timestamp)
      returns (started: bool)
      requires Valid()
      modifies this
      ensures Valid()
      ensures started <==> subject != "" && teacher != "" && topic != ""
      ensures started ==> currentSession == Some(Session(SessionIdPrefix + idSuffix, subject, teacher, topic, now, []))
      ensures !started ==> currentSession == old(currentSession)
      ensures feedbackData == old(feedbackData) && selectedRating == old(selectedRating)
    {
      if subject == "" || teacher == "" || topic == "" {
        return false;
      }
      currentSession := Some(Session(SessionIdPrefix + idSuffix, subject, teacher, topic, now, []));
      started := true;
    }

    /** Picking a rating option replaces any earlier pick. */
    method HandleRatingSelection(rating: Rating)
      requires Valid()
      modifies this
      ensures Valid()
      ensures selectedRating == rating
      ensures currentSession == old(currentSession) && feedbackData == old(feedbackData)
    {
      selectedRating := rating;
    }

    /**
     * Submits the picked rating and the comment under the typed session id.
     * A blank id or a missing rating changes nothing. An accepted submission
     * is archived, and added to the running session exactly when the ids match.
     */
    method SubmitFeedback(sessionId: string, comment: string, now: Timestamp) returns (outcome: SubmitOutcome)
      requires Valid()
      modifies this
      ensures Valid()
      ensures outcome == (if sessionId == "" then MissingSessionId
                          else if old(selectedRating) == 0 then MissingRating
                          else Submitted)
      ensures outcome != Submitted ==> feedbackData == old(feedbackData) && currentSession == old(currentSession)
      ensures outcome == Submitted ==>
        var f := Response(sessionId, old(selectedRating), comment, now);
        && feedbackData == old(feedbackData) + [Record(f, None, None, None)]
        && currentSession ==
             if old(currentSession).Some? && old(currentSession).value.id == sessionId
             then Some(old(currentSession).value.(responses := old(currentSession).value.responses + [f]))
             else old(currentSession)
      ensures selectedRating == old(selectedRating)
    {
      if sessionId == "" {
        return MissingSessionId;
      }
      if selectedRating == 0 {
        return MissingRating;
      }
      var f := Response(sessionId, selectedRating, comment, now);
      if currentSession.Some? && currentSession.value.id == sessionId {
        var s := currentSession.value;
        currentSession := Some(s.(responses := s.responses + [f]));
      }
      feedbackData := feedbackData + [Record(f, None, None, None)];
      outcome := Submitted;
    }

    /** Clears the picked rating after the thank-you message. */
    method ResetStudentForm()
      requires Valid()
      modifies this
      ensures Valid()
      ensures selectedRating == 0
      ensures currentSession == old(currentSession) && feedbackData == old(feedbackData)
    {
      selectedRating := 0;
    }

    /**
     * Ends the running session when the teacher confirms: its responses are
     * archived in order, tagged with its subject, teacher and topic, and the
     * session is gone. With no session, or without confirmation, nothing changes.
     */
    method EndSession(confirmed: bool) returns (ended: bool)
      requires Valid()
      modifies this
      ensures Valid()
      ensures ended <==> old(currentSession).Some? && confirmed
      ensures ended ==> feedbackData == old(feedbackData) + Archive(old(currentSession).value) && currentSession == None
      ensures !ended ==> feedbackData == old(feedbackData) && currentSession == old(currentSession)
      ensures selectedRating == old(selectedRating)
    {
      if currentSession.None? || !confirmed {
        return false;
      }
      var s := currentSession.value;
      if |s.responses| > 0 {
        feedbackData := feedbackData + Archive(s);
      } else {
        assert Archive(s) == [];
      }
      currentSession := None;
      ended := true;
    }

    /** The demo helper: adds a response with rating roll + 1 and a stock comment to the running session. */
    method AddDemoFeedback(roll: nat, pick: nat, now: Timestamp)
      requires roll < 5 && pick < |DemoComments|
      requires Valid()
      modifies this
      ensures Valid()
      ensures currentSession ==
        if old(currentSession).None? then None
        else Some(old(currentSession).value.(responses := old(currentSession).value.responses
                    + [Response(old(currentSession).value.id, roll + 1, DemoComments[pick], now)]))
      ensures feedbackData == old(feedbackData) && selectedRating == old(selectedRating)
    {
      if currentSession.None? {
        return;
      }
      var s := currentSession.value;
      currentSession := Some(s.(responses := s.responses + [Response(s.id, roll + 1, DemoComments[pick], now)]));
    }

    /**
     * One tick of the simulated live feed; `fires` stands for the one-in-ten
     * chance. When it fires during a session, a random response is added.
     */
    method LiveUpdateTick(fires: bool, roll: nat, pick: nat, now: Timestamp)
      requires roll < 5 && pick < |LiveComments|
      requires Valid()
      modifies this
      ensures Valid()
      ensures currentSession ==
        if old(currentSession).None? || !fires then old(currentSession)
        else Some(old(currentSession).value.(responses := old(currentSession).value.responses
                    + [Response(old(currentSession).value.id, roll + 1, LiveComments[pick], now)]))
      ensures feedbackData == old(feedbackData) && selectedRating == old(selectedRating)
    {
      if currentSession.Some? && fires {
        var s := currentSession.value;
        currentSession := Some(s.(responses := s.responses + [Response(s.id, roll + 1, LiveComments[pick], now)]));
      }
    }

    // ------------------------------------------------------------ displays

    /**
     * The chart data for the running session: histogram buckets, timeline
     * labels and timeline ratings. The labels follow the page's formula, which
     * names the plotted responses only once ten of them are in.
     */
    method UpdateCharts() returns (view: Option<ChartView>)
      ensures view.None? <==> currentSession.None?
      ensures view.Some? ==>
        var rs := currentSession.value.responses;
        && |view.value.counts| == 5
        && (forall r: Rating :: view.value.counts[5 - r] == multiset(Views.Ratings(rs))[r])
        && view.value.ratings == Views.TimelineRatings(rs)
        && view.value.labels == Views.TimelineLabelsAsWritten(rs)
        && (|rs| >= Views.TimelineLength ==> view.value.labels == Views.TimelineLabels(rs))
        && (0 < |rs| < Views.TimelineLength ==> view.value.labels[0] < 1)
    {
      if currentSession.None? {
        return None;
      }
      var rs := currentSession.value.responses;
      var counts := Views.RatingCounts(rs);
      if |rs| >= Views.TimelineLength {
        Views.TimelineLabelsAgreeWhenFull(rs);
      } else if |rs| > 0 {
        Views.TimelineLabelsAsWrittenBelowOne(rs);
      }
      view := Some(ChartView(counts, Views.TimelineLabelsAsWritten(rs), Views.TimelineRatings(rs)));
    }

    /** The statistics panel for the running session. */
    method UpdateStats() returns (stats: Option<Views.Stats>)
      ensures stats.None? <==> currentSession.None?
      ensures stats.Some? ==>
        var rs := currentSession.value.responses;
        && stats.value.totalResponses == |rs|
        && (stats.value.average.Some? <==> |rs| > 0)
        && (stats.value.average.Some? ==>
              && stats.value.average.value.count == |rs|
              && stats.value.average.value.sum == Views.SumRatings(rs)
              && stats.value.average.value.count <= stats.value.average.value.sum <= 5 * stats.value.average.value.count)
    {
      if currentSession.None? {
        return None;
      }
      stats := Some(Views.Summary(currentSession.value.responses));
    }

    /** The feedback list: empty (the "no feedback yet" message) without a session, else the latest five, newest first. */
    method UpdateFeedbackList() returns (items: seq<Response>)
      ensures currentSession.None? ==> items == []
      ensures currentSession.Some? ==>
        var rs := currentSession.value.responses;
        && |items| == Views.Min(Views.RecentListLength, |rs|)
        && forall i | 0 <= i < |items| :: items[i] == rs[|rs| - 1 - i]
    {
      if currentSession.None? || |currentSession.value.responses| == 0 {
        return [];
      }
      items := Views.RecentFeedback(currentSession.value.responses);
    }

    /** The CSV download of the running session; nothing when there is no session or no response yet. */
    method ExportFeedback() returns (download: Option<Export>)
      ensures download.None? <==> currentSession.None? || currentSession.value.responses == []
      ensures download.Some? ==>
        && download.value.content == Views.GenerateCsv(currentSession.value)
        && download.value.filename == "feedback_" + currentSession.value.id + ".csv"
    {
      if currentSession.None? || |currentSession.value.responses| == 0 {
        return None;
      }
      var s := currentSession.value;
      download := Some(Export(Views.GenerateCsv(s), "feedback_" + s.id + ".csv"));
    }
  }

  /**
   * A submission that matches the running session is archived twice: once
   * when it is submitted and once more, tagged, when the session ends. This
   * holds whatever the page held before: the demo entries and earlier
   * sessions' records stay in front, untouched.
   */
  method MatchedSubmissionArchivedTwice(
    app: FeedbackApp,
    subject: string, teacher: string, topic: string, idSuffix: string,
    rating: Rating, comment: string, start: Timestamp, at: Timestamp)
    requires app.Valid()
    requires subject != "" && teacher != "" && topic != ""
    modifies app
    ensures app.Valid() && app.currentSession == None
    ensures var f := Response(SessionIdPrefix + idSuffix, rating, comment, at);
      app.feedbackData == old(app.feedbackData) + [Record(f, None, None, None), Record(f, Some(subject), Some(teacher), Some(topic))]
  {
    var started := app.StartSession(subject, teacher, topic, idSuffix, start);
    app.HandleRatingSelection(rating);
    var outcome := app.SubmitFeedback(SessionIdPrefix + idSuffix, comment, at);
    var ended := app.EndSession(true);
  }
}
