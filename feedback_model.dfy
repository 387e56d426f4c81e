/**
 * The entities of the in-browser feedback store: understanding ratings,
 * the responses students submit, the teacher's live session and the records
 * kept in the feedback archive.
 */
module FeedbackModel {

  datatype Option<+T> = None | Some(value: T)

  /** An understanding level as a rating option carries it: 1 (very confused) to 5 (perfectly clear). */
  type Rating = r: int | 1 <= r <= 5 witness 1

  /** A character that Date.prototype.toISOString can produce. */
  predicate IsIsoChar(c: char) {
    ('0' <= c <= '9') || c == '+' || c == '-' || c == ':' || c == '.' || c == 'T' || c == 'Z'
  }

  predicate IsIsoText(t: string) {
    forall i | 0 <= i < |t| :: IsIsoChar(t[i])
  }

  /**
   * A point in time. Clocks are outside the model: a timestamp is an opaque
   * value, represented by its ISO 8601 text, the form the CSV export writes.
   */
  type Timestamp = t: string | IsIsoText(t) witness "1970-01-01T00:00:00.000Z"

  /** One student submission: the session id typed in, the rating chosen, the comment. */
  datatype Response = Response(sessionId: string, rating: Rating, comment: string, timestamp: Timestamp)

  /** The teacher's running session; `responses` is the list the page appends to. */
  datatype Session = Session(
    id: string,
    subject: string,
    teacher: string,
    topic: string,
    startTime: Timestamp,
    responses: seq<Response>)

  /**
   * An entry of the feedback archive: a response, with the descriptive fields
   * that were attached to it (none for a fresh submission, only the subject
   * for the demo entries, all three for a copy archived when a session ends).
   */
  datatype Record = Record(response: Response, subject: Option<string>, teacher: Option<string>, topic: Option<string>)

  /** Every generated session id starts with this prefix; the rest is random. */
  const SessionIdPrefix := "SESS"

  /** The invariant every append site keeps: each response a session holds carries that session's id. */
  predicate Owned(s: Session) {
    forall i | 0 <= i < |s.responses| :: s.responses[i].sessionId == s.id
  }

  /** What holds of any session the page has created. */
  predicate WellFormedSession(s: Session) {
    && |s.id| >= |SessionIdPrefix| && s.id[..|SessionIdPrefix|] == SessionIdPrefix
    && s.subject != "" && s.teacher != "" && s.topic != ""
    && Owned(s)
  }

  /** The archived copies of a session's responses, tagged with its subject, teacher and topic. */
  function Archive(s: Session): (rs: seq<Record>)
    ensures |rs| == |s.responses|
    ensures forall i | 0 <= i < |rs| ::
      rs[i].response == s.responses[i] &&
      rs[i].subject == Some(s.subject) && rs[i].teacher == Some(s.teacher) && rs[i].topic == Some(s.topic)
  {
    seq(|s.responses|, i requires 0 <= i < |s.responses| =>
      Record(s.responses[i], Some(s.subject), Some(s.teacher), Some(s.topic)))
  }

  /** Archiving a session whose responses it owns yields records that all name that session. */
  lemma ArchiveKeepsSession(s: Session)
    requires Owned(s)
    ensures forall i | 0 <= i < |Archive(s)| :: Archive(s)[i].response.sessionId == s.id
  {
  }
}
