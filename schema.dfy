/** The record shapes shared by the form and the results page. */
module Schema {

  datatype Option<+T> = None | Some(value: T)

  /** What the form posts: a submission without its server-assigned fields. */
  datatype InsertSubmission = InsertSubmission(
    answer: string,
    timeSpentSeconds: int,
    mouseMoves: int,
    hoverCount: int,
    riskScore: real)

  /** A stored submission; `createdAt` is a nullable timestamp column defaulting to insertion time. */
  datatype Submission = Submission(
    id: int,
    answer: string,
    timeSpentSeconds: int,
    mouseMoves: int,
    hoverCount: int,
    riskScore: real,
    createdAt: Option<int>)
}
