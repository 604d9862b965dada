/** The status of a release row. */
module ReleaseModel {
  datatype Status = Draft | InReview | Approved | Released | Archived | Error
}
