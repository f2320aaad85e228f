/** How one statement sent to the database may go. */
module Faults {

  /** It runs; or nothing of it runs; or it runs and the answer to it is lost, so that the caller sees an error. */
  datatype DbFault = Fine | Down | AnswerLost
}
