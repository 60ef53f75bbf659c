/** The verdicts of SahuJudge. */
module Verdicts {
  datatype Verdict =
    | ACCEPTED
    | WRONG_ANSWER
    | TIME_LIMIT_EXCEEDED
    | MEMORY_LIMIT_EXCEEDED
    | RUNTIME_ERROR
    | COMPILATION_ERROR
    | SYSTEM_ERROR
}
