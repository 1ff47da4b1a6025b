/** What an operation that may throw leaves behind. */
module Outcomes {

  datatype Outcome<+T> = Success(value: T) | Thrown(message: string)
}
