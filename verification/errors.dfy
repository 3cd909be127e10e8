/** Go `error` values as far as the bridge distinguishes them: the `io.EOF`
    sentinel, and errors built with `errors.New(text)`. A nil error is the
    absence of an `Error` (`Option<Error>.None`). */
module Errors {

  datatype Error = EOF | ErrorText(text: string)
}
