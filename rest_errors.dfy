/**
 * The repository's `errors.RestErr`, reduced to the two fields the interceptor looks at.
 * Its `errors` package is not part of this model; its two constructors are assumed to set the
 * HTTP status their names say.
 */
module RestErrors {
  import opened Http

  datatype RestErr = RestErr(status: int, message: string)

  function NewNotFoundError(message: string): RestErr
  {
    RestErr(StatusNotFound, message)
  }

  function NewInternalServerError(message: string): RestErr
  {
    RestErr(StatusInternalServerError, message)
  }
}
