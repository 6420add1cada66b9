/**
 * The exception every layer of the service raises: a UserServiceException carries a
 * message and the HTTP status the controller advice turns it into.
 */
module ServiceErrors {

  datatype HttpStatus = BadRequest | Unauthorized | Forbidden | NotFound | Conflict | InternalServerError

  datatype ServiceError = UserServiceException(message: string, status: HttpStatus)
}
