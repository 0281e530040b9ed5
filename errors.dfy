/** The failures of the store. The source unwraps every fallible call, so each of
    these is a panic there; the model returns it with the state reached at that point. */
module Errors {

  import Ids

  datatype Error =
    | UserNotFound(user: Ids.UserId)     // `users/{id}.ron` does not exist
    | EventNotFound(event: Ids.EventId)  // `events/{id}.ron` does not exist
    | CacheUndecodable                   // `event_cache.ron` does not decode as a map

  datatype Outcome = Pass | Fail(error: Error)

  datatype Result<T> = Success(value: T) | Failure(error: Error)
}
