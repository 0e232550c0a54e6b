/** Optional values, and the outcomes of the codec's operations: a value, or
    the failure the Java code signals by throwing. */
module Results {

  datatype Option<T> = None | Some(value: T)

  /** `InvalidDataException` with its three messages, and the
      `NullPointerException` the cadence filter raises when it reads a slot
      that was never filled. */
  datatype Failure =
    | InvalidInRideData      // "Invalid inRide Data"
    | InvalidSystemId        // "Invalid System Id"
    | InvalidPeripheralName  // "Peripheral name must be between 3 and 8 characters"
    | NullCadenceMark

  datatype Result<T> = Ok(value: T) | Err(failure: Failure)
}
