/** The datatypes and constants shared by every module of the model. */
module Base {

  /**
   REPLICATION at start-up, in server.py and client.py alike: the number of
   backups behind the first leader.
   */
  const Replication: nat := 2

  /** Where a `connect` is aimed: an address and a port. */
  type Endpoint = (string, int)

  /** A value that may be absent. */
  datatype Option<+T> = None | Some(value: T)

  /** Either a value or the error the source would raise instead of producing one. */
  datatype Result<+T, +E> = Ok(value: T) | Err(error: E)
}
