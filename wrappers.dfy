/** Optional values and results with an error, standing in for C#'s nullable
    references and for the exceptions the client throws. */
module Wrappers {

  /** A value that may be absent (`null` / `default` in the client). */
  datatype Option<+T> = None | Some(value: T)

  /** The failures the client reports by throwing. */
  datatype Error =
    | InvalidMode                   // the mode switch fell through to its default arm
    | AuthenticationFailed          // login returned nothing or a blank jwt
    | NoFilesToUpload               // an upload was asked for with an empty file list
    | TimeoutOutOfRange             // `HttpClient.Timeout` refused the upload's timeout
    | FileNotFound(filePath: string) // an upload named a file that does not exist

  /** Either a value or the error the client would have thrown. */
  datatype Result<+T> = Ok(value: T) | Err(error: Error)
}
