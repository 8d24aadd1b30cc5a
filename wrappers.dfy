/** Failure-carrying results shared by every component of the vault. */
module Wrappers {

  datatype Option<+T> = None | Some(value: T) {
    function GetOr(default: T): T {
      match this
      case Some(v) => v
      case None => default
    }
  }

  /** The exceptions the vault raises, one constructor per distinct message. */
  datatype Error =
    | DuplicateUser            // "Username already exists"
    | InvalidSession           // "Invalid session"
    | AccessDenied             // "Access denied"
    | DocumentNotFound         // "Document with hash ... not found"
    | DocumentFileNotFound     // "Document file not found for hash ..."
    | RecipientNotFound        // "Recipient user '...' not found"
    | PaddingIncorrect         // the unpadder's ValueError after decryption

  datatype Result<+T> = Ok(value: T) | Err(error: Error)
}
