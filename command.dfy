/**
 * What a command's `Run` ends with. A command either stops before saving
 * (a load error, a rejected flag combination, a missing secret) or hands a
 * store to `SaveStore`; `get` instead reports a value.
 */
module Command {
  import opened Base
  import opened Vault

  datatype Rejection =
    | MissingName          // "secret name is required"
    | MissingValue         // "secret value or --generate flag is required"
    | DuplicateName        // "secret with name '%s' already exists"
    | NothingToUpdate      // "either --value, --category or --generate must be specified"
    | GenerateFailed       // "Error generating password"
    | PromptFailed         // an interactive prompt returned an error

  datatype Outcome =
    | LoadAborted(error: LoadError)   // "Error loading store"
    | Rejected(reason: Rejection)
    | NotFound                        // "Secret not found."
    | Save(store: Store)              // `store.SaveStore(filePath, password, store)`
    | Show(value: GoString)           // "Value: %s"
}
