/**
  The exception vocabulary of bev (bev/exceptions.py) together with the
  Python built-in exceptions the core raises, and the Option/Result
  wrappers every operation of the model returns.

  Each exception class is one constructor; the payload says which raise
  site produced it, so that contracts can tell, say, "hashed folder" from
  "folder inside a tree hash" although both are HashNotFound.
 */
module Errors {

  datatype Option<+T> = None | Some(value: T)

  /** Why a HashError (bev.exceptions.HashError) was raised. */
  datatype HashProblem =
    | AlreadyHash            // to_hash on a marker path
    | NotAHash               // from_hash on a path that is not a marker
    | DestinationExists      // add: destination exists under the `error` policy
    | DestinationNotAFile    // add: destination exists and is not a regular file
    | PreviousNotAFolder     // add: a folder is merged into a file marker
    | PreviousNotAFile       // add: a file is merged into a tree marker
    | Mismatch(path: Option<string>)  // add, `update` policy: differing keys (at `path` for folders)

  /** Why a HashNotFound (a subclass of HashError) was raised. */
  datatype Missing =
    | NoMarker          // no marker governs the path
    | HashedFolder      // the path's own marker is a tree key
    | FolderInsideTree  // the relative path is a folder of the governing tree
    | NotInTree         // the relative path is not in the governing tree

  /** Why a ConfigError was raised. */
  datatype ConfigIssue =
    | NotAMapping       // the config document is not a dict
    | BadEntry          // an entry is neither a string nor a dict
    | ReservedNameKey   // an entry carries its own `name` key
    | ParentMissing     // a non-optional include could not be read
    | NameClash         // an include defines a name the child defines too
    | HashClash         // an include declares a different hash spec
    | UnknownFallback   // the fallback is not one of the entries
    | NoMatch           // no entry was chosen and there is no fallback

  /** Why a built-in ValueError was raised. */
  datatype ValueProblem =
    | EmptyName         // PurePath.with_name on a path without a name
    | InvalidName       // PurePath.with_name with the name '.'
    | DigestLength      // normalize_tree: a key of the wrong length
    | DuplicatePath     // normalize_tree: one path, two different keys
    | NoVersion         // Repository: no version given and no default
    | AbsolutePath      // Repository / p with an absolute p
    | DottedName        // registry: names with dots are reserved
    | NameReserved      // registry: the name is taken within its kind
    | MalformedLine     // git ls-tree: a line that does not unpack
    | EmptyPath         // wc: unpacking the parts of '.' into parents and a name

  /** Why a built-in TypeError (or AttributeError) was raised. */
  datatype TypeProblem =
    | NotATreeValue     // normalize_tree: a leaf that is neither str nor dict
    | NotAType          // registry: registering something that is not a class
    | NoUniqueKind      // registry: the class matches zero or several kinds
    | NotADict          // wc: descending into a file key as if it were a folder

  /** Why the registry's own RegistryError was raised. */
  datatype Unregistered = UnknownKind | UnknownName

  datatype Error =
    | HashError(why: HashProblem)
    | HashNotFound(missing: Missing)
    | NameConflict
    | ConfigError(issue: ConfigIssue)
    | RegistryError(unregistered: Unregistered)
    | ValueError(problem: ValueProblem)
    | TypeError(typeProblem: TypeProblem)
    | FileNotFound
    | IsADirectory           // IsADirectoryError: opening a directory as a file
    | Unreadable             // OSError: opening a socket or a device as a file
    | AssertionFailed
    | StorageError           // the content store cannot provide or decode a key
    | GitFailed(code: int)   // subprocess.CalledProcessError with this exit code

  datatype Result<+T> = Ok(value: T) | Err(error: Error) {
    predicate IsFailure() {
      Err?
    }

    function PropagateFailure<U>(): Result<U>
      requires Err?
    {
      Err(error)
    }

    function Extract(): T
      requires Ok?
    {
      value
    }
  }
}
