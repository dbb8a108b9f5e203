/** Error values and the result types that stand for the source's `CargoResult`. */
module Errors {

  /** File-system paths as their list of components; the root directory is `[]`. */
  type Path = seq<string>

  /** The failures that the configuration layer produces, one constructor per distinct error. */
  datatype Error =
    | Unconvertible                              // from_toml: a TOML kind outside string/array/table, or an array holding a non-string
    | TypeMismatch(expected: string, found: string)  // "expected X, but found Y"
    | OpenFailed(path: Path)                     // File::open failed on an existing candidate
    | ReadFailed(path: Path)                     // read_to_string failed
    | ParseFailed(path: Path)                    // the TOML parser rejected the text
    | KeyMissing                                 // extract_config: no such top-level key
    | NoCandidate                                // find_in_tree found nothing
    | NotFound(key: string)                      // get_config: "`key` not found in your configuration"
    | LoadFailed                                 // all_configs: "Couldn't load Cargo configuration"
    | JobsZero                                   // Config::new: "jobs must be at least 1"
    | NoHome                                     // Config::new: no home directory

  datatype Result<+T> = Ok(value: T) | Err(error: Error)

  /** `CargoResult<()>`. */
  datatype Outcome = Pass | Fail(error: Error)

  datatype Option<+T> = None | Some(value: T)
}
