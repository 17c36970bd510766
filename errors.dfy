/** The error variants of src/error.rs that the configuration and run paths can produce. */
module Errors {
  import opened Toml

  datatype Error =
    | RunRefNoParts(query: string)
    | AwesomTomlNotFound
    | FailParsingConfig
    | RunnerHasNoNameOrRef(value: Value)
    | DoNotSupportRefToRefYet(key: string)
    | StillHaveUnresolvedRefedRunners(value: Value)
    | FailParsingRunner
    | Exec(cmd: string, cause: string)
    | Io  // `IO`: a `std::io::Error`, here from `try_wait`
}
