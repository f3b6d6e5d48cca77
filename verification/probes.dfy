/** The operating-system queries the analyses make about a file, as oracles.
    `os.path.getsize`, `os.stat(...).st_mode` and `mimetypes.guess_type` are
    foreign calls; here each is a total function of the path, and an `OSError`
    raised by the call is `None` (or `Raised` for the content-type guess). */
module Probes {
  import opened Wrappers
  import opened Tree

  /** Outcome of `mimetypes.guess_type(path)[0]`: the call raised an
      `OSError`, or it returned a content type or no guess. */
  datatype Guess = Raised | Guessed(mime: Option<string>)

  datatype Probe = Probe(
    size: Path -> Option<nat>,   // os.path.getsize
    mode: Path -> Option<nat>,   // os.stat(path).st_mode
    guess: Path -> Guess         // mimetypes.guess_type(path)[0]
  )
}
