/** How much data one command carries (`max_cmd_len`, pysim/pySim/commands.py). */
module ApduLength {
  import opened Wrappers

  /** A secure channel, if there is one, takes its overhead. */
  function MaxCmdLen(overhead: Option<nat>): int {
    match overhead
    case Some(n) => 255 - n
    case None => 255
  }
}
