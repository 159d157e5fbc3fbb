/** The exceptions the modelled code throws, catches and wraps. */
module Exceptions {
  import opened Wrappers

  datatype Exception =
      /** thrown by a library outside the model, with its (possibly null) message */
    | Foreign(detail: Option<string>)
      /** java.lang.NullPointerException, whose message is null */
    | NullPointer
      /** org.apache.maven.plugin.MojoExecutionException(message, cause) */
    | MojoExecution(message: string, cause: Option<Exception>)
      /** io.fabric8.common.util.MultiException(message, causes) */
    | Multi(message: string, causes: seq<Exception>)

  /** `e.getMessage()` */
  function MessageOf(e: Exception): Option<string> {
    match e
    case Foreign(m) => m
    case NullPointer => None
    case MojoExecution(m, _) => Some(m)
    case Multi(m, _) => Some(m)
  }
}
