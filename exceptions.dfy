/**
 * The exception hierarchy of the cleanup tool (src/awscleanup/core/exceptions.py),
 * flattened into one error datatype. Every class derives from AWSCleanupError and
 * carries only a message, so each constructor keeps just what decides the message.
 */
module Exceptions {

  /** Why a call to the AWS command-line tool failed (base.py, `_run_aws_command`). */
  datatype DiscoveryFailure =
    | CredentialsNotFound                          // exit code 253
    | AccessDenied(detail: string)                 // exit code 254, or a permission word in the error text
    | CommandFailed(exitCode: int, detail: string) // any other non-zero exit code
    | UnparsableResponse                           // stdout was not valid JSON

  datatype Error =
    | ProfileError(message: string)
    | AccountSecurityError(accountId: string)
    | ResourceDiscoveryError(failure: DiscoveryFailure)
    | ServiceNotSupportedError(serviceName: string)
    | KeyError(key: string)                        // Python's built-in KeyError
}
