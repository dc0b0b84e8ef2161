/** The command line that starts the managed reverse client on a remote host: a script,
    quoted as one word of an outer command line. */
module RemoteCommand {
  import opened ShellWords

  const LISTEN_ADDR := "127.0.0.1:0"

  /** Every single quote closes the quotes, appears inside double quotes and reopens them. */
  function EscapeQuotes(s: string): string {
    if s == "" then ""
    else (if s[0] == '\'' then "'\"'\"'" else [s[0]]) + EscapeQuotes(s[1..])
  }

  function ShellQuote(s: string): string {
    "'" + EscapeQuotes(s) + "'"
  }

  /** `$HOME`, in double quotes. */
  function HomeReference(): string {
    "\"" + "$" + "HOME" + "\""
  }

  function ShellPathExpr(path: string): string {
    if "~/" <= path then HomeReference() + ShellQuote(path[1..])
    else if "$HOME/" <= path then HomeReference() + ShellQuote(path[5..])
    else ShellQuote(path)
  }

  /** The script: stop with status 127 unless the command is found, else become it. */
  function Script(command: string, configPath: string, profile: string, listen: string): string {
    "command -v " + ShellQuote(command) + " >/dev/null 2>&1 || { echo missing-command >&2; exit 127; }; "
    + "exec " + ShellQuote(command) + " reverse-client" + " -c " + ShellPathExpr(configPath)
    + " --profile " + ShellQuote(profile) + " --listen " + ShellQuote(listen)
    + " --print-listen-addr" + " --log-level warn --log-format json"
  }

  function BuildManagedRemoteCommand(command: string, configPath: string, profile: string): string {
    "sh -lc " + ShellQuote(Script(command, configPath, profile, LISTEN_ADDR))
  }
}
