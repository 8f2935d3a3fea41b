/** The prefix test that the shell and the installer make on path strings. */
module PathPrefix {
  /** The path is the prefix, or goes on behind it with a slash. */
  predicate IsUnder(path: string, prefix: string) {
    prefix <= path && (|path| == |prefix| || path[|prefix|] == '/')
  }
}
