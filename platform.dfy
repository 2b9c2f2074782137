/** Platform detection and the choice of a scratch directory (main.go).
    The process environment is passed in as a value: an unset variable
    reads as "", as `os.Getenv` reports it. */
module Platform {

  /** The environment variables and build target the code consults. */
  datatype Environment = Environment(
    termux: string,  // $TERMUX
    goos: string,    // runtime.GOOS
    home: string,    // $HOME
    tmpDir: string   // $TMPDIR
  )

  /** Termux's home directory, used when $HOME is empty on Android. */
  const TermuxHome: string := "/data/data/com.termux/files/home"

  /** Scratch directory off Android when $TMPDIR is empty. */
  const DefaultTmp: string := "/tmp"

  /** `isAndroidEnvironment`: a Termux marker is set, or the build targets Android. */
  predicate IsAndroidEnvironment(e: Environment) {
    e.termux != "" || e.goos == "android"
  }

  /** `getTempDir`: $HOME (else Termux's home) on Android, $TMPDIR (else /tmp) elsewhere. */
  function TempDir(e: Environment): (dir: string)
    ensures dir != ""
    ensures IsAndroidEnvironment(e) ==> dir == e.home || (e.home == "" && dir == TermuxHome)
    ensures !IsAndroidEnvironment(e) ==> dir == e.tmpDir || (e.tmpDir == "" && dir == DefaultTmp)
  {
    if IsAndroidEnvironment(e) then
      if e.home != "" then e.home else TermuxHome
    else
      if e.tmpDir != "" then e.tmpDir else DefaultTmp
  }

  /** main.go is built only for the Android target, so in the shipped
      program the platform is always detected as Android and the
      directory never depends on $TMPDIR. */
  lemma AndroidBuildIgnoresTmpDir(e: Environment, otherTmp: string)
    requires e.goos == "android"
    ensures IsAndroidEnvironment(e)
    ensures TempDir(e) == TempDir(e.(tmpDir := otherTmp))
    ensures TempDir(e) == (if e.home != "" then e.home else TermuxHome)
  {
  }
}
