/** `os.path.join` on a POSIX system (Python's `posixpath.join`). */
module PosixPath {

  const Sep: char := '/'

  predicate IsAbsolute(p: string)
  {
    |p| > 0 && p[0] == Sep
  }

  predicate EndsWithSep(p: string)
  {
    |p| > 0 && p[|p| - 1] == Sep
  }

  /** One step of the join: an absolute part replaces the path, otherwise the
      part is appended, with a separator unless the path is empty or already
      ends in one. */
  function JoinStep(path: string, part: string): string
  {
    if IsAbsolute(part) then part
    else if path == [] || EndsWithSep(path) then path + part
    else path + [Sep] + part
  }

  /** A step ends with the part it appends, and keeps the path unless the part
      is absolute, in which case the part is all that remains. */
  lemma JoinStepKeeps(path: string, part: string)
    ensures var r := JoinStep(path, part);
            |part| <= |r| && r[|r| - |part|..] == part &&
            (IsAbsolute(part) ==> r == part) &&
            (!IsAbsolute(part) ==> |path| <= |r| && r[..|path|] == path)
  {
  }

  /** Appending a relative part to a path that does not end in a separator
      puts exactly one separator between them. */
  lemma JoinStepRelative(path: string, part: string)
    requires path != [] && !EndsWithSep(path) && part != [] && part[0] != Sep
    ensures JoinStep(path, part) == path + [Sep] + part
    ensures !EndsWithSep(JoinStep(path, part)) <==> part[|part| - 1] != Sep
  {
  }

  /** `os.path.join(first, parts[0], parts[1], ...)`. */
  function Join(first: string, parts: seq<string>): string
    decreases |parts|
  {
    if parts == [] then first else Join(JoinStep(first, parts[0]), parts[1..])
  }

  /** The joined path ends with the last part, whatever came before it. */
  lemma {:induction false} JoinEndsWithLast(first: string, parts: seq<string>)
    requires |parts| > 0
    ensures var r := Join(first, parts);
            var last := parts[|parts| - 1];
            |last| <= |r| && r[|r| - |last|..] == last
    decreases |parts|
  {
    JoinStepKeeps(first, parts[0]);
    if |parts| > 1 {
      JoinEndsWithLast(JoinStep(first, parts[0]), parts[1..]);
    }
  }

  /** When no part is absolute, the joined path starts with `first`. */
  lemma {:induction false} JoinKeepsPrefix(first: string, parts: seq<string>)
    requires forall i :: 0 <= i < |parts| ==> !IsAbsolute(parts[i])
    ensures var r := Join(first, parts); |first| <= |r| && r[..|first|] == first
    decreases |parts|
  {
    if parts != [] {
      var next := JoinStep(first, parts[0]);
      JoinStepKeeps(first, parts[0]);
      JoinKeepsPrefix(next, parts[1..]);
      assert Join(first, parts)[..|next|] == next;
      assert next[..|first|] == first;
    }
  }

  /** An absolute part discards everything joined before it. */
  lemma {:induction false} JoinRestartsAtAbsolute(first: string, parts: seq<string>, k: nat)
    requires k < |parts| && IsAbsolute(parts[k])
    ensures Join(first, parts) == Join(parts[k], parts[k + 1..])
    decreases k
  {
    if k > 0 {
      assert parts[1..][k - 1] == parts[k];
      assert parts[1..][k - 1 + 1..] == parts[k + 1..];
      JoinRestartsAtAbsolute(JoinStep(first, parts[0]), parts[1..], k - 1);
    }
  }
}
