/** The two `str` operations the detector uses: `split` on a one-character
    separator and `replace` of one character by another. */
module Strings {

  /** Number of occurrences of `c` in `s`. */
  function Occurrences(s: string, c: char): nat
  {
    if s == [] then 0 else (if s[0] == c then 1 else 0) + Occurrences(s[1..], c)
  }

  /** The parts joined back together with `sep` between consecutive ones. */
  function JoinWith(parts: seq<string>, sep: char): string
  {
    if parts == [] then [] else if |parts| == 1 then parts[0] else parts[0] + [sep] + JoinWith(parts[1..], sep)
  }

  /** Python's `s.split(sep)` for a one-character separator: the maximal
      separator-free pieces between separators, empty pieces included. */
  function Split(s: string, sep: char): (parts: seq<string>)
    ensures |parts| == Occurrences(s, sep) + 1
    ensures forall i :: 0 <= i < |parts| ==> sep !in parts[i]
    ensures JoinWith(parts, sep) == s
    decreases |s|
  {
    if s == [] then [[]]
    else
      var rest := Split(s[1..], sep);
      if s[0] == sep then
        assert JoinWith([[]] + rest, sep) == [sep] + JoinWith(rest, sep);
        [[]] + rest
      else
        var parts := [[s[0]] + rest[0]] + rest[1..];
        assert parts[1..] == rest[1..];
        assert JoinWith(parts, sep) == s by {
          if |rest| > 1 {
            assert JoinWith(rest, sep) == rest[0] + [sep] + JoinWith(rest[1..], sep);
          }
        }
        parts
  }

  /** A string free of the separator splits into itself alone. */
  lemma {:induction false} SplitWithoutSeparator(s: string, sep: char)
    requires sep !in s
    ensures Split(s, sep) == [s]
  {
    if s != [] {
      SplitWithoutSeparator(s[1..], sep);
    }
  }

  /** A string with exactly one separator, at `i`, splits into the text before
      it and the text after it. */
  lemma {:induction false} SplitAtSoleSeparator(s: string, sep: char, i: nat)
    requires i < |s| && s[i] == sep
    requires sep !in s[..i] && sep !in s[i + 1..]
    ensures Split(s, sep) == [s[..i], s[i + 1..]]
  {
    if i == 0 {
      assert s[1..] == s[i + 1..];
      SplitWithoutSeparator(s[1..], sep);
    } else {
      assert s[1..][..i - 1] == s[1..i];
      assert s[1..][i - 1 + 1..] == s[i + 1..];
      SplitAtSoleSeparator(s[1..], sep, i - 1);
      assert [s[0]] + s[1..i] == s[..i];
    }
  }

  /** Python's `s.replace(from, to)` for single characters: every `from` is
      turned into `to` and every other character is kept. */
  function ReplaceChar(s: string, from: char, to: char): string
  {
    if s == [] then [] else [if s[0] == from then to else s[0]] + ReplaceChar(s[1..], from, to)
  }

  /** The replacement keeps the length and works character by character. */
  lemma {:induction false} ReplaceCharAt(s: string, from: char, to: char)
    ensures |ReplaceChar(s, from, to)| == |s|
    ensures forall i :: 0 <= i < |s| ==> ReplaceChar(s, from, to)[i] == if s[i] == from then to else s[i]
  {
    if s != [] {
      ReplaceCharAt(s[1..], from, to);
      var r := ReplaceChar(s, from, to);
      forall i | 0 <= i < |s| ensures r[i] == if s[i] == from then to else s[i] {
        if i > 0 {
          assert r[i] == ReplaceChar(s[1..], from, to)[i - 1];
          assert s[i] == s[1..][i - 1];
        }
      }
    }
  }

  /** The group of the worked example, org.example, with its dot replaced.
      The literal comes in through a parameter, so the solver meets it only
      where the proof needs it. */
  lemma ReplaceDotExample(s: string)
    requires s == "org.example"
    ensures ReplaceChar(s, '.', '/') == "org/example"
  {
    ReplaceCharAt(s, '.', '/');
    var r := ReplaceChar(s, '.', '/');
    assert forall i :: 0 <= i < 11 ==> r[i] == "org/example"[i];
  }
}
