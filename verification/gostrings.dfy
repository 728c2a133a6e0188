/**
 * The handful of Go `strings` and `path/filepath` helpers the handlers use,
 * over `string` (a sequence of characters). The helpers work character by
 * character, so they agree with their Go namesakes, which work on bytes, on
 * text in valid UTF-8; ToUpperAscii covers only the ASCII letters.
 */
module GoStrings {

  predicate HasPrefix(s: string, prefix: string) {
    |prefix| <= |s| && s[..|prefix|] == prefix
  }

  predicate HasSuffix(s: string, suffix: string) {
    |suffix| <= |s| && s[|s| - |suffix|..] == suffix
  }

  /** strings.TrimPrefix: `s` without a leading `prefix`, or `s` itself when it does not start with one. */
  function TrimPrefix(s: string, prefix: string): (r: string)
    ensures HasPrefix(s, prefix) ==> prefix + r == s
    ensures !HasPrefix(s, prefix) ==> r == s
  {
    if HasPrefix(s, prefix) then s[|prefix|..] else s
  }

  /** strings.TrimSuffix: `s` without a trailing `suffix`, or `s` itself when it does not end with one. */
  function TrimSuffix(s: string, suffix: string): (r: string)
    ensures HasSuffix(s, suffix) ==> r + suffix == s
    ensures !HasSuffix(s, suffix) ==> r == s
  {
    if HasSuffix(s, suffix) then s[..|s| - |suffix|] else s
  }

  /** Trimming a prefix that was just prepended gives back the original text. */
  lemma TrimPrefixOfConcat(prefix: string, rest: string)
    ensures HasPrefix(prefix + rest, prefix)
    ensures TrimPrefix(prefix + rest, prefix) == rest
  {
    assert (prefix + rest)[..|prefix|] == prefix;
  }

  /** Trimming a suffix that was just appended gives back the original text. */
  lemma TrimSuffixOfConcat(rest: string, suffix: string)
    ensures HasSuffix(rest + suffix, suffix)
    ensures TrimSuffix(rest + suffix, suffix) == rest
  {
    assert (rest + suffix)[|rest|..] == suffix;
  }

  /**
   * strings.ReplaceAll(s, old, new) for a one-character `old` and `new`:
   * every occurrence of `from` becomes `to`, and nothing else moves.
   */
  function ReplaceChar(s: string, from: char, to: char): (r: string)
    ensures |r| == |s|
    ensures forall i :: 0 <= i < |s| ==> r[i] == (if s[i] == from then to else s[i])
    ensures from != to ==> from !in r
    decreases |s|
  {
    if s == [] then []
    else [if s[0] == from then to else s[0]] + ReplaceChar(s[1..], from, to)
  }

  /** Replacing a character in a concatenation replaces it in each part. */
  lemma ReplaceCharOfConcat(a: string, b: string, from: char, to: char)
    ensures ReplaceChar(a + b, from, to) == ReplaceChar(a, from, to) + ReplaceChar(b, from, to)
  {
  }

  /** Replacing a character that does not occur changes nothing. */
  lemma ReplaceCharAbsent(s: string, from: char, to: char)
    requires from !in s
    ensures ReplaceChar(s, from, to) == s
  {
  }

  /** ASCII upper-casing of one character; every other character is left alone. */
  function UpperChar(c: char): char {
    if 'a' <= c <= 'z' then (c as int - 32) as char else c
  }

  /** strings.ToTitle restricted to ASCII: lower-case letters become upper-case, the rest is kept. */
  function ToUpperAscii(s: string): (r: string)
    ensures |r| == |s|
    ensures forall i :: 0 <= i < |s| ==> r[i] == UpperChar(s[i])
    ensures forall i :: 0 <= i < |r| ==> !('a' <= r[i] <= 'z')
    decreases |s|
  {
    if s == [] then [] else [UpperChar(s[0])] + ToUpperAscii(s[1..])
  }

  /** filepath.ToSlash: the operating system's separator `sep` becomes `/`. */
  function ToSlash(path: string, sep: char): (r: string)
    ensures |r| == |path|
    ensures sep != '/' ==> sep !in r
    ensures forall i :: 0 <= i < |path| ==> r[i] == (if path[i] == sep then '/' else path[i])
  {
    if sep == '/' then path else ReplaceChar(path, sep, '/')
  }

  /** `s` without its trailing run of slashes. */
  function StripTrailingSlashes(s: string): (r: string)
    ensures |r| <= |s| && s[..|r|] == r
    ensures r == [] || r[|r| - 1] != '/'
    ensures forall i :: |r| <= i < |s| ==> s[i] == '/'
    decreases |s|
  {
    if |s| > 0 && s[|s| - 1] == '/' then StripTrailingSlashes(s[..|s| - 1]) else s
  }

  /** The text after the last slash of `s` (all of `s` when it has none). */
  function AfterLastSlash(s: string): (r: string)
    ensures '/' !in r
    ensures |r| <= |s| && s[|s| - |r|..] == r
    ensures |r| < |s| ==> s[|s| - |r| - 1] == '/'
    ensures |s| > 0 && s[|s| - 1] != '/' ==> |r| > 0
    decreases |s|
  {
    if |s| == 0 then s
    else if s[|s| - 1] == '/' then []
    else
      var init := s[..|s| - 1];
      var r' := AfterLastSlash(init);
      assert s[|s| - |r'| - 1..] == init[|init| - |r'|..] + [s[|s| - 1]];
      assert |r'| < |init| ==> s[|s| - |r'| - 2] == init[|init| - |r'| - 1];
      r' + [s[|s| - 1]]
  }

  /**
   * filepath.Base on a `/`-separated path, `sep` being the OS separator:
   * "." for the empty path, the separator itself for a path of slashes only,
   * otherwise the last element once trailing slashes are dropped.
   */
  function Base(path: string, sep: char): (r: string)
    ensures |r| > 0
    ensures r == [sep] || '/' !in r
    ensures path == [] ==> r == "."
    ensures path != [] ==>
              var t := StripTrailingSlashes(path);
              if t == [] then r == [sep]
              else '/' !in r && |r| <= |t| && t[|t| - |r|..] == r && (|r| < |t| ==> t[|t| - |r| - 1] == '/')
    ensures forall c :: c in r ==> c in path || (path == [] && c == '.') || (path != [] && r == [sep])
  {
    if path == [] then "."
    else
      var trimmed := StripTrailingSlashes(path);
      if trimmed == [] then
        [sep]
      else
        LastElementChars(path);
        AfterLastSlash(trimmed)
  }

  /** The last element of a path is made of the path's own characters. */
  lemma LastElementChars(path: string)
    ensures forall c :: c in AfterLastSlash(StripTrailingSlashes(path)) ==> c in path
  {
    var trimmed := StripTrailingSlashes(path);
    var last := AfterLastSlash(trimmed);
    assert forall c :: c in last ==> c in trimmed by {
      assert last == trimmed[|trimmed| - |last|..];
    }
    assert forall c :: c in trimmed ==> c in path by {
      assert trimmed == path[..|trimmed|];
    }
  }

  /** A path holding some character other than '/' has a slash-free base made of its own characters. */
  lemma BaseOfNonRoot(path: string, sep: char, i: nat)
    requires i < |path| && path[i] != '/'
    ensures '/' !in Base(path, sep)
    ensures forall c :: c in Base(path, sep) ==> c in path
  {
    assert StripTrailingSlashes(path) != [];
  }

  /** The element after the last slash of `dir + "/" + name` is `name` when `name` holds no slash. */
  lemma {:induction false} AfterLastSlashOfJoin(dir: string, name: string)
    requires '/' !in name
    ensures AfterLastSlash(dir + "/" + name) == name
    decreases |name|
  {
    var s := dir + "/" + name;
    if name == [] {
      assert s[|s| - 1] == '/';
    } else {
      var init := name[..|name| - 1];
      assert s[..|s| - 1] == dir + "/" + init;
      assert s[|s| - 1] == name[|name| - 1];
      AfterLastSlashOfJoin(dir, init);
      assert init + [name[|name| - 1]] == name;
    }
  }

  /** Base of a directory joined with a non-empty slash-free name is that name. */
  lemma BaseOfJoin(dir: string, name: string, sep: char)
    requires name != [] && '/' !in name
    ensures Base(dir + "/" + name, sep) == name
  {
    var s := dir + "/" + name;
    assert s[|s| - 1] == name[|name| - 1];
    assert StripTrailingSlashes(s) == s;
    AfterLastSlashOfJoin(dir, name);
  }
}
