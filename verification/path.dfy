/**
  Path display trimming (src/lib/helpers/path.rs). Paths are modelled as the strings
  `Path::display` renders them as; `display` strips every leading ".\" and then every
  leading "./".
 */
module Paths {
  import opened Strings

  /** `str::trim_start_matches` with a literal pattern: drops every leading copy of
      `prefix`. What is dropped is a whole number of copies, and what is left does
      not start with another one. */
  function TrimStartMatches(s: string, prefix: string): (r: string)
    requires prefix != []
    ensures !StartsWith(r, prefix)
    ensures exists n: nat :: s == Repeat(prefix, n) + r
    decreases |s|
  {
    if StartsWith(s, prefix) then
      var r := TrimStartMatches(s[|prefix|..], prefix);
      assert s == prefix + s[|prefix|..];
      var n: nat :| s[|prefix|..] == Repeat(prefix, n) + r;
      assert s == Repeat(prefix, n + 1) + r;
      r
    else
      assert s == Repeat(prefix, 0) + s;
      s
  }

  /** The leftover is determined by those two facts: any split of `s` into copies of
      `prefix` followed by text that does not start with `prefix` is the one
      `TrimStartMatches` makes. */
  lemma {:induction false} TrimStartMatchesUnique(s: string, prefix: string, n: nat, rest: string)
    requires prefix != []
    requires s == Repeat(prefix, n) + rest && !StartsWith(rest, prefix)
    ensures TrimStartMatches(s, prefix) == rest
  {
    if n > 0 {
      assert s == prefix + (Repeat(prefix, n - 1) + rest);
      assert s[..|prefix|] == prefix;
      assert s[|prefix|..] == Repeat(prefix, n - 1) + rest;
      TrimStartMatchesUnique(s[|prefix|..], prefix, n - 1, rest);
    } else {
      assert s == rest;
    }
  }

  /** `helpers::path::display` */
  function Display(path: string): (r: string)
    ensures !StartsWith(r, "./")
  {
    TrimStartMatches(TrimStartMatches(path, ".\\"), "./")
  }

  /** What Display cuts off is some ".\\" copies followed by some "./" copies. */
  lemma DisplayDecomposes(path: string)
    ensures exists a: nat, b: nat :: path == Repeat(".\\", a) + Repeat("./", b) + Display(path)
  {
    var t := TrimStartMatches(path, ".\\");
    var r := TrimStartMatches(t, "./");
    var a: nat :| path == Repeat(".\\", a) + t;
    var b: nat :| t == Repeat("./", b) + r;
    assert path == Repeat(".\\", a) + Repeat("./", b) + r;
  }

  /** A path starting with neither ".\" nor "./" is displayed unchanged. */
  lemma DisplayUnchanged(path: string)
    requires !StartsWith(path, ".\\") && !StartsWith(path, "./")
    ensures Display(path) == path
  {
  }

  /** Two strings that differ at a position inside `p` do not share `p` as a prefix. */
  lemma DifferAt(s: string, p: string, i: nat)
    requires i < |p| && i < |s| && s[i] != p[i]
    ensures !StartsWith(s, p)
  {
    if |p| <= |s| {
      assert s[..|p|][i] == s[i];
    }
  }

  /** A non-empty run of copies of `p` starts with `p`. */
  lemma RunStartsWith(p: string, n: nat, rest: string)
    requires n > 0
    ensures Repeat(p, n) + rest == p + (Repeat(p, n - 1) + rest)
    ensures StartsWith(Repeat(p, n) + rest, p)
  {
    assert (p + (Repeat(p, n - 1) + rest))[..|p|] == p;
  }

  /** Display strips exactly the leading ".\\" copies and then the "./" copies:
      "./src/main.rs" is shown as "src/main.rs". */
  lemma DisplayStrips(a: nat, b: nat, rest: string)
    requires !StartsWith(rest, ".\\") && !StartsWith(rest, "./")
    ensures Display(Repeat(".\\", a) + Repeat("./", b) + rest) == rest
  {
    var t := Repeat("./", b) + rest;
    var path := Repeat(".\\", a) + Repeat("./", b) + rest;
    NoBackslashRun(b, rest);
    assert path == Repeat(".\\", a) + t;
    TrimStartMatchesUnique(path, ".\\", a, t);
    TrimStartMatchesUnique(t, "./", b, rest);
  }

  lemma NoBackslashRun(b: nat, rest: string)
    requires !StartsWith(rest, ".\\")
    ensures !StartsWith(Repeat("./", b) + rest, ".\\")
  {
    if b > 0 {
      var t := Repeat("./", b) + rest;
      RunStartsWith("./", b, rest);
      assert t[1] == '/';
      DifferAt(t, ".\\", 1);
    }
  }

  /** Display is not idempotent: "./.\\x" is shown as ".\\x", which is shown as "x". */
  lemma DisplayNotIdempotent(x: char)
    requires x != '.'
    ensures Display("./.\\" + [x]) == ".\\" + [x]
    ensures Display(".\\" + [x]) == [x]
  {
    var once := ".\\" + [x];
    var twice := "./" + once;
    assert "./.\\" + [x] == twice;
    assert twice[1] == '/';
    DifferAt(twice, ".\\", 1);
    TrimStartMatchesUnique(twice, ".\\", 0, twice);
    assert once[1] == '\\';
    DifferAt(once, "./", 1);
    assert twice == Repeat("./", 1) + once;
    TrimStartMatchesUnique(twice, "./", 1, once);
    assert !StartsWith([x], ".\\") && !StartsWith([x], "./");
    assert once == Repeat(".\\", 1) + Repeat("./", 0) + [x];
    DisplayStrips(1, 0, [x]);
  }
}
