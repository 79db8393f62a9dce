/**
 * String helpers with the meaning of the JavaScript operations the sources
 * use: `startsWith`, `endsWith`, `Array.prototype.join`, line-by-line `+=`
 * accumulation and `path.join`.
 */
module Text {

  predicate StartsWith(s: string, prefix: string) {
    prefix <= s
  }

  predicate EndsWith(s: string, suffix: string) {
    |suffix| <= |s| && s[|s| - |suffix|..] == suffix
  }

  /** Appending to a text keeps its prefixes. */
  lemma {:induction false} StartsWithAppend(s: string, prefix: string, t: string)
    requires StartsWith(s, prefix)
    ensures StartsWith(s + t, prefix)
  {
    assert (s + t)[..|prefix|] == s[..|prefix|];
  }

  /** A text that ends in `a + b`, appended one part at a time. */
  lemma {:induction false} EndsWithPair(s: string, a: string, b: string)
    ensures EndsWith(s + a + b, a + b)
  {
    var r := s + a + b;
    assert r[|r| - |a + b|..] == a + b;
  }

  /** `parts.join(sep)`: the empty list joins to "", a single part to itself. */
  function Join(parts: seq<string>, sep: string): string {
    if parts == [] then ""
    else if |parts| == 1 then parts[0]
    else Join(parts[..|parts| - 1], sep) + sep + parts[|parts| - 1]
  }

  /** Joining two non-empty lists is joining each and putting one separator between. */
  lemma {:induction false} JoinAppend(a: seq<string>, b: seq<string>, sep: string)
    requires a != [] && b != []
    ensures Join(a + b, sep) == Join(a, sep) + sep + Join(b, sep)
    decreases |b|
  {
    var n := |b|;
    if n == 1 {
      assert (a + b)[..|a + b| - 1] == a;
    } else {
      var b' := b[..n - 1];
      assert (a + b)[..|a + b| - 1] == a + b';
      JoinAppend(a, b', sep);
    }
  }

  lemma JoinSnoc(a: seq<string>, x: string, sep: string)
    requires a != []
    ensures Join(a + [x], sep) == Join(a, sep) + sep + x
  {
    assert (a + [x])[..|a|] == a;
  }

  /** Appending an item that is itself a join of `g` is appending the parts of `g`. */
  lemma JoinSnocJoined(a: seq<string>, b: seq<string>, x: string, g: seq<string>, sep: string)
    requires a != [] && b != [] && g != []
    requires Join(a, sep) == Join(b, sep) && x == Join(g, sep)
    ensures Join(a + [x], sep) == Join(b + g, sep)
  {
    JoinSnoc(a, x, sep);
    JoinAppend(b, g, sep);
  }

  /** Each line followed by a newline, as successive `xml += `...\n`` write them. */
  function Terminated(lines: seq<string>): string {
    if lines == [] then "" else Terminated(lines[..|lines| - 1]) + lines[|lines| - 1] + "\n"
  }

  lemma TerminatedSnoc(lines: seq<string>, x: string)
    ensures Terminated(lines + [x]) == Terminated(lines) + x + "\n"
  {
    assert (lines + [x])[..|lines|] == lines;
  }

  /** Newline-terminated lines followed by an unterminated last line are those lines joined by newlines. */
  lemma {:induction false} TerminatedThenLast(lines: seq<string>, last: string)
    ensures Terminated(lines) + last == Join(lines + [last], "\n")
    decreases |lines|
  {
    if lines == [] {
      assert lines + [last] == [last];
    } else {
      var init := lines[..|lines| - 1];
      var x := lines[|lines| - 1];
      TerminatedThenLast(init, x);
      assert init + [x] == lines;
      JoinSnoc(lines, last, "\n");
    }
  }

  /** `path.join(dir, a, b)` for a normalised `dir` and single-segment `a`, `b`. */
  function PathJoin(dir: string, a: string, b: string): string {
    dir + "/" + a + "/" + b
  }
}
