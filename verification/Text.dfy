/** The string operations of Rust's standard library that the problem report is written with. */
module Text {

  /** `p` is found in `s` at position `i`. */
  predicate OccursAt(s: string, p: string, i: int) {
    0 <= i <= |s| - |p| && s[i..i + |p|] == p
  }

  ghost predicate Contains(s: string, p: string) {
    exists i :: OccursAt(s, p, i)
  }

  /**
   `str::replace`: the leftmost occurrences of `from` that do not overlap are replaced. An empty
   pattern is found before every character and at the end.
   */
  function Replace(s: string, from: string, to: string): string {
    if from == "" then to + (if s == "" then "" else [s[0]] + Replace(s[1..], from, to))
    else if s == "" then ""
    else if from <= s then to + Replace(s[|from|..], from, to)
    else [s[0]] + Replace(s[1..], from, to)
  }

  lemma {:induction false} ReplaceNothing(s: string, from: string, to: string)
    requires from != "" && !Contains(s, from)
    ensures Replace(s, from, to) == s
  {
    if s != "" {
      assert from <= s ==> OccursAt(s, from, 0);
      forall i | OccursAt(s[1..], from, i) ensures OccursAt(s, from, i + 1) {}
      ReplaceNothing(s[1..], from, to);
    }
  }

  /** The empty pattern is found everywhere: before, between and after all characters. */
  lemma {:induction false} EmptyIsFoundEverywhere(a: string, c: char, b: string, to: string)
    ensures Replace("", "", to) == to
    ensures Replace(a + [c] + b, "", to) == Replace(a, "", to) + [c] + Replace(b, "", to)
  {
    EmptyIsFoundFirst("", to);
    var s, rest := a + [c] + b, Replace(b, "", to);
    EmptyIsFoundFirst(s, to);
    EmptyIsFoundFirst(a, to);
    if a == "" {
      assert s[1..] == b;
    } else {
      EmptyIsFoundEverywhere(a[1..], c, b, to);
      PrependCharacter(a[0], a[1..], [c], b);
      assert a == [a[0]] + a[1..];
      Regrouped(to, [a[0]], Replace(a[1..], "", to), [c], rest);
    }
  }

  lemma EmptyIsFoundFirst(s: string, to: string)
    ensures Replace(s, "", to) == if s == "" then to else to + [s[0]] + Replace(s[1..], "", to)
  {
    assert to + "" == to;
    assert s != "" ==> to + ([s[0]] + Replace(s[1..], "", to)) == to + [s[0]] + Replace(s[1..], "", to);
  }

  lemma Regrouped(a: string, b: string, c: string, d: string, e: string)
    ensures a + b + (c + d + e) == (a + b + c) + d + e
  {}

  lemma SliceOfTail(s: string, i: nat, j: nat)
    requires i <= j < |s|
    ensures s[1..][i..j] == s[i + 1..j + 1]
  {}

  lemma PrependCharacter(c: char, tail: string, x: string, y: string)
    ensures [c] + (tail + x + y) == [c] + tail + x + y
    ensures ([c] + tail + x + y)[1..] == tail + x + y
  {}

  /** Strips the carriage return that may end a line. */
  function StripReturn(line: string): string {
    if line != "" && line[|line| - 1] == '\r' then line[..|line| - 1] else line
  }

  /** How many characters come before the first line feed. */
  function LineLength(s: string): (n: nat)
    ensures n <= |s| && '\n' !in s[..n] && (n < |s| ==> s[n] == '\n')
  {
    if s == "" || s[0] == '\n' then 0
    else
      var n := LineLength(s[1..]);
      assert s[..n + 1] == [s[0]] + s[1..][..n];
      n + 1
  }

  /** `str::lines`: the pieces ended by a line feed or the end of the string, without line ends. */
  function Lines(s: string): seq<string> {
    if s == "" then []
    else
      var n := LineLength(s);
      [StripReturn(s[..n])] + (if n == |s| then [] else Lines(s[n + 1..]))
  }

  lemma FirstLine(line: string, rest: string)
    requires '\n' !in line
    ensures Lines(line + "\n" + rest) == [StripReturn(line)] + Lines(rest)
    ensures Lines("") == [] && (line != "" ==> Lines(line) == [StripReturn(line)])
  {
    var n0 := LineLength(line);
    assert n0 == |line| && line[..n0] == line;
    var s := line + "\n" + rest;
    var n := LineLength(s);
    assert s[|line|] == '\n' && s[..|line|] == line;
    assert s[..n] == line && s[n + 1..] == rest;
  }

  lemma {:induction false} LinesHaveNoLineFeed(s: string)
    ensures forall line <- Lines(s) :: '\n' !in line
  {
    if s != "" {
      var n := LineLength(s);
      if n < |s| {
        LinesHaveNoLineFeed(s[n + 1..]);
      }
    }
  }
}
