/**
 The redaction of log texts in a problem report: four passes, each rewriting what the one before it
 left. Which characters count as digits is a parameter, since the pattern of the first pass uses
 Unicode's decimal digits; which spans of a text look like network addresses is another.
 */
module Redaction {
  import opened Text
  import opened Wrappers

  const ACCOUNT_LENGTH := 16
  const REDACTED_ACCOUNT := "[REDACTED ACCOUNT NUMBER]"
  const HOME := "~"
  const REDACTED := "[REDACTED]"

  /** No character of the texts put in is a digit. */
  ghost predicate IsDigitClass(digits: set<char>) {
    forall c <- REDACTED_ACCOUNT + HOME + REDACTED :: c !in digits
  }

  // ----- Runs of digits -----

  predicate AllDigits(digits: set<char>, s: string) {
    forall c <- s :: c in digits
  }

  /** The 16 characters from position `i` on are digits. */
  predicate IsWindow(digits: set<char>, s: string, i: int) {
    0 <= i <= |s| - 16 && AllDigits(digits, s[i..i + 16])
  }

  /** No 16 consecutive characters are digits. */
  ghost predicate HasNoAccountNumber(digits: set<char>, s: string) {
    forall i :: !IsWindow(digits, s, i)
  }

  /** The same, read character by character, with `before` digits right before the text. */
  predicate NoRun(digits: set<char>, before: nat, s: string)
    decreases s
  {
    if s == "" then true
    else if s[0] in digits then before + 1 < ACCOUNT_LENGTH && NoRun(digits, before + 1, s[1..])
    else NoRun(digits, 0, s[1..])
  }

  /** How many digits a text begins with. */
  function LeadingDigits(digits: set<char>, s: string): (n: nat)
    ensures n <= |s| && AllDigits(digits, s[..n]) && (n < |s| ==> s[n] !in digits)
  {
    if s == "" || s[0] !in digits then 0
    else
      var n := LeadingDigits(digits, s[1..]);
      assert s[..n + 1] == [s[0]] + s[1..][..n];
      n + 1
  }

  lemma {:induction false} NoRunFewer(digits: set<char>, before: nat, fewer: nat, s: string)
    requires NoRun(digits, before, s) && fewer <= before
    ensures NoRun(digits, fewer, s)
    decreases s
  {
    if s != "" && s[0] in digits {
      NoRunFewer(digits, before + 1, fewer + 1, s[1..]);
    }
  }

  lemma {:induction false} NoRunSuffix(digits: set<char>, before: nat, s: string, k: nat)
    requires NoRun(digits, before, s) && k <= |s|
    ensures NoRun(digits, 0, s[k..])
    decreases k
  {
    if k == 0 {
      NoRunFewer(digits, before, 0, s);
      assert s[0..] == s;
    } else {
      assert s[1..][k - 1..] == s[k..];
      NoRunSuffix(digits, if s[0] in digits then before + 1 else 0, s[1..], k - 1);
    }
  }

  /** A text without digits separates what comes before it from what comes after it. */
  lemma {:induction false} NoRunAfterText(digits: set<char>, before: nat, text: string, s: string)
    requires text != "" && (forall c <- text :: c !in digits) && NoRun(digits, 0, s)
    ensures NoRun(digits, before, text + s)
    decreases text
  {
    var whole := text + s;
    assert whole[1..] == text[1..] + s;
    if |text| == 1 {
      assert whole[1..] == s;
    } else {
      NoRunAfterText(digits, 0, text[1..], s);
    }
  }

  lemma WindowIff(digits: set<char>, s: string)
    ensures IsWindow(digits, s, 0) <==> LeadingDigits(digits, s) >= ACCOUNT_LENGTH
  {
    var n := LeadingDigits(digits, s);
    if n >= ACCOUNT_LENGTH {
      assert s[0..ACCOUNT_LENGTH] == s[..n][..ACCOUNT_LENGTH];
    } else if |s| >= ACCOUNT_LENGTH {
      assert s[0..ACCOUNT_LENGTH][n] !in digits;
    }
  }

  lemma ShiftedWindow(digits: set<char>, s: string, i: int)
    requires s != "" && i >= 0
    ensures IsWindow(digits, s[1..], i) <==> IsWindow(digits, s, i + 1)
  {
    if i <= |s| - 1 - ACCOUNT_LENGTH {
      assert s[1..][i..i + ACCOUNT_LENGTH] == s[i + 1..i + 1 + ACCOUNT_LENGTH];
    }
  }

  /** The windows of a text are those of its tail and the one it begins with. */
  lemma TailWindows(digits: set<char>, s: string)
    requires s != ""
    ensures HasNoAccountNumber(digits, s) <==> HasNoAccountNumber(digits, s[1..]) && !IsWindow(digits, s, 0)
  {
    if HasNoAccountNumber(digits, s) {
      forall i ensures !IsWindow(digits, s[1..], i) {
        if i >= 0 {
          ShiftedWindow(digits, s, i);
        }
      }
    }
    if HasNoAccountNumber(digits, s[1..]) && !IsWindow(digits, s, 0) {
      forall i ensures !IsWindow(digits, s, i) {
        if i > 0 {
          ShiftedWindow(digits, s, i - 1);
        }
      }
    }
  }

  /** The scan is right about windows, and about a run that goes on from before the text. */
  lemma {:induction false} NoRunIff(digits: set<char>, before: nat, s: string)
    ensures NoRun(digits, before, s) <==>
            && HasNoAccountNumber(digits, s)
            && (LeadingDigits(digits, s) > 0 ==> before + LeadingDigits(digits, s) < ACCOUNT_LENGTH)
    decreases s
  {
    if s != "" {
      NoRunIff(digits, if s[0] in digits then before + 1 else 0, s[1..]);
      TailWindows(digits, s);
      WindowIff(digits, s);
      WindowIff(digits, s[1..]);
      assert !IsWindow(digits, s[1..], 0) || !HasNoAccountNumber(digits, s[1..]);
    }
  }

  // ----- The first pass: account numbers -----

  function RedactAccountNumber(digits: set<char>, s: string): string {
    if s == "" then ""
    else if IsWindow(digits, s, 0)
    then REDACTED_ACCOUNT + RedactAccountNumber(digits, s[ACCOUNT_LENGTH..])
    else [s[0]] + RedactAccountNumber(digits, s[1..])
  }

  /** With `before` digits copied right before it, a text is redacted without completing a run. */
  lemma {:induction false} FirstPassLeavesNoRun(digits: set<char>, before: nat, s: string)
    requires IsDigitClass(digits)
    requires before > 0 ==> before + LeadingDigits(digits, s) < ACCOUNT_LENGTH
    ensures NoRun(digits, before, RedactAccountNumber(digits, s))
    decreases s
  {
    WindowIff(digits, s);
    if s == "" {
    } else if IsWindow(digits, s, 0) {
      FirstPassLeavesNoRun(digits, 0, s[ACCOUNT_LENGTH..]);
      NoRunAfterText(digits, before, REDACTED_ACCOUNT, RedactAccountNumber(digits, s[ACCOUNT_LENGTH..]));
    } else {
      var rest := RedactAccountNumber(digits, s[1..]);
      FirstPassLeavesNoRun(digits, if s[0] in digits then before + 1 else 0, s[1..]);
      assert ([s[0]] + rest)[1..] == rest;
    }
  }

  /** The first pass changes a text exactly if there is something to redact. */
  lemma {:induction false} FirstPassChangesIff(digits: set<char>, s: string)
    requires IsDigitClass(digits)
    ensures RedactAccountNumber(digits, s) == s <==> HasNoAccountNumber(digits, s)
  {
    if s == "" {
    } else {
      WindowIff(digits, s);
      TailWindows(digits, s);
      if IsWindow(digits, s, 0) {
        assert RedactAccountNumber(digits, s)[0] == REDACTED_ACCOUNT[0];
        assert s[0..ACCOUNT_LENGTH][0] == s[0];
      } else {
        FirstPassChangesIff(digits, s[1..]);
        assert s == [s[0]] + s[1..];
        assert ([s[0]] + RedactAccountNumber(digits, s[1..]))[1..] == RedactAccountNumber(digits, s[1..]);
      }
    }
  }

  /** Only the digits of an account number are replaced: what stands before them stays, what follows is redacted on. */
  lemma {:induction false} FirstPassSparesTheRest(digits: set<char>, before: string, number: string, after: string)
    requires HasNoAccountNumber(digits, before) && (before != "" ==> before[|before| - 1] !in digits)
    requires |number| == ACCOUNT_LENGTH && AllDigits(digits, number)
    ensures RedactAccountNumber(digits, before + number + after) ==
            before + "[REDACTED ACCOUNT NUMBER]" + RedactAccountNumber(digits, after)
    decreases before
  {
    var s := before + number + after;
    if before == "" {
      assert s == number + after;
      assert s[0..ACCOUNT_LENGTH] == number && s[ACCOUNT_LENGTH..] == after;
      assert before + REDACTED_ACCOUNT == REDACTED_ACCOUNT;
    } else {
      var c, tail := before[0], before[1..];
      assert before == [c] + tail;
      NotWithin(digits, before, number + after);
      assert before + (number + after) == s;
      PrependCharacter(c, tail, number, after);
      TailWindows(digits, before);
      FirstPassSparesTheRest(digits, tail, number, after);
      PrependCharacter(c, tail, REDACTED_ACCOUNT, RedactAccountNumber(digits, after));
    }
  }

  /** A text that ends in something else than a digit keeps its first window to itself. */
  lemma NotWithin(digits: set<char>, before: string, after: string)
    requires before != "" && before[|before| - 1] !in digits && !IsWindow(digits, before, 0)
    ensures !IsWindow(digits, before + after, 0)
  {
    var s := before + after;
    if |s| >= ACCOUNT_LENGTH {
      var window := s[0..ACCOUNT_LENGTH];
      if |before| >= ACCOUNT_LENGTH {
        assert window == before[0..ACCOUNT_LENGTH];
      } else {
        assert window[|before| - 1] == before[|before| - 1];
      }
    }
  }

  // ----- Replacing strings: the home directory and the custom strings -----

  lemma {:induction false} ReplaceKeepsRunsApart(
    digits: set<char>, before: nat, more: nat, s: string, from: string, to: string)
    requires to != "" && (forall c <- to :: c !in digits)
    requires NoRun(digits, more, s) && before <= more
    ensures NoRun(digits, before, Replace(s, from, to))
    decreases s
  {
    if from == "" {
      InsertedKeepsRunsApart(digits, before, more, s, to);
    } else if s == "" {
    } else if from <= s {
      NoRunSuffix(digits, more, s, |from|);
      ReplaceKeepsRunsApart(digits, 0, 0, s[|from|..], from, to);
      NoRunAfterText(digits, before, to, Replace(s[|from|..], from, to));
    } else {
      var rest := Replace(s[1..], from, to);
      var digit := s[0] in digits;
      ReplaceKeepsRunsApart(digits, if digit then before + 1 else 0, if digit then more + 1 else 0, s[1..], from, to);
      assert ([s[0]] + rest)[1..] == rest;
    }
  }

  /** The empty pattern. */
  lemma {:induction false} InsertedKeepsRunsApart(digits: set<char>, before: nat, more: nat, s: string, to: string)
    requires to != "" && (forall c <- to :: c !in digits)
    requires NoRun(digits, more, s) && before <= more
    ensures NoRun(digits, before, Replace(s, "", to))
    decreases s
  {
    if s == "" {
      NoRunAfterText(digits, before, to, "");
    } else {
      var rest := Replace(s[1..], "", to);
      NoRunSuffix(digits, more, s, 1);
      InsertedKeepsRunsApart(digits, 0, 0, s[1..], to);
      var digit := s[0] in digits;
      InsertedKeepsRunsApart(digits, if digit then 1 else 0, if digit then more + 1 else 0, s[1..], to);
      assert ([s[0]] + rest)[1..] == rest;
      NoRunAfterText(digits, before, to, [s[0]] + rest);
    }
  }

  function RedactHomeDir(home: Option<string>, s: string): string {
    match home
    case Some(dir) => Replace(s, dir, HOME)
    case None => s
  }

  function ReplaceAll(s: string, patterns: seq<string>): string {
    if patterns == [] then s else Replace(ReplaceAll(s, patterns[..|patterns| - 1]), patterns[|patterns| - 1], REDACTED)
  }

  lemma {:induction false} ReplaceAllKeepsRunsApart(digits: set<char>, s: string, patterns: seq<string>)
    requires IsDigitClass(digits) && NoRun(digits, 0, s)
    ensures NoRun(digits, 0, ReplaceAll(s, patterns))
  {
    if patterns != [] {
      var init := patterns[..|patterns| - 1];
      ReplaceAllKeepsRunsApart(digits, s, init);
      ReplaceKeepsRunsApart(digits, 0, 0, ReplaceAll(s, init), patterns[|patterns| - 1], REDACTED);
    }
  }

  // ----- When a custom string is gone from the output -----

  /** With `p` laid `i` characters after the start of `r`, the two agree wherever both have a character. */
  predicate AgreesAlong(p: string, r: string, i: int) {
    forall j | 0 <= j < |p| && 0 <= i + j < |r| :: p[j] == r[i + j]
  }

  /** An occurrence of `p` can take in characters of an `r`: it lies in it, holds it, or straddles an end. */
  predicate Overlaps(p: string, r: string) {
    exists i | -|p| < i < |r| :: AgreesAlong(p, r, i)
  }

  /** What a replacement begins with: what is copied up to the first match, and what is put in there. */
  lemma {:induction false} FirstMatch(s: string, q: string, r: string) returns (k: nat, rest: string)
    requires q != ""
    ensures k <= |s| && (Replace(s, q, r) == s[..k] + r + rest || (k == |s| && Replace(s, q, r) == s))
    ensures k > 0 ==> !(q <= s)
  {
    k, rest := 0, "";
    if s == "" {
    } else if q <= s {
      rest := Replace(s[|q|..], q, r);
      assert s[..0] + r + rest == r + rest;
    } else {
      var k', rest' := FirstMatch(s[1..], q, r);
      k, rest := k' + 1, rest';
      assert s[..k] == [s[0]] + s[1..][..k'];
      PrependCharacter(s[0], s[1..][..k'], r, rest);
      assert [s[0]] + s[1..] == s;
    }
  }

  /** An occurrence of `p` that begins at the start of what a replacement makes of a text. */
  lemma OccurrenceAtStart(s: string, p: string, q: string, r: string)
    requires p != "" && q != "" && (q == p || !Contains(s, p)) && OccursAt(Replace(s, q, r), p, 0) && r != ""
    ensures Overlaps(p, r)
  {
    var out := Replace(s, q, r);
    assert p == out[..|p|];
    assert p <= s ==> OccursAt(s, p, 0);
    var k, rest := FirstMatch(s, q, r);
    if out == s[..k] + r + rest && k < |p| {
      StraddlesText(s[..k], p, r, rest);
    } else {
      assert false;
    }
  }

  lemma StraddlesText(copied: string, p: string, r: string, rest: string)
    requires |copied| < |p| && p <= copied + r + rest && r != ""
    ensures Overlaps(p, r)
  {
    var out, k := copied + r + rest, |copied|;
    forall j | 0 <= j < |p| && 0 <= j - k < |r| ensures p[j] == r[j - k] {
      assert out[j] == r[j - k];
    }
    assert AgreesAlong(p, r, -k);
  }

  /** An occurrence in `a + t` lies in `t`, or begins in `a`. */
  lemma OccursAfter(a: string, t: string, p: string, i: int)
    requires OccursAt(a + t, p, i)
    ensures i >= |a| ==> OccursAt(t, p, i - |a|)
    ensures i < |a| ==> AgreesAlong(p, a, i)
  {
    var out := a + t;
    if i >= |a| {
      assert t[i - |a|..i - |a| + |p|] == out[i..i + |p|];
    } else {
      assert forall j | 0 <= j < |p| && 0 <= i + j < |a| :: p[j] == out[i..i + |p|][j] == a[i + j];
    }
  }

  lemma NotInSuffix(s: string, p: string, k: nat)
    requires !Contains(s, p) && k <= |s|
    ensures !Contains(s[k..], p)
  {
    forall i ensures !OccursAt(s[k..], p, i) {
      assert !OccursAt(s, p, i + k);
    }
  }

  /** Neither its own replacement nor that of another string leaves a `p` that does not overlap with `r`. */
  lemma {:induction false} ReplacementLeavesNone(s: string, p: string, q: string, r: string, i: int)
    requires p != "" && q != "" && (q == p || !Contains(s, p)) && r != "" && OccursAt(Replace(s, q, r), p, i)
    ensures Overlaps(p, r)
    decreases s
  {
    if i == 0 {
      OccurrenceAtStart(s, p, q, r);
    } else if q <= s {
      OccursAfter(r, Replace(s[|q|..], q, r), p, i);
      if i >= |r| {
        if q != p {
          NotInSuffix(s, p, |q|);
        }
        ReplacementLeavesNone(s[|q|..], p, q, r, i - |r|);
      }
    } else {
      OccursAfter([s[0]], Replace(s[1..], q, r), p, i);
      if q != p {
        NotInSuffix(s, p, 1);
      }
      ReplacementLeavesNone(s[1..], p, q, r, i - 1);
    }
  }

  /** Once replaced, or if it never was there, a string that does not overlap with the text put in stays away. */
  lemma {:induction false} CustomStringIsGone(s: string, patterns: seq<string>, p: string)
    requires p != "" && "" !in patterns && !Overlaps(p, REDACTED) && (p in patterns || !Contains(s, p))
    ensures !Contains(ReplaceAll(s, patterns), p)
  {
    if patterns != [] {
      var init, last := patterns[..|patterns| - 1], patterns[|patterns| - 1];
      assert patterns == init + [last];
      var before := ReplaceAll(s, init);
      if p != last {
        CustomStringIsGone(s, init, p);
      }
      forall i ensures !OccursAt(Replace(before, last, REDACTED), p, i) {
        if OccursAt(Replace(before, last, REDACTED), p, i) {
          ReplacementLeavesNone(before, p, last, REDACTED, i);
        }
      }
    }
  }

  lemma LacksCharacter(w: string, q: char)
    requires q !in w
    ensures !Contains(w, [q])
  {
    forall i ensures !OccursAt(w, [q], i) {
      if 0 <= i < |w| {
        assert w[i..i + 1] == [w[i]];
      }
    }
  }

  /** A single occurrence of one character is replaced. */
  lemma ReplaceCharacter(u: string, q: char, w: string, r: string)
    requires q !in u && q !in w
    ensures Replace(u + [q] + w, [q], r) == u + r + w
  {
    var s := u + [q] + w;
    forall i | 0 <= i < |u| ensures !OccursAt(s, [q], i) {
      assert s[i] == u[i] && s[i..i + 1] == [s[i]];
    }
    FirstIsReplaced(u, [q], w, r);
    LacksCharacter(w, q);
    ReplaceNothing(w, [q], r);
  }

  /** An occurrence of `p` would have to be longer than the part before or after a character it lacks. */
  lemma SplitByCharacter(u: string, q: char, w: string, p: string)
    requires q !in p && |u| < |p| && |w| < |p|
    ensures !Contains(u + [q] + w, p)
  {
    var s := u + [q] + w;
    assert s[|u|] == q;
  }

  /** What must stand before and after an `r` for the overlapping `p` to be complete. */
  function Before(p: string, i: int): string
    requires -|p| < i
  {
    if i < 0 then p[..-i] else ""
  }

  function After(p: string, r: string, i: int): string
    requires i < |r|
  {
    if i + |p| > |r| && |r| - i <= |p| then p[|r| - i..] else ""
  }

  lemma Completed(p: string, r: string, i: int)
    requires -|p| < i < |r| && AgreesAlong(p, r, i)
    ensures Contains(Before(p, i) + r + After(p, r, i), p)
  {
    var before, after := Before(p, i), After(p, r, i);
    var out, at := before + r + after, if i < 0 then 0 else i;
    forall j | 0 <= j < |p| ensures out[at + j] == p[j] {
      if i + j < 0 {
        assert out[at + j] == before[j];
      } else if i + j < |r| {
        assert out[at + j] == r[i + j];
      } else {
        assert out[at + j] == after[i + j - |r|];
      }
    }
    assert out[at..at + |p|] == p;
    assert OccursAt(out, p, at);
  }

  /** A string that overlaps with the text put in can be left behind: by the redaction of another one. */
  lemma OverlapIsLeft(p: string, q: char, i: int)
    requires -|p| < i < |REDACTED| && AgreesAlong(p, REDACTED, i) && p != "" && q !in p
    ensures Contains(ReplaceAll(Before(p, i) + [q] + After(p, REDACTED, i), [p, [q]]), p)
  {
    var u, w := Before(p, i), After(p, REDACTED, i);
    SplitByCharacter(u, q, w, p);
    ReplaceNothing(u + [q] + w, p, REDACTED);
    ReplaceCharacter(u, q, w, REDACTED);
    TwoPatterns(u + [q] + w, p, [q]);
    Completed(p, REDACTED, i);
  }

  lemma TwoPatterns(s: string, p: string, q: string)
    ensures ReplaceAll(s, [p, q]) == Replace(Replace(s, p, REDACTED), q, REDACTED)
  {
    assert [p, q][..1] == [p] && [p][..0] == [];
    assert ReplaceAll(s, [p]) == Replace(s, p, REDACTED);
  }

  ghost predicate IsGone(s: string, patterns: seq<string>, p: string) {
    p in patterns && "" !in patterns ==> !Contains(ReplaceAll(s, patterns), p)
  }

  /** Exactly which custom strings are sure to be gone, whatever the text and the other strings. */
  lemma CustomStringIsGoneIff(p: string, q: char)
    requires p != "" && q !in p
    ensures (forall s: string, patterns: seq<string> :: IsGone(s, patterns, p)) <==> !Overlaps(p, REDACTED)
  {
    if Overlaps(p, REDACTED) {
      var i :| -|p| < i < |REDACTED| && AgreesAlong(p, REDACTED, i);
      OverlapIsLeft(p, q, i);
      assert !IsGone(Before(p, i) + [q] + After(p, REDACTED, i), [p, [q]], p);
    } else {
      forall s: string, patterns: seq<string> ensures IsGone(s, patterns, p) {
        if p in patterns && "" !in patterns {
          CustomStringIsGone(s, patterns, p);
        }
      }
    }
  }

  // ----- The second pass: the home directory -----

  /** The leftmost occurrence is replaced, what comes before it is kept, and the rest is treated alike. */
  lemma {:induction false} FirstIsReplaced(before: string, p: string, after: string, r: string)
    requires p != "" && forall i | 0 <= i < |before| :: !OccursAt(before + p + after, p, i)
    ensures Replace(before + p + after, p, r) == before + r + Replace(after, p, r)
  {
    if before == "" {
      MatchIsReplaced(p, after, r);
    } else {
      var tail := before[1..];
      PrependCharacter(before[0], tail, p, after);
      assert before == [before[0]] + tail;
      LaterStart(before + p + after, p, |tail|);
      FirstIsReplaced(tail, p, after, r);
      CharacterIsCopied(before[0], tail + p + after, p, r);
      PrependCharacter(before[0], tail, r, Replace(after, p, r));
    }
  }

  lemma MatchIsReplaced(p: string, after: string, r: string)
    requires p != ""
    ensures Replace("" + p + after, p, r) == "" + r + Replace(after, p, r)
  {
    var s := "" + p + after;
    assert p <= s && s[|p|..] == after;
  }

  lemma CharacterIsCopied(c: char, s: string, p: string, r: string)
    requires p != "" && !OccursAt([c] + s, p, 0)
    ensures Replace([c] + s, p, r) == [c] + Replace(s, p, r)
  {
    assert ([c] + s)[1..] == s;
    assert |p| <= |s| + 1 ==> ([c] + s)[0..|p|] == ([c] + s)[..|p|];
  }

  lemma LaterStart(s: string, p: string, n: nat)
    requires s != "" && forall i | 0 <= i < n + 1 :: !OccursAt(s, p, i)
    ensures forall i | 0 <= i < n :: !OccursAt(s[1..], p, i)
  {
    forall i | 0 <= i < n ensures !OccursAt(s[1..], p, i) {
      assert !OccursAt(s, p, i + 1);
    }
  }

  /** A text with one occurrence of the home directory: that becomes a tilde, and the rest is kept. */
  lemma HomeDirBecomesTilde(dir: string, before: string, after: string)
    requires dir != "" && !Contains(after, dir)
    requires forall i | 0 <= i < |before| :: !OccursAt(before + dir + after, dir, i)
    ensures RedactHomeDir(Some(dir), before + dir + after) == before + "~" + after
  {
    FirstIsReplaced(before, dir, after, HOME);
    ReplaceNothing(after, dir, HOME);
  }

  lemma OverlapsTilde(dir: string)
    ensures Overlaps(dir, "~") <==> '~' in dir
  {
    if Overlaps(dir, "~") {
      var i :| -|dir| < i < 1 && AgreesAlong(dir, "~", i);
      assert dir[-i] == "~"[i - i];
    }
    if k :| 0 <= k < |dir| && dir[k] == '~' {
      assert AgreesAlong(dir, "~", -k);
    }
  }

  lemma FirstTilde(dir: string) returns (k: nat)
    requires '~' in dir
    ensures k < |dir| && dir[k] == '~' && '~' !in dir[..k]
  {
    k := 0;
    while dir[k] != '~'
      invariant k < |dir| && '~' !in dir[..k] && '~' in dir[k..]
      decreases |dir| - k
    {
      assert dir[..k + 1] == dir[..k] + [dir[k]];
      assert dir[k..] == [dir[k]] + dir[k + 1..];
      k := k + 1;
    }
  }

  /** A tilde in the place of the home directory can complete another occurrence of it. */
  lemma TildeRestores(dir: string) returns (s: string)
    requires '~' in dir
    ensures RedactHomeDir(Some(dir), s) == dir
  {
    var k := FirstTilde(dir);
    var before, after := dir[..k], dir[k + 1..];
    s := before + dir + after;
    forall i | 0 <= i < |before| ensures !OccursAt(s, dir, i) {
      assert s[i + k] == dir[i] == dir[..k][i];
      assert i + |dir| <= |s| ==> s[i..i + |dir|][k] == s[i + k];
    }
    HomeDirBecomesTilde(dir, before, after);
    assert dir == before + "~" + after;
  }

  /** Exactly which home directories are sure to be gone after the second pass, whatever the text. */
  lemma HomeDirIsGoneIff(dir: string)
    ensures (forall s: string :: !Contains(RedactHomeDir(Some(dir), s), dir)) <==> dir != "" && '~' !in dir
  {
    if dir == "" {
      assert OccursAt(RedactHomeDir(Some(dir), ""), dir, 0);
    } else if '~' in dir {
      var s := TildeRestores(dir);
      assert OccursAt(RedactHomeDir(Some(dir), s), dir, 0);
    } else {
      forall s: string ensures !Contains(RedactHomeDir(Some(dir), s), dir) {
        HomeDirIsGone(dir, s);
      }
    }
  }

  lemma HomeDirIsGone(dir: string, s: string)
    requires dir != "" && '~' !in dir
    ensures !Contains(RedactHomeDir(Some(dir), s), dir)
  {
    OverlapsTilde(dir);
    forall i ensures !OccursAt(Replace(s, dir, HOME), dir, i) {
      if OccursAt(Replace(s, dir, HOME), dir, i) {
        ReplacementLeavesNone(s, dir, dir, HOME, i);
      }
    }
  }

  // ----- The third pass: network addresses -----

  /** A text cut into the characters that stay and the spans that look like an address. */
  datatype Piece = Copied(c: char) | Address(text: string, hasBoundary: bool)

  /** The characters that may come right before an address. */
  predicate IsBoundary(c: char) {
    !('0' <= c <= '9' || 'a' <= c <= 'z' || 'A' <= c <= 'Z' || c == '.' || c == ':')
  }

  /** A match includes the boundary character before the address, if the address does not start the text. */
  predicate IsMatch(p: Piece) {
    p.Address? ==> p.text != "" && (p.hasBoundary ==> IsBoundary(p.text[0]))
  }

  function Uncut(pieces: seq<Piece>): string {
    if pieces == [] then ""
    else (match pieces[0] case Copied(c) => [c] case Address(text, _) => text) + Uncut(pieces[1..])
  }

  /** The boundary character is kept. */
  function RedactPieces(pieces: seq<Piece>): string {
    if pieces == [] then ""
    else
      (match pieces[0]
       case Copied(c) => [c]
       case Address(text, hasBoundary) => (if hasBoundary && text != "" then [text[0]] else "") + REDACTED)
      + RedactPieces(pieces[1..])
  }

  /** Which matches the pattern for addresses finds in each text. */
  type Matcher = string -> seq<Piece>

  ghost predicate IsMatcher(matcher: Matcher) {
    forall s: string :: Uncut(matcher(s)) == s && forall p <- matcher(s) :: IsMatch(p)
  }

  lemma {:induction false} PiecesKeepRunsApart(digits: set<char>, before: nat, more: nat, pieces: seq<Piece>)
    requires IsDigitClass(digits) && (forall p <- pieces :: IsMatch(p))
    requires NoRun(digits, more, Uncut(pieces)) && before <= more
    ensures NoRun(digits, before, RedactPieces(pieces))
    decreases |pieces|
  {
    if pieces != [] {
      var tail, rest := Uncut(pieces[1..]), RedactPieces(pieces[1..]);
      match pieces[0] {
        case Copied(c) =>
          assert ([c] + tail)[1..] == tail && ([c] + rest)[1..] == rest;
          var digit := c in digits;
          PiecesKeepRunsApart(digits, if digit then before + 1 else 0, if digit then more + 1 else 0, pieces[1..]);
        case Address(text, hasBoundary) =>
          assert IsMatch(pieces[0]);
          assert (text + tail)[|text|..] == tail;
          NoRunSuffix(digits, more, text + tail, |text|);
          PiecesKeepRunsApart(digits, 0, 0, pieces[1..]);
          BoundaryKept(digits, before, more, text, tail, hasBoundary, rest);
      }
    }
  }

  lemma BoundaryKept(
    digits: set<char>, before: nat, more: nat, text: string, tail: string, hasBoundary: bool, rest: string)
    requires IsDigitClass(digits) && text != "" && NoRun(digits, more, text + tail)
    requires before <= more && NoRun(digits, 0, rest)
    ensures NoRun(digits, before, (if hasBoundary then [text[0]] else "") + REDACTED + rest)
  {
    if hasBoundary {
      var whole := [text[0]] + REDACTED + rest;
      assert whole[1..] == REDACTED + rest;
      NoRunAfterText(digits, if text[0] in digits then before + 1 else 0, REDACTED, rest);
    } else {
      assert "" + REDACTED + rest == REDACTED + rest;
      NoRunAfterText(digits, before, REDACTED, rest);
    }
  }

  lemma {:induction false} RedactPiecesConcat(a: seq<Piece>, b: seq<Piece>)
    ensures RedactPieces(a + b) == RedactPieces(a) + RedactPieces(b)
    decreases |a|
  {
    if a == [] {
      assert a + b == b;
    } else {
      assert (a + b)[1..] == a[1..] + b;
      RedactPiecesConcat(a[1..], b);
    }
  }

  lemma {:induction false} CopiedPieces(pieces: seq<Piece>)
    requires forall p <- pieces :: p.Copied?
    ensures RedactPieces(pieces) == Uncut(pieces)
  {
    if pieces != [] {
      CopiedPieces(pieces[1..]);
    }
  }

  /** Every match of the pattern is replaced, but for its boundary, and what comes before and after is kept. */
  lemma AddressIsRedacted(before: seq<Piece>, text: string, hasBoundary: bool, after: seq<Piece>)
    requires IsMatch(Address(text, hasBoundary)) && forall p <- before :: p.Copied?
    ensures RedactPieces(before + ([Address(text, hasBoundary)] + after)) ==
            Uncut(before) + ((if hasBoundary then text[..1] else "") + "[REDACTED]" + RedactPieces(after))
  {
    var address := [Address(text, hasBoundary)];
    RedactPiecesConcat(before, address + after);
    CopiedPieces(before);
    assert (address + after)[1..] == after;
    assert text[..1] == [text[0]];
  }

  /** What the pieces become begins with what is copied up to the first match, and what is put in there. */
  lemma {:induction false} FirstAddress(pieces: seq<Piece>) returns (k: nat, rest: string)
    requires forall p <- pieces :: IsMatch(p)
    ensures var s, out := Uncut(pieces), RedactPieces(pieces);
            k <= |s| && (out == s[..k] + REDACTED + rest || (k == |s| && out == s))
    decreases |pieces|
  {
    k, rest := 0, "";
    if pieces != [] {
      var s, tail := Uncut(pieces), Uncut(pieces[1..]);
      match pieces[0] {
        case Copied(c) =>
          var k', rest' := FirstAddress(pieces[1..]);
          k, rest := k' + 1, rest';
          assert s[..k] == [c] + tail[..k'];
          PrependCharacter(c, tail[..k'], REDACTED, rest);
        case Address(text, hasBoundary) =>
          assert IsMatch(pieces[0]);
          k, rest := if hasBoundary then 1 else 0, RedactPieces(pieces[1..]);
          assert s[..k] == if hasBoundary then [text[0]] else "";
      }
    }
  }

  /** A string that is not in the text, and does not overlap with the text put in, is not there afterwards. */
  lemma {:induction false} PiecesLeaveNone(pieces: seq<Piece>, p: string, i: int)
    requires (forall piece <- pieces :: IsMatch(piece)) && p != "" && !Contains(Uncut(pieces), p)
    requires OccursAt(RedactPieces(pieces), p, i)
    ensures Overlaps(p, REDACTED)
    decreases |pieces|
  {
    if i == 0 {
      AddressAtStart(pieces, p);
    } else {
      var rest := RedactPieces(pieces[1..]);
      match pieces[0] {
        case Copied(c) =>
          OccursAfter([c], rest, p, i);
          NotInSuffix(Uncut(pieces), p, 1);
          assert Uncut(pieces)[1..] == Uncut(pieces[1..]);
          PiecesLeaveNone(pieces[1..], p, i - 1);
        case Address(text, hasBoundary) =>
          assert IsMatch(pieces[0]);
          NotInSuffix(Uncut(pieces), p, |text|);
          assert Uncut(pieces)[|text|..] == Uncut(pieces[1..]);
          var kept := if hasBoundary then [text[0]] else "";
          OccursAfterAddress(kept, rest, p, i);
          if !Overlaps(p, REDACTED) {
            PiecesLeaveNone(pieces[1..], p, i - |kept| - |REDACTED|);
          }
      }
    }
  }

  lemma OccursAfterAddress(kept: string, rest: string, p: string, i: int)
    requires OccursAt(kept + REDACTED + rest, p, i) && p != "" && i >= |kept|
    ensures Overlaps(p, REDACTED) || OccursAt(rest, p, i - |kept| - |REDACTED|)
  {
    assert kept + REDACTED + rest == kept + (REDACTED + rest);
    OccursAfter(kept, REDACTED + rest, p, i);
    OccursAfter(REDACTED, rest, p, i - |kept|);
  }

  lemma AddressAtStart(pieces: seq<Piece>, p: string)
    requires (forall piece <- pieces :: IsMatch(piece)) && p != "" && !Contains(Uncut(pieces), p)
    requires OccursAt(RedactPieces(pieces), p, 0)
    ensures Overlaps(p, REDACTED)
  {
    var s, out := Uncut(pieces), RedactPieces(pieces);
    assert p == out[..|p|];
    assert p <= s ==> OccursAt(s, p, 0);
    var k, rest := FirstAddress(pieces);
    if out == s[..k] + REDACTED + rest && k < |p| {
      StraddlesText(s[..k], p, REDACTED, rest);
    } else {
      assert false;
    }
  }

  function RedactNetworkInfo(matcher: Matcher, s: string): string {
    RedactPieces(matcher(s))
  }

  // ----- All passes -----

  function Redact(digits: set<char>, home: Option<string>, matcher: Matcher, patterns: seq<string>, s: string): string {
    ReplaceAll(RedactNetworkInfo(matcher, RedactHomeDir(home, RedactAccountNumber(digits, s))), patterns)
  }

  /** No text comes out of the passes with anything that looks like an account number in it. */
  lemma NoAccountNumberIsLeft(
    digits: set<char>, home: Option<string>, matcher: Matcher, patterns: seq<string>, s: string)
    requires IsDigitClass(digits) && IsMatcher(matcher)
    ensures HasNoAccountNumber(digits, Redact(digits, home, matcher, patterns, s))
  {
    var out1 := RedactAccountNumber(digits, s);
    FirstPassLeavesNoRun(digits, 0, s);
    var out2 := RedactHomeDir(home, out1);
    if home.Some? {
      ReplaceKeepsRunsApart(digits, 0, 0, out1, home.value, HOME);
    }
    var out3 := RedactNetworkInfo(matcher, out2);
    PiecesKeepRunsApart(digits, 0, 0, matcher(out2));
    ReplaceAllKeepsRunsApart(digits, out3, patterns);
    NoRunIff(digits, 0, ReplaceAll(out3, patterns));
  }

  // ----- What becomes of the home directory -----

  /** The later passes do not bring a home directory back that does not overlap with what they put in. */
  lemma HomeStaysAway(dir: string, matcher: Matcher, patterns: seq<string>, s: string)
    requires IsMatcher(matcher) && "" !in patterns && dir != "" && !Overlaps(dir, REDACTED) && !Contains(s, dir)
    ensures !Contains(ReplaceAll(RedactNetworkInfo(matcher, s), patterns), dir)
  {
    var out := RedactNetworkInfo(matcher, s);
    forall i ensures !OccursAt(out, dir, i) {
      if OccursAt(out, dir, i) {
        PiecesLeaveNone(matcher(s), dir, i);
      }
    }
    CustomStringIsGone(out, patterns, dir);
  }

  /** What a home directory must be like to be gone in the end. */
  ghost predicate CanBeRemoved(digits: set<char>, dir: string) {
    dir != "" && '~' !in dir && (!Overlaps(dir, REDACTED) || !HasNoAccountNumber(digits, dir))
  }

  lemma HomeIsGone(digits: set<char>, dir: string, matcher: Matcher, patterns: seq<string>, s: string)
    requires IsDigitClass(digits) && IsMatcher(matcher) && "" !in patterns && CanBeRemoved(digits, dir)
    ensures !Contains(Redact(digits, Some(dir), matcher, patterns, s), dir)
  {
    if Overlaps(dir, REDACTED) {
      NoAccountNumberIsLeft(digits, Some(dir), matcher, patterns, s);
      AccountNumberWithin(digits, Redact(digits, Some(dir), matcher, patterns, s), dir);
    } else {
      var out := RedactAccountNumber(digits, s);
      HomeDirIsGone(dir, out);
      HomeStaysAway(dir, matcher, patterns, RedactHomeDir(Some(dir), out));
    }
  }

  ghost predicate HomeIsAlwaysGone(digits: set<char>, dir: string) {
    forall matcher: Matcher, patterns: seq<string>, s: string | IsMatcher(matcher) && "" !in patterns ::
      !Contains(Redact(digits, Some(dir), matcher, patterns, s), dir)
  }

  /** A matcher that finds no address. */
  function CopyAll(s: string): (pieces: seq<Piece>)
    ensures Uncut(pieces) == s && RedactPieces(pieces) == s && forall p <- pieces :: IsMatch(p)
  {
    if s == "" then [] else [Copied(s[0])] + CopyAll(s[1..])
  }

  lemma HomeIsAlwaysGoneIf(digits: set<char>, dir: string)
    requires IsDigitClass(digits) && CanBeRemoved(digits, dir)
    ensures HomeIsAlwaysGone(digits, dir)
  {
    forall matcher: Matcher, patterns: seq<string>, s: string | IsMatcher(matcher) && "" !in patterns
      ensures !Contains(Redact(digits, Some(dir), matcher, patterns, s), dir)
    {
      HomeIsGone(digits, dir, matcher, patterns, s);
    }
  }

  /**
   Exactly which home directories are gone from all that comes out of the four passes, whatever the text,
   the addresses found in it and the custom strings: those that cannot take in part of a `[REDACTED]`, and
   those that look like an account number. A tilde in the directory is the case of `HomeDirIsGoneIff`.
   */
  lemma HomeIsGoneIff(digits: set<char>, dir: string, q: char)
    requires IsDigitClass(digits) && dir != "" && '~' !in dir && q !in dir && q !in digits
    ensures HomeIsAlwaysGone(digits, dir) <==> !Overlaps(dir, REDACTED) || !HasNoAccountNumber(digits, dir)
  {
    if !Overlaps(dir, REDACTED) || !HasNoAccountNumber(digits, dir) {
      HomeIsAlwaysGoneIf(digits, dir);
    } else {
      var i :| -|dir| < i < |REDACTED| && AgreesAlong(dir, REDACTED, i);
      HomeIsLeft(digits, dir, q, i);
      assert IsMatcher(CopyAll);
      NotAlwaysGone(digits, dir, CopyAll, [[q]], Before(dir, i) + [q] + After(dir, REDACTED, i));
    }
  }

  lemma NotAlwaysGone(digits: set<char>, dir: string, matcher: Matcher, patterns: seq<string>, s: string)
    requires IsMatcher(matcher) && "" !in patterns && Contains(Redact(digits, Some(dir), matcher, patterns, s), dir)
    ensures !HomeIsAlwaysGone(digits, dir)
  {}

  lemma WindowMoves(digits: set<char>, s: string, p: string, i: int, w: int)
    requires OccursAt(s, p, i) && IsWindow(digits, p, w)
    ensures IsWindow(digits, s, i + w)
  {
    var part := s[i..i + |p|];
    var there, here := s[i + w..i + w + ACCOUNT_LENGTH], p[w..w + ACCOUNT_LENGTH];
    forall j | 0 <= j < |here| ensures there[j] == here[j] {
      assert part[w + j] == s[i + w + j];
    }
  }

  lemma AccountNumberWithin(digits: set<char>, s: string, p: string)
    requires HasNoAccountNumber(digits, s) && !HasNoAccountNumber(digits, p)
    ensures !Contains(s, p)
  {
    var w :| IsWindow(digits, p, w);
    forall i | OccursAt(s, p, i) ensures IsWindow(digits, s, i + w) {
      WindowMoves(digits, s, p, i, w);
    }
  }

  /** The redaction of another string can complete what the text holds of the home directory. */
  lemma HomeIsLeft(digits: set<char>, dir: string, q: char, i: int)
    requires IsDigitClass(digits) && HasNoAccountNumber(digits, dir) && q !in dir && q !in digits && dir != ""
    requires -|dir| < i < |REDACTED| && AgreesAlong(dir, REDACTED, i)
    ensures Contains(
              Redact(digits, Some(dir), CopyAll, [[q]], Before(dir, i) + [q] + After(dir, REDACTED, i)), dir)
  {
    var u, w := Before(dir, i), After(dir, REDACTED, i);
    var s := u + [q] + w;
    SplitHasNoAccountNumber(digits, dir, u, q, w);
    FirstPassChangesIff(digits, s);
    SplitByCharacter(u, q, w, dir);
    ReplaceNothing(s, dir, HOME);
    ReplaceCharacter(u, q, w, REDACTED);
    assert [[q]][..0] == [];
    assert ReplaceAll(s, [[q]]) == Replace(s, [q], REDACTED);
    Completed(dir, REDACTED, i);
  }

  lemma SplitHasNoAccountNumber(digits: set<char>, dir: string, u: string, q: char, w: string)
    requires HasNoAccountNumber(digits, dir) && q !in digits && OccursAt(dir, u, 0) && OccursAt(dir, w, |dir| - |w|)
    ensures HasNoAccountNumber(digits, u + [q] + w)
  {
    forall i | IsWindow(digits, u + [q] + w, i) ensures exists k :: IsWindow(digits, dir, k) {
      WindowInPart(digits, u, q, w, i);
      if IsWindow(digits, u, i) {
        WindowMoves(digits, dir, u, 0, i);
      } else {
        WindowMoves(digits, dir, w, |dir| - |w|, i - |u| - 1);
      }
    }
  }

  /** A character that is no digit keeps account numbers on one side. */
  lemma WindowInPart(digits: set<char>, u: string, q: char, w: string, i: int)
    requires IsWindow(digits, u + [q] + w, i) && q !in digits
    ensures IsWindow(digits, u, i) || IsWindow(digits, w, i - |u| - 1)
  {
    var s := u + [q] + w;
    var window := s[i..i + ACCOUNT_LENGTH];
    if i + ACCOUNT_LENGTH <= |u| {
      assert window == u[i..i + ACCOUNT_LENGTH];
    } else if i > |u| {
      assert window == w[i - |u| - 1..i - |u| - 1 + ACCOUNT_LENGTH];
    } else {
      WindowDigit(digits, s, i, |u|);
    }
  }

  lemma WindowDigit(digits: set<char>, s: string, i: int, j: int)
    requires IsWindow(digits, s, i) && i <= j < i + ACCOUNT_LENGTH
    ensures s[j] in digits
  {
    assert s[j] == s[i..i + ACCOUNT_LENGTH][j - i];
  }
}
