/**
 Renaming the keys of JSON objects between snake_case and camelCase, as the GUI does with the
 daemon's messages: the two key transformers, the renaming loop, and when one undoes the other.
 */
module KeyRenaming {

  type Transformer = string -> string

  // ----- The key transformers -----

  predicate IsLower(c: char) { 'a' <= c <= 'z' }

  predicate IsUpper(c: char) { 'A' <= c <= 'Z' }

  predicate IsLetter(c: char) { IsLower(c) || IsUpper(c) }

  predicate IsLowerOrDigit(c: char) { IsLower(c) || '0' <= c <= '9' }

  /** The characters of the patterns `[a-z]`, `[A-Z]` and `[a-z0-9]`, written out. */
  lemma Alphabets(c: char)
    ensures IsLower(c) <==> c in "abcdefghijklmnopqrstuvwxyz"
    ensures IsUpper(c) <==> c in "ABCDEFGHIJKLMNOPQRSTUVWXYZ"
    ensures IsLetter(c) <==> c in "abcdefghijklmnopqrstuvwxyz" || c in "ABCDEFGHIJKLMNOPQRSTUVWXYZ"
    ensures IsLowerOrDigit(c) <==> c in "abcdefghijklmnopqrstuvwxyz" || c in "0123456789"
    ensures IsLower(c) ==> ToUpper(c) in "ABCDEFGHIJKLMNOPQRSTUVWXYZ" && ToLower(ToUpper(c)) == c
  {
    SmallLetters(c);
    Capitals(c);
    Digits(c);
    if IsLower(c) {
      Capitals(ToUpper(c));
    }
  }

  lemma SmallLetters(c: char)
    ensures IsLower(c) <==> c in "abcdefghijklmnopqrstuvwxyz"
  {
    var letters := "abcdefghijklmnopqrstuvwxyz";
    assert forall i | 0 <= i < 26 :: letters[i] == (i + 97) as char;
    if IsLower(c) {
      assert letters[c as int - 97] == c;
    }
  }

  lemma Capitals(c: char)
    ensures IsUpper(c) <==> c in "ABCDEFGHIJKLMNOPQRSTUVWXYZ"
  {
    var capitals := "ABCDEFGHIJKLMNOPQRSTUVWXYZ";
    assert forall i | 0 <= i < 26 :: capitals[i] == (i + 65) as char;
    if IsUpper(c) {
      assert capitals[c as int - 65] == c;
    }
  }

  lemma Digits(c: char)
    ensures '0' <= c <= '9' <==> c in "0123456789"
  {
    var digits := "0123456789";
    assert forall i | 0 <= i < 10 :: digits[i] == (i + 48) as char;
    if '0' <= c <= '9' {
      assert digits[c as int - 48] == c;
    }
  }

  function ToUpper(c: char): char {
    if IsLower(c) then (c as int - 32) as char else c
  }

  function ToLower(c: char): char {
    if IsUpper(c) then (c as int + 32) as char else c
  }

  function LowerCase(s: string): string {
    seq(|s|, i requires 0 <= i < |s| => ToLower(s[i]))
  }

  /** An underscore and a letter of either case are replaced by the letter in upper case. */
  function UnderscoreToCamelCase(s: string): string {
    if s == "" then ""
    else if |s| >= 2 && s[0] == '_' && IsLetter(s[1]) then [ToUpper(s[1])] + UnderscoreToCamelCase(s[2..])
    else [s[0]] + UnderscoreToCamelCase(s[1..])
  }

  /** Each lower-case letter or digit followed by a capital gets an underscore between the two. */
  function InsertUnderscores(s: string): string {
    if s == "" then ""
    else if |s| >= 2 && IsLowerOrDigit(s[0]) && IsUpper(s[1])
    then [s[0], '_', ToLower(s[1])] + InsertUnderscores(s[2..])
    else [s[0]] + InsertUnderscores(s[1..])
  }

  predicate IsAscii(c: char) { c as int < 0x80 }

  predicate IsFixed(lower: Transformer, c: char) {
    lower([c]) == [c]
  }

  predicate AllFixed(lower: Transformer, s: string) {
    forall c <- s :: IsFixed(lower, c)
  }

  /**
   What is assumed about `toLowerCase` of any alphabet: it works character by character as long as no
   letter outside ASCII is changed, and lower-case text stays as it is.
   */
  ghost predicate IsLowering(lower: Transformer) {
    && (forall s: string | (forall c <- s :: IsAscii(c) || IsFixed(lower, c)) :: lower(s) == LowerCase(s))
    && (forall s: string :: AllFixed(lower, lower(s)))
  }

  function CamelCaseToUnderscore(lower: Transformer): Transformer {
    s => lower(InsertUnderscores(s))
  }

  /** The same if no letter outside ASCII is changed. */
  function AsciiToUnderscore(s: string): string {
    LowerCase(InsertUnderscores(s))
  }

  // ----- When the second undoes the first -----

  /** An underscore that `UnderscoreToCamelCase` removes. */
  predicate IsWordBreak(s: string, i: int) {
    0 <= i < |s| - 1 && s[i] == '_' && IsLetter(s[i + 1])
  }

  /** There is a character before position `i` that ends up as a lower-case letter or digit. */
  predicate IsAfterWord(s: string, i: int) {
    1 <= i <= |s| && IsLowerOrDigit(s[i - 1]) && !IsWordBreak(s, i - 2)
  }

  /** Before each word break comes a lower-case letter or digit that does not itself begin a word after a word break. */
  predicate BreaksFollowWords(s: string) {
    forall i | 0 <= i < |s| - 1 && IsWordBreak(s, i) :: IsAfterWord(s, i)
  }

  /** No character is changed by lower-casing it, and breaks follow words. */
  predicate IsRoundTripKey(lower: Transformer, s: string) {
    AllFixed(lower, s) && BreaksFollowWords(s)
  }

  /** The same for the rest `s` of a key, `after` telling whether it comes right after a word. */
  predicate RoundTripsAfter(after: bool, s: string)
    decreases s
  {
    if s == "" then true
    else if |s| >= 2 && s[0] == '_' && IsLetter(s[1]) then after && IsLower(s[1]) && RoundTripsAfter(false, s[2..])
    else !IsUpper(s[0]) && RoundTripsAfter(IsLowerOrDigit(s[0]), s[1..])
  }

  lemma LowerCaseConcat(a: string, b: string)
    ensures LowerCase(a + b) == LowerCase(a) + LowerCase(b)
  {}

  lemma LowerCaseHead(c: char, s: string)
    ensures LowerCase([c] + s) == [ToLower(c)] + LowerCase(s)
  {
    LowerCaseConcat([c], s);
  }

  /** The round trip of what follows a capital or nothing at all. */
  lemma {:induction false} RoundTripFresh(s: string)
    ensures AsciiToUnderscore(UnderscoreToCamelCase(s)) == s <==> RoundTripsAfter(false, s)
    decreases |s|, 1
  {
    if s == "" {
    } else if |s| >= 2 && s[0] == '_' && IsLetter(s[1]) {
      var rest := UnderscoreToCamelCase(s[2..]);
      var camel := [ToUpper(s[1])] + rest;
      assert camel[1..] == rest;
      LowerCaseHead(ToUpper(s[1]), InsertUnderscores(rest));
      assert AsciiToUnderscore(camel)[0] != '_';
    } else {
      RoundTripAfterChar(s[0], s[1..]);
      assert s == [s[0]] + s[1..];
    }
  }

  /** The round trip of what follows a character `c` that is copied. */
  lemma {:induction false} RoundTripAfterChar(c: char, s: string)
    ensures AsciiToUnderscore([c] + UnderscoreToCamelCase(s)) == [c] + s <==>
            !IsUpper(c) && RoundTripsAfter(IsLowerOrDigit(c), s)
    decreases |s|, 0
  {
    if s == "" {
      OneCharacter(c);
      assert [c] + UnderscoreToCamelCase(s) == [c] && [c] + s == [c];
    } else if |s| >= 2 && s[0] == '_' && IsLetter(s[1]) {
      RoundTripFresh(s[2..]);
      BreakOff(c, s);
    } else {
      RoundTripAfterChar(s[0], s[1..]);
      CopyAfter(c, s[0], UnderscoreToCamelCase(s[1..]), s[1..]);
      assert s == [s[0]] + s[1..];
    }
  }

  lemma OneCharacter(c: char)
    ensures AsciiToUnderscore([c]) == [c] <==> !IsUpper(c)
  {
    assert [c][1..] == "";
    assert InsertUnderscores([c]) == [c];
    assert AsciiToUnderscore([c]) == [ToLower(c)];
    assert [ToLower(c)] == [c] <==> ToLower(c) == c;
  }

  /** A copied character `c`, then a word break, then the rest of the key. */
  lemma BreakOff(c: char, s: string)
    requires |s| >= 2 && s[0] == '_' && IsLetter(s[1])
    ensures AsciiToUnderscore([c] + UnderscoreToCamelCase(s)) == [c] + s <==>
            IsLowerOrDigit(c) && IsLower(s[1]) && AsciiToUnderscore(UnderscoreToCamelCase(s[2..])) == s[2..]
  {
    var rest := UnderscoreToCamelCase(s[2..]);
    assert UnderscoreToCamelCase(s) == [ToUpper(s[1])] + rest;
    Regroup(c, ToUpper(s[1]), rest);
    SplitBreak(c, s);
    WordBreakAfter(c, s[1], rest, s[2..]);
  }

  lemma Regroup(c: char, d: char, rest: string)
    ensures [c] + ([d] + rest) == [c, d] + rest
  {}

  lemma SplitBreak(c: char, s: string)
    requires |s| >= 2 && s[0] == '_'
    ensures [c] + s == [c, '_', s[1]] + s[2..]
  {}

  /** A copied character `d` after a copied character. */
  lemma CopyAfter(c: char, d: char, rest: string, u: string)
    ensures AsciiToUnderscore([c] + ([d] + rest)) == [c] + ([d] + u) <==>
            !IsUpper(c) && AsciiToUnderscore([d] + rest) == [d] + u
  {
    var t := [d] + rest;
    var whole := [c] + t;
    assert whole[1..] == t && t[1..] == rest;
    if IsLowerOrDigit(c) && IsUpper(d) {
      assert InsertUnderscores(whole)[1] == '_' && ([c] + ([d] + u))[1] == d;
      assert AsciiToUnderscore(whole)[1] == '_';
      assert InsertUnderscores(t)[0] == d && AsciiToUnderscore(t)[0] == ToLower(d);
    } else {
      LowerCaseHead(c, InsertUnderscores(t));
      SamePrefix([ToLower(c)], AsciiToUnderscore(t), [c], [d] + u);
    }
  }

  lemma CapitalAfterWord(c: char, capital: char, rest: string)
    requires IsLowerOrDigit(c) && IsUpper(capital)
    ensures AsciiToUnderscore([c, capital] + rest) == [c, '_', ToLower(capital)] + AsciiToUnderscore(rest)
  {
    assert ([c, capital] + rest)[2..] == rest;
    LowerCaseConcat([c, '_', ToLower(capital)], InsertUnderscores(rest));
  }

  lemma CapitalAfterOther(c: char, capital: char, rest: string)
    requires !IsLowerOrDigit(c) && IsUpper(capital)
    ensures AsciiToUnderscore([c, capital] + rest) ==
            [ToLower(c), ToLower(capital)] + AsciiToUnderscore(rest)
  {
    var whole := [c, capital] + rest;
    assert whole[1..] == [capital] + rest && whole[1..][1..] == rest;
    LowerCaseHead(capital, InsertUnderscores(rest));
    LowerCaseHead(c, InsertUnderscores(whole[1..]));
  }

  /** A word break after a copied character: `x` begins a word, `rest` is what follows it in camelCase. */
  lemma WordBreakAfter(c: char, x: char, rest: string, u: string)
    requires IsLetter(x)
    ensures AsciiToUnderscore([c, ToUpper(x)] + rest) == [c, '_', x] + u <==>
            IsLowerOrDigit(c) && IsLower(x) && AsciiToUnderscore(rest) == u
  {
    var capital, tail := ToUpper(x), AsciiToUnderscore(rest);
    if IsLowerOrDigit(c) {
      CapitalAfterWord(c, capital, rest);
      SamePrefix([c, '_', ToLower(capital)], tail, [c, '_', x], u);
      assert [c, '_', ToLower(capital)][2] == ToLower(capital) && [c, '_', x][2] == x;
    } else {
      CapitalAfterOther(c, capital, rest);
      assert ([ToLower(c), ToLower(capital)] + tail)[1] == ToLower(capital) && ([c, '_', x] + u)[1] == '_';
    }
  }

  lemma SamePrefix(a: string, t: string, b: string, u: string)
    requires |a| == |b|
    ensures a + t == b + u <==> a == b && t == u
  {
    if a + t == b + u {
      assert a == (a + t)[..|a|] && b == (b + u)[..|b|];
      assert t == (a + t)[|a|..] && u == (b + u)[|b|..];
    }
  }

  /** The condition on positions and the condition on suffixes are the same. */
  lemma {:induction false} SuffixCondition(s: string, k: nat)
    requires k <= |s| && !IsWordBreak(s, k - 1)
    ensures RoundTripsAfter(IsAfterWord(s, k), s[k..]) <==>
            && (forall j | k <= j < |s| :: !IsUpper(s[j]))
            && (forall i | k <= i < |s| - 1 && IsWordBreak(s, i) :: IsAfterWord(s, i))
    decreases |s| - k
  {
    var rest := s[k..];
    if k == |s| {
    } else if IsWordBreak(s, k) {
      assert rest[0] == s[k] && rest[1] == s[k + 1] && rest[2..] == s[k + 2..];
      SuffixCondition(s, k + 2);
      assert !IsAfterWord(s, k + 2);
    } else {
      assert rest[0] == s[k] && rest[1..] == s[k + 1..];
      assert |rest| >= 2 ==> rest[1] == s[k + 1];
      SuffixCondition(s, k + 1);
      assert IsAfterWord(s, k + 1) <==> IsLowerOrDigit(s[k]);
    }
  }

  lemma AsciiRoundTripsIff(s: string)
    ensures AsciiBack(s) == s <==> HasNoCapitals(s) && BreaksFollowWords(s)
  {
    RoundTripFresh(s);
    SuffixCondition(s, 0);
    assert s[0..] == s;
    assert HasNoCapitals(s) <==> forall j | 0 <= j < |s| :: !IsUpper(s[j]);
  }

  lemma CapitalsAreNotFixed(lower: Transformer, c: char)
    requires IsLowering(lower)
    ensures IsAscii(c) ==> (IsFixed(lower, c) <==> !IsUpper(c))
  {
    if IsAscii(c) {
      assert lower([c]) == LowerCase([c]) == [ToLower(c)];
      assert [ToLower(c)] == [c] <==> ToLower(c) == c;
    }
  }

  lemma FixedHasNoCapitals(lower: Transformer, s: string)
    requires IsLowering(lower) && AllFixed(lower, s)
    ensures HasNoCapitals(s)
  {
    forall c | c in s ensures !IsUpper(c) {
      CapitalsAreNotFixed(lower, c);
    }
  }

  /** Renaming adds only ASCII characters. */
  lemma {:induction false} CamelCaseCharacters(s: string)
    ensures forall c <- UnderscoreToCamelCase(s) :: c in s || IsAscii(c)
  {
    if s == "" {
    } else if |s| >= 2 && s[0] == '_' && IsLetter(s[1]) {
      CamelCaseCharacters(s[2..]);
    } else {
      CamelCaseCharacters(s[1..]);
    }
  }

  lemma {:induction false} InsertedCharacters(s: string)
    ensures forall c <- InsertUnderscores(s) :: c in s || IsAscii(c)
  {
    if s == "" {
    } else if |s| >= 2 && IsLowerOrDigit(s[0]) && IsUpper(s[1]) {
      InsertedCharacters(s[2..]);
    } else {
      InsertedCharacters(s[1..]);
    }
  }

  /** Keys in which lower-casing changes nothing come back as in ASCII. */
  lemma FixedIsLikeAscii(lower: Transformer, s: string)
    requires IsLowering(lower) && AllFixed(lower, s)
    ensures ThereAndBackKey(lower)(s) == AsciiBack(s)
  {
    var camel := UnderscoreToCamelCase(s);
    CamelCaseCharacters(s);
    InsertedCharacters(camel);
    assert forall c <- InsertUnderscores(camel) :: IsAscii(c) || IsFixed(lower, c);
    assert CamelCaseToUnderscore(lower)(camel) == lower(InsertUnderscores(camel));
  }

  lemma BackIsFixed(lower: Transformer, s: string)
    requires IsLowering(lower)
    ensures AllFixed(lower, ThereAndBackKey(lower)(s))
  {
    var camel := UnderscoreToCamelCase(s);
    assert CamelCaseToUnderscore(lower)(camel) == lower(InsertUnderscores(camel));
    assert AllFixed(lower, lower(InsertUnderscores(camel)));
  }

  /** Exactly which keys come back from camelCase unchanged. */
  lemma KeyRoundTripsIff(lower: Transformer, s: string)
    requires IsLowering(lower)
    ensures CamelCaseToUnderscore(lower)(UnderscoreToCamelCase(s)) == s <==> IsRoundTripKey(lower, s)
  {
    BackIsFixed(lower, s);
    if AllFixed(lower, s) {
      FixedIsLikeAscii(lower, s);
      FixedHasNoCapitals(lower, s);
      AsciiRoundTripsIff(s);
    }
  }

  /** Lower-casing ASCII letters alone is a lower-casing, too. */
  lemma AsciiIsLowering()
    ensures IsLowering(LowerCase)
  {
    forall c: char ensures IsFixed(LowerCase, c) <==> !IsUpper(c) {
      assert [ToLower(c)] == [c] <==> ToLower(c) == c;
    }
    forall s: string ensures AllFixed(LowerCase, LowerCase(s)) {
      forall i | 0 <= i < |s| ensures !IsUpper(LowerCase(s)[i]) {}
    }
  }

  /** What `UnderscoreToCamelCase` changes has a capital afterwards. */
  lemma {:induction false} ChangedKeysHaveCapitals(s: string)
    ensures UnderscoreToCamelCase(s) == s || !HasNoCapitals(UnderscoreToCamelCase(s))
  {
    if s == "" {
    } else if |s| >= 2 && s[0] == '_' && IsLetter(s[1]) {
      assert IsUpper(UnderscoreToCamelCase(s)[0]);
    } else {
      ChangedKeysHaveCapitals(s[1..]);
      CapitalsAfter(s[0], UnderscoreToCamelCase(s[1..]));
      assert s == [s[0]] + s[1..];
    }
  }

  predicate HasNoCapitals(s: string) {
    forall c <- s :: !IsUpper(c)
  }

  lemma CapitalsAfter(c: char, rest: string)
    ensures HasNoCapitals([c] + rest) <==> !IsUpper(c) && HasNoCapitals(rest)
  {
    var whole := [c] + rest;
    assert whole[0] == c && forall d :: d in whole <==> d == c || d in rest;
  }

  // ----- There and back makes keys shorter, or leaves them alone -----

  function ThereAndBackKey(lower: Transformer): Transformer {
    s => CamelCaseToUnderscore(lower)(UnderscoreToCamelCase(s))
  }

  function AsciiBack(s: string): string {
    AsciiToUnderscore(UnderscoreToCamelCase(s))
  }

  predicate IsShorterOrSame(back: string, s: string) {
    |back| <= |s| && (|back| == |s| ==> back == s)
  }

  /** A copied character that is no capital does not get an underscore. */
  lemma CopyBefore(c: char, d: char, rest: string)
    requires !IsUpper(c) && !IsUpper(d)
    ensures AsciiToUnderscore([c] + ([d] + rest)) == [c] + AsciiToUnderscore([d] + rest)
  {
    var t := [d] + rest;
    var whole := [c] + t;
    assert whole[1..] == t;
    LowerCaseHead(c, InsertUnderscores(t));
  }

  /** A key in which lower-casing changes nothing and that does not come back comes back shorter. */
  lemma BackIsShorter(lower: Transformer, s: string)
    requires IsLowering(lower) && AllFixed(lower, s)
    ensures IsShorterOrSame(ThereAndBackKey(lower)(s), s)
  {
    FixedIsLikeAscii(lower, s);
    FixedHasNoCapitals(lower, s);
    AsciiBackIsShorter(s);
  }

  lemma {:induction false} AsciiBackIsShorter(s: string)
    requires HasNoCapitals(s)
    ensures IsShorterOrSame(AsciiBack(s), s)
    decreases |s|, 1
  {
    if s == "" {
    } else if |s| >= 2 && s[0] == '_' && IsLetter(s[1]) {
      AsciiBackIsShorter(s[2..]);
      var rest := UnderscoreToCamelCase(s[2..]);
      var camel := [ToUpper(s[1])] + rest;
      assert camel[1..] == rest;
      LowerCaseHead(ToUpper(s[1]), InsertUnderscores(rest));
    } else {
      assert s == [s[0]] + s[1..];
      BackIsShorterAfter(s[0], s[1..]);
    }
  }

  lemma {:induction false} BackIsShorterAfter(c: char, s: string)
    requires !IsUpper(c) && HasNoCapitals(s)
    ensures IsShorterOrSame(AsciiToUnderscore([c] + UnderscoreToCamelCase(s)), [c] + s)
    decreases |s|, 0
  {
    if s == "" {
      OneCharacter(c);
      assert [c] + UnderscoreToCamelCase(s) == [c] && [c] + s == [c];
    } else if |s| >= 2 && s[0] == '_' && IsLetter(s[1]) {
      AsciiBackIsShorter(s[2..]);
      BreakIsShorter(c, s);
    } else {
      var rest := UnderscoreToCamelCase(s[1..]);
      BackIsShorterAfter(s[0], s[1..]);
      CopyBefore(c, s[0], rest);
      assert s == [s[0]] + s[1..];
    }
  }

  lemma BreakIsShorter(c: char, s: string)
    requires !IsUpper(c) && HasNoCapitals(s) && |s| >= 2 && s[0] == '_' && IsLetter(s[1])
    requires IsShorterOrSame(AsciiBack(s[2..]), s[2..])
    ensures IsShorterOrSame(AsciiToUnderscore([c] + UnderscoreToCamelCase(s)), [c] + s)
  {
    var rest := UnderscoreToCamelCase(s[2..]);
    assert UnderscoreToCamelCase(s) == [ToUpper(s[1])] + rest;
    Regroup(c, ToUpper(s[1]), rest);
    SplitBreak(c, s);
    if IsLowerOrDigit(c) {
      CapitalAfterWord(c, ToUpper(s[1]), rest);
    } else {
      CapitalAfterOther(c, ToUpper(s[1]), rest);
    }
  }

  // ----- JSON -----

  /** A JSON value. An array is an object whose keys are its indices. */
  datatype Json = Null | Primitive(id: int) | Object(fields: map<string, Json>)

  function Image(keys: set<string>, f: Transformer): set<string> {
    set k | k in keys :: f(k)
  }

  /** `r` is `j` with every key, at every depth, replaced by what `f` makes of it, and no entry lost. */
  ghost predicate IsRenamed(j: Json, r: Json, f: Transformer)
    decreases j
  {
    match j
    case Object(fields) =>
      && r.Object?
      && r.fields.Keys == Image(fields.Keys, f)
      && (forall k <- fields :: IsRenamed(fields[k], r.fields[f(k)], f))
      && |r.fields| == |fields|
    case _ => r == j
  }

  /** There is only one such tree. */
  lemma {:induction false} RenamedTreeIsUnique(j: Json, r: Json, r': Json, f: Transformer)
    requires IsRenamed(j, r, f) && IsRenamed(j, r', f)
    ensures r == r'
    decreases j
  {
    if j.Object? {
      forall q | q in r.fields ensures q in r'.fields && r.fields[q] == r'.fields[q] {
        var k :| k in j.fields && f(k) == q;
        RenamedTreeIsUnique(j.fields[k], r.fields[f(k)], r'.fields[f(k)], f);
      }
      assert r.fields.Keys == r'.fields.Keys;
    }
  }

  /** The keys of an object do not get in each other's way: no two get one name, and none the name of another. */
  ghost predicate IsClean(keys: set<string>, f: Transformer) {
    && (forall k, k' | k in keys && k' in keys && f(k) == f(k') :: k == k')
    && (forall k <- keys | f(k) in keys :: f(k) == k)
  }

  ghost predicate IsCleanTree(j: Json, f: Transformer)
    decreases j
  {
    j.Object? ==> IsClean(j.fields.Keys, f) && forall k <- j.fields :: IsCleanTree(j.fields[k], f)
  }

  /**
   What the renaming loop may make of a value, whatever the order of its rounds: no other names than the
   new ones, and, as far down as keys do not get in each other's way, every entry.
   */
  ghost predicate CanBecome(j: Json, r: Json, f: Transformer)
    decreases j
  {
    match j
    case Object(fields) =>
      && r.Object?
      && r.fields.Keys <= Image(fields.Keys, f)
      && (IsClean(fields.Keys, f) ==>
            && r.fields.Keys == Image(fields.Keys, f)
            && forall k <- fields :: CanBecome(fields[k], r.fields[f(k)], f))
    case _ => r == j
  }

  /** A clean tree can only become the renamed tree. */
  lemma {:induction false} CleanBecomesRenamed(j: Json, r: Json, f: Transformer)
    requires CanBecome(j, r, f) && IsCleanTree(j, f)
    ensures IsRenamed(j, r, f)
    decreases j
  {
    if j.Object? {
      ImageSize(j.fields.Keys, f);
      assert |r.fields.Keys| == |j.fields.Keys|;
      forall k | k in j.fields ensures IsRenamed(j.fields[k], r.fields[f(k)], f) {
        CleanBecomesRenamed(j.fields[k], r.fields[f(k)], f);
      }
    }
  }

  lemma {:induction false} ImageSize(keys: set<string>, f: Transformer)
    requires forall k, k' | k in keys && k' in keys && f(k) == f(k') :: k == k'
    ensures |Image(keys, f)| == |keys|
  {
    if keys != {} {
      var k :| k in keys;
      ImageSize(keys - {k}, f);
      assert Image(keys, f) == Image(keys - {k}, f) + {f(k)};
    }
  }

  /** Objects are nested at most `n` deep. */
  ghost predicate IsNested(j: Json, n: nat)
    decreases j
  {
    j.Object? ==> n > 0 && forall k <- j.fields :: IsNested(j.fields[k], n - 1)
  }

  lemma NestedDeeper(j: Json, m: nat, n: nat)
    requires IsNested(j, m) && m <= n
    ensures IsNested(j, n)
    decreases j
  {}

  /** Every value is nested to some depth. */
  lemma {:induction false} NestingDepth(j: Json) returns (n: nat)
    ensures IsNested(j, n)
    decreases j
  {
    n := 0;
    if j.Object? {
      var left := j.fields.Keys;
      while left != {}
        invariant left <= j.fields.Keys
        invariant forall k <- j.fields.Keys - left :: IsNested(j.fields[k], n)
        decreases left
      {
        var k :| k in left;
        var m := NestingDepth(j.fields[k]);
        var larger := if m < n then n else m;
        forall q | q in j.fields.Keys - left + {k} ensures IsNested(j.fields[q], larger) {
          NestedDeeper(j.fields[q], if q == k then m else n, larger);
        }
        n := larger;
        left := left - {k};
      }
      n := n + 1;
    }
  }

  /** Two keys of an object are given one name. */
  ghost predicate Collides(keys: set<string>, f: Transformer) {
    exists k, k' :: k in keys && k' in keys && k != k' && f(k) == f(k')
  }

  /** All keys of a value renamed. Nothing is lost if the tree is clean, and something is if keys collide. */
  method TransformObjectKeys(j: Json, f: Transformer) returns (r: Json)
    ensures CanBecome(j, r, f)
    ensures IsCleanTree(j, f) ==> IsRenamed(j, r, f)
    ensures j.Object? && Collides(j.fields.Keys, f) ==> r.Object? && |r.fields| < |j.fields|
  {
    ghost var depth := NestingDepth(j);
    r := TransformNested(j, f, depth);
    if IsCleanTree(j, f) {
      CleanBecomesRenamed(j, r, f);
    }
    if j.Object? && Collides(j.fields.Keys, f) {
      CollisionLosesEntries(j, r, f);
    }
  }

  /**
   The renaming loop. It works on the object it is given: each key in turn is assigned under its new
   name and, if that differs, deleted under the old one; values that are objects are renamed first.
   Keys that get in each other's way cost entries, and their values may be renamed more than once.
   */
  method TransformNested(j: Json, f: Transformer, ghost depth: nat) returns (r: Json)
    requires IsNested(j, depth)
    ensures CanBecome(j, r, f)
    ensures IsNested(r, depth)
    decreases depth
  {
    if !j.Object? {
      return j;
    }
    var source := j.fields;
    var anObject := source;
    var left := source.Keys;
    while left != {}
      invariant InShape(source.Keys, anObject, left, f)
      invariant forall k <- anObject :: IsNested(anObject[k], depth - 1)
      invariant IsClean(source.Keys, f) ==> IsPartlyRenamed(source, anObject, left, f)
      decreases left
    {
      var sourceKey :| sourceKey in left;
      var targetKey := f(sourceKey);
      var sourceValue := anObject[sourceKey];
      var targetValue := sourceValue;
      if sourceValue.Object? {
        targetValue := TransformNested(sourceValue, f, depth - 1);
      }
      StaysInShape(source.Keys, anObject, left, f, sourceKey, targetValue);
      if IsClean(source.Keys, f) {
        RenameOne(source, anObject, left, f, sourceKey, targetValue);
      }
      anObject := anObject[targetKey := targetValue];
      if sourceKey != targetKey {
        anObject := anObject - {sourceKey};
      }
      left := left - {sourceKey};
    }
    EndsRenamed(j, anObject, f);
    r := Object(anObject);
  }

  /** Which keys the object has between two rounds, even if keys get in each other's way. */
  ghost predicate InShape(keys: set<string>, now: map<string, Json>, left: set<string>, f: Transformer) {
    left <= keys && left <= now.Keys <= left + Image(keys - left, f)
  }

  lemma StaysInShape(
    keys: set<string>, now: map<string, Json>, left: set<string>, f: Transformer, key: string, value: Json)
    requires InShape(keys, now, left, f) && key in left
    ensures InShape(keys, now[f(key) := value] - (if f(key) != key then {key} else {}), left - {key}, f)
  {
    var done := keys - left;
    assert keys - (left - {key}) == done + {key};
    assert Image(done + {key}, f) == Image(done, f) + {f(key)};
  }

  lemma EndsRenamed(j: Json, now: map<string, Json>, f: Transformer)
    requires j.Object? && InShape(j.fields.Keys, now, {}, f)
    requires IsClean(j.fields.Keys, f) ==> IsPartlyRenamed(j.fields, now, {}, f)
    ensures CanBecome(j, Object(now), f)
  {
    assert j.fields.Keys - {} == j.fields.Keys;
    assert {} + Image(j.fields.Keys, f) == Image(j.fields.Keys, f);
  }

  /** All keys but those left have been renamed, and the others are as they were. */
  ghost predicate IsPartlyRenamed(
    source: map<string, Json>, now: map<string, Json>, left: set<string>, f: Transformer)
  {
    && left <= source.Keys
    && now.Keys == left + Image(source.Keys - left, f)
    && (forall k <- left :: now[k] == source[k])
    && (forall k <- source.Keys - left :: CanBecome(source[k], now[f(k)], f))
  }

  /** The name a clean key is given clears the keys still to come and the names already given. */
  lemma NewNameIsFree(keys: set<string>, left: set<string>, f: Transformer, key: string)
    requires IsClean(keys, f) && left <= keys && key in left
    ensures f(key) in keys ==> f(key) == key
    ensures forall k <- keys - left :: f(k) != f(key) && f(k) != key
  {}

  /** The map after one round, entry by entry. */
  lemma AfterOneRound(
    keys: set<string>, now: map<string, Json>, left: set<string>, f: Transformer, key: string, value: Json)
    requires IsClean(keys, f) && left <= keys && key in left && now.Keys == left + Image(keys - left, f)
    ensures var after := now[f(key) := value] - (if f(key) != key then {key} else {});
            && after.Keys == (left - {key}) + Image(keys - (left - {key}), f)
            && f(key) in after && after[f(key)] == value
            && (forall k <- left - {key} :: after[k] == now[k])
            && (forall k <- keys - left :: f(k) in after && f(k) in now && after[f(k)] == now[f(k)])
  {
    var after := now[f(key) := value] - (if f(key) != key then {key} else {});
    var done := keys - left;
    NewNameIsFree(keys, left, f, key);
    assert keys - (left - {key}) == done + {key};
    assert Image(done + {key}, f) == Image(done, f) + {f(key)};
    assert forall k <- done :: f(k) in Image(done, f);
    assert after.Keys == (left - {key}) + (Image(done, f) + {f(key)});
  }

  lemma RenameOne(
    source: map<string, Json>, now: map<string, Json>, left: set<string>, f: Transformer, key: string, value: Json)
    requires IsClean(source.Keys, f) && IsPartlyRenamed(source, now, left, f)
    requires key in left && CanBecome(source[key], value, f)
    ensures IsPartlyRenamed(source, now[f(key) := value] - (if f(key) != key then {key} else {}), left - {key}, f)
  {
    AfterOneRound(source.Keys, now, left, f, key, value);
    var after := now[f(key) := value] - (if f(key) != key then {key} else {});
    forall k | k in source.Keys - (left - {key}) ensures CanBecome(source[k], after[f(k)], f) {
      if k != key {
        assert k in source.Keys - left;
      }
    }
  }

  // ----- There and back -----

  ghost predicate HasRoundTripKeys(lower: Transformer, j: Json)
    decreases j
  {
    j.Object? ==> forall k <- j.fields :: IsRoundTripKey(lower, k) && HasRoundTripKeys(lower, j.fields[k])
  }

  lemma RoundTripKeyHasNoCapitalForm(lower: Transformer, k: string, k': string)
    requires IsLowering(lower)
    requires IsRoundTripKey(lower, k) && IsRoundTripKey(lower, k') && UnderscoreToCamelCase(k) == k'
    ensures k == k'
  {
    FixedHasNoCapitals(lower, k');
    ChangedKeysHaveCapitals(k);
  }

  /** Keys that come back get in each other's way in neither direction. */
  lemma RoundTripKeysAreClean(lower: Transformer, keys: set<string>)
    requires IsLowering(lower)
    requires forall k <- keys :: IsRoundTripKey(lower, k)
    ensures IsClean(keys, UnderscoreToCamelCase)
    ensures IsClean(Image(keys, UnderscoreToCamelCase), CamelCaseToUnderscore(lower))
  {
    forall k | k in keys ensures ThereAndBackKey(lower)(k) == k {
      KeyRoundTripsIff(lower, k);
    }
    forall k | k in keys && UnderscoreToCamelCase(k) in keys ensures UnderscoreToCamelCase(k) == k {
      RoundTripKeyHasNoCapitalForm(lower, k, UnderscoreToCamelCase(k));
    }
    forall k | k in keys && k in Image(keys, UnderscoreToCamelCase) ensures UnderscoreToCamelCase(k) == k {
      var k' :| k' in keys && UnderscoreToCamelCase(k') == k;
      RoundTripKeyHasNoCapitalForm(lower, k', k);
    }
  }

  lemma {:induction false} CamelCaseIsClean(lower: Transformer, j: Json)
    requires IsLowering(lower)
    requires HasRoundTripKeys(lower, j)
    ensures IsCleanTree(j, UnderscoreToCamelCase)
    decreases j
  {
    if j.Object? {
      RoundTripKeysAreClean(lower, j.fields.Keys);
      forall k | k in j.fields ensures IsCleanTree(j.fields[k], UnderscoreToCamelCase) {
        CamelCaseIsClean(lower, j.fields[k]);
      }
    }
  }

  lemma {:induction false} UnderscoreIsClean(lower: Transformer, j: Json, r: Json)
    requires IsLowering(lower)
    requires HasRoundTripKeys(lower, j) && IsRenamed(j, r, UnderscoreToCamelCase)
    ensures IsCleanTree(r, CamelCaseToUnderscore(lower))
    decreases j
  {
    if j.Object? {
      RoundTripKeysAreClean(lower, j.fields.Keys);
      forall q | q in r.fields ensures IsCleanTree(r.fields[q], CamelCaseToUnderscore(lower)) {
        var k :| k in j.fields && UnderscoreToCamelCase(k) == q;
        UnderscoreIsClean(lower, j.fields[k], r.fields[q]);
      }
    }
  }

  /** Every key of the tree comes back when `g` follows `f`. */
  ghost predicate IsInvertedBy(j: Json, f: Transformer, g: Transformer)
    decreases j
  {
    j.Object? ==> forall k <- j.fields :: g(f(k)) == k && IsInvertedBy(j.fields[k], f, g)
  }

  lemma {:induction false} RoundTripKeysAreInverted(lower: Transformer, j: Json)
    requires IsLowering(lower)
    requires HasRoundTripKeys(lower, j)
    ensures IsInvertedBy(j, UnderscoreToCamelCase, CamelCaseToUnderscore(lower))
    decreases j
  {
    if j.Object? {
      forall k | k in j.fields
        ensures CamelCaseToUnderscore(lower)(UnderscoreToCamelCase(k)) == k
        ensures IsInvertedBy(j.fields[k], UnderscoreToCamelCase, CamelCaseToUnderscore(lower))
      {
        KeyRoundTripsIff(lower, k);
        RoundTripKeysAreInverted(lower, j.fields[k]);
      }
    }
  }

  lemma KeysBack(keys: set<string>, f: Transformer, g: Transformer)
    requires forall k <- keys :: g(f(k)) == k
    ensures Image(Image(keys, f), g) == keys
  {
    forall k | k in keys ensures k in Image(Image(keys, f), g) {
      assert f(k) in Image(keys, f);
    }
  }

  lemma SameFields(a: map<string, Json>, b: map<string, Json>)
    requires a.Keys == b.Keys && forall k <- a :: a[k] == b[k]
    ensures a == b
  {}

  /** Two renamings, the second inverting the first, give the tree back. */
  lemma {:induction false} RenamedBack(j: Json, r: Json, c: Json, f: Transformer, g: Transformer)
    requires IsInvertedBy(j, f, g) && IsRenamed(j, r, f) && IsRenamed(r, c, g)
    ensures c == j
    decreases j
  {
    if j.Object? {
      KeysBack(j.fields.Keys, f, g);
      assert c.fields.Keys == Image(r.fields.Keys, g) == j.fields.Keys;
      forall k | k in j.fields ensures c.fields[k] == j.fields[k] {
        RenamedBack(j.fields[k], r.fields[f(k)], c.fields[k], f, g);
      }
      SameFields(c.fields, j.fields);
    }
  }

  // ----- Exactly which trees come back -----

  function BackKeys(lower: Transformer, keys: set<string>): set<string> {
    Image(Image(keys, UnderscoreToCamelCase), CamelCaseToUnderscore(lower))
  }

  lemma BackKeysAreImage(lower: Transformer, keys: set<string>)
    ensures BackKeys(lower, keys) == Image(keys, ThereAndBackKey(lower))
  {
    forall k | k in keys ensures ThereAndBackKey(lower)(k) in BackKeys(lower, keys) {
      assert UnderscoreToCamelCase(k) in Image(keys, UnderscoreToCamelCase);
    }
  }

  /** If keys come back as the same set of keys, each comes back as itself. */
  lemma {:induction false} KeyIsFixed(lower: Transformer, keys: set<string>, k: string)
    requires IsLowering(lower)
    requires keys <= Image(keys, ThereAndBackKey(lower)) && k in keys
    ensures ThereAndBackKey(lower)(k) == k
    decreases |k|
  {
    ImageIsNoLarger(keys, ThereAndBackKey(lower));
    SameSet(keys, Image(keys, ThereAndBackKey(lower)));
    var origin :| origin in keys && ThereAndBackKey(lower)(origin) == k;
    BackIsFixed(lower, origin);
    BackIsShorter(lower, k);
    var back := ThereAndBackKey(lower)(k);
    if back != k {
      assert back in keys;
      KeyIsFixed(lower, keys, back);
      ImageIsSmaller(keys, ThereAndBackKey(lower), k, back);
      assert false;
    }
  }

  lemma SameSet(a: set<string>, b: set<string>)
    requires a <= b && |b| <= |a|
    ensures a == b
  {
    assert b == a + (b - a);
    assert |b| == |a| + |b - a|;
    assert b - a == {};
  }

  /** A tree that comes back has keys that do. */
  lemma {:induction false} BackHasRoundTripKeys(lower: Transformer, j: Json, camel: Json)
    requires IsLowering(lower)
    requires CanBecome(j, camel, UnderscoreToCamelCase) && CanBecome(camel, j, CamelCaseToUnderscore(lower))
    ensures HasRoundTripKeys(lower, j)
    decreases j
  {
    if j.Object? {
      var keys := j.fields.Keys;
      assert keys <= BackKeys(lower, keys);
      BackKeysAreImage(lower, keys);
      forall k | k in keys ensures IsRoundTripKey(lower, k) && ThereAndBackKey(lower)(k) == k {
        KeyIsFixed(lower, keys, k);
        KeyRoundTripsIff(lower, k);
      }
      RoundTripKeysAreClean(lower, keys);
      forall k | k in keys ensures HasRoundTripKeys(lower, j.fields[k]) {
        var q := UnderscoreToCamelCase(k);
        assert q in camel.fields;
        BackHasRoundTripKeys(lower, j.fields[k], camel.fields[q]);
      }
    }
  }

  /** Whatever order the two loops take: the tree comes back exactly if all its keys do. */
  lemma TreeRoundTripsIff(lower: Transformer, j: Json, camel: Json, back: Json)
    requires IsLowering(lower)
    ensures CanBecome(j, camel, UnderscoreToCamelCase) && CanBecome(camel, back, CamelCaseToUnderscore(lower)) ==>
              (back == j <==> HasRoundTripKeys(lower, j))
  {
    if CanBecome(j, camel, UnderscoreToCamelCase) && CanBecome(camel, back, CamelCaseToUnderscore(lower)) {
      if back == j {
        BackHasRoundTripKeys(lower, j, camel);
      }
      if HasRoundTripKeys(lower, j) {
        RoundTripKeysComeBack(lower, j, camel, back);
      }
    }
  }

  lemma RoundTripKeysComeBack(lower: Transformer, j: Json, camel: Json, back: Json)
    requires IsLowering(lower)
    requires CanBecome(j, camel, UnderscoreToCamelCase) && CanBecome(camel, back, CamelCaseToUnderscore(lower))
    requires HasRoundTripKeys(lower, j)
    ensures back == j
  {
    CamelCaseIsClean(lower, j);
    CleanBecomesRenamed(j, camel, UnderscoreToCamelCase);
    UnderscoreIsClean(lower, j, camel);
    CleanBecomesRenamed(camel, back, CamelCaseToUnderscore(lower));
    RoundTripKeysAreInverted(lower, j);
    RenamedBack(j, camel, back, UnderscoreToCamelCase, CamelCaseToUnderscore(lower));
  }

  /** Renaming a tree to camelCase and back gives it back exactly if all its keys come back. */
  method ThereAndBack(lower: Transformer, j: Json) returns (camel: Json, back: Json)
    requires IsLowering(lower)
    ensures back == j <==> HasRoundTripKeys(lower, j)
    ensures HasRoundTripKeys(lower, j) ==> IsRenamed(j, camel, UnderscoreToCamelCase)
  {
    camel := TransformObjectKeys(j, UnderscoreToCamelCase);
    back := TransformObjectKeys(camel, CamelCaseToUnderscore(lower));
    TreeRoundTripsIff(lower, j, camel, back);
    if HasRoundTripKeys(lower, j) {
      CamelCaseIsClean(lower, j);
    }
  }

  // ----- What collisions cost -----

  /** An object whose keys collide comes out of the loop with fewer entries, whatever its order. */
  lemma CollisionLosesEntries(j: Json, r: Json, f: Transformer)
    requires CanBecome(j, r, f) && j.Object? && Collides(j.fields.Keys, f)
    ensures |r.fields| < |j.fields|
  {
    var keys := j.fields.Keys;
    var k, k' :| k in keys && k' in keys && k != k' && f(k) == f(k');
    ImageIsSmaller(keys, f, k, k');
    SubsetSize(r.fields.Keys, Image(keys, f));
  }

  lemma SubsetSize(a: set<string>, b: set<string>)
    requires a <= b
    ensures |a| <= |b|
  {
    assert a + (b - a) == b;
  }

  lemma ImageIsSmaller(keys: set<string>, f: Transformer, k: string, k': string)
    requires k in keys && k' in keys && k != k' && f(k) == f(k')
    ensures |Image(keys, f)| < |keys|
  {
    assert Image(keys, f) == Image(keys - {k}, f);
    ImageIsNoLarger(keys - {k}, f);
  }

  lemma {:induction false} ImageIsNoLarger(keys: set<string>, f: Transformer)
    ensures |Image(keys, f)| <= |keys|
  {
    if keys != {} {
      var k :| k in keys;
      ImageIsNoLarger(keys - {k}, f);
      assert Image(keys, f) == Image(keys - {k}, f) + {f(k)};
    }
  }
}
