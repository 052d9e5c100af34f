/**
 * The email-shape detector: an unanchored search for the regular expression
 *
 *     [a-zA-Z0-9._%+-]+@[a-zA-Z0-9.-]+\.[a-zA-Z]{2,}
 *
 * A search succeeds when some substring of the text matches the whole pattern.
 * This is a shape check only, not the addr-spec of section 3.4.1 of RFC 5322.
 */
module EmailPattern {

  /** An ASCII letter: `[a-zA-Z]`. */
  predicate Letter(c: char) {
    ('a' <= c <= 'z') || ('A' <= c <= 'Z')
  }

  predicate Digit(c: char) {
    '0' <= c <= '9'
  }

  /** The local-part class `[a-zA-Z0-9._%+-]`. */
  predicate LocalChar(c: char) {
    Letter(c) || Digit(c) || c == '.' || c == '_' || c == '%' || c == '+' || c == '-'
  }

  /** The domain class `[a-zA-Z0-9.-]`. */
  predicate DomainChar(c: char) {
    Letter(c) || Digit(c) || c == '.' || c == '-'
  }

  /** `[a-zA-Z0-9._%+-]+` matches all of `w`. */
  predicate LocalRun(w: string) {
    |w| >= 1 && forall k :: 0 <= k < |w| ==> LocalChar(w[k])
  }

  /** `[a-zA-Z0-9.-]+` matches all of `w`. */
  predicate DomainRun(w: string) {
    |w| >= 1 && forall k :: 0 <= k < |w| ==> DomainChar(w[k])
  }

  /** `[a-zA-Z]{2,}` matches all of `w`. */
  predicate TopLevel(w: string) {
    |w| >= 2 && forall k :: 0 <= k < |w| ==> Letter(w[k])
  }

  /**
   * The whole of `w` matches the pattern: a local run, `@` at index `at`,
   * a domain run, `.` at index `dot`, then two or more letters up to the end.
   */
  predicate MatchesPattern(w: string) {
    exists at, dot | 0 <= at < dot < |w| :: SplitsAt(w, at, dot)
  }

  /** `w` matches the pattern with its `@` at index `at` and its last `.` at index `dot`. */
  predicate SplitsAt(w: string, at: nat, dot: nat)
    requires at < dot < |w|
  {
    LocalRun(w[..at]) && w[at] == '@' && DomainRun(w[at + 1..dot]) &&
    w[dot] == '.' && TopLevel(w[dot + 1..])
  }

  /**
   * `re.search(pattern, s) is not None`: some substring of `s` matches the
   * pattern. Such a text holds an `@` and at least six characters.
   */
  predicate ContainsEmail(s: string)
    ensures ContainsEmail(s) ==> '@' in s && |s| >= 6
  {
    exists i, j | 0 <= i <= j <= |s| :: MatchesPattern(s[i..j])
  }

  /**
   * The shortest match anchored at the `@` at index `at` and the `.` at index
   * `dot`: one local character before `@`, a domain run between them, and
   * exactly two letters after the `.`.
   */
  predicate Witness(s: string, at: int, dot: int) {
    1 <= at < dot && dot + 2 < |s| &&
    LocalChar(s[at - 1]) && s[at] == '@' && DomainRun(s[at + 1..dot]) &&
    s[dot] == '.' && Letter(s[dot + 1]) && Letter(s[dot + 2])
  }

  /**
   * A match of the pattern anywhere in `s` exists exactly when a minimal
   * witness does: the outer `+` of the local part and the `{2,}` of the
   * top-level part never need more than their minimum.
   */
  lemma WitnessIffContains(s: string)
    ensures ContainsEmail(s) <==> exists at, dot :: Witness(s, at, dot)
  {
    if ContainsEmail(s) {
      var i, j :| 0 <= i <= j <= |s| && MatchesPattern(s[i..j]);
      MatchGivesWitness(s, i, j);
    }
    if exists at, dot :: Witness(s, at, dot) {
      var at, dot :| Witness(s, at, dot);
      WitnessGivesMatch(s, at, dot);
    }
  }

  /** A match of the whole pattern on `s[i..j]` shrinks to a minimal witness. */
  lemma MatchGivesWitness(s: string, i: int, j: int)
    requires 0 <= i <= j <= |s| && MatchesPattern(s[i..j])
    ensures exists at, dot :: Witness(s, at, dot)
  {
    var w := s[i..j];
    var at: nat, dot: nat :| at < dot < |w| && SplitsAt(w, at, dot);
    assert w[..at][at - 1] == s[i + at - 1];
    var inS, inW := s[i + at + 1..i + dot], w[at + 1..dot];
    forall k | 0 <= k < |inS|
      ensures inS[k] == inW[k]
    {
    }
    assert inS == inW;
    assert w[dot + 1..][0] == s[i + dot + 1] && w[dot + 1..][1] == s[i + dot + 2];
    assert Witness(s, i + at, i + dot);
  }

  /** A minimal witness is itself a match of the whole pattern. */
  lemma WitnessGivesMatch(s: string, at: int, dot: int)
    requires Witness(s, at, dot)
    ensures MatchesPattern(s[at - 1..dot + 3])
  {
    var w := s[at - 1..dot + 3];
    assert w[..1] == [s[at - 1]];
    var inW, inS := w[2..dot - at + 1], s[at + 1..dot];
    forall k | 0 <= k < |inW|
      ensures inW[k] == inS[k]
    {
    }
    assert inW == inS;
    assert w[dot - at + 2..] == [s[dot + 1], s[dot + 2]];
    assert LocalRun(w[..1]);
    assert DomainRun(w[2..dot - at + 1]);
    assert TopLevel(w[dot - at + 2..]);
    assert w[1] == '@' && w[dot - at + 1] == '.';
    assert SplitsAt(w, 1, dot - at + 1);
  }

  /**
   * The search that `re.search` performs, written as a scan: for every `@`
   * preceded by a local character, walk the domain run after it and stop at
   * the first `.` that is followed by two letters.
   */
  method FindEmail(s: string) returns (found: bool)
    ensures found == ContainsEmail(s)
  {
    WitnessIffContains(s);
    var at := 1;
    while at < |s|
      invariant 1 <= at
      invariant forall a, d :: 1 <= a < at ==> !Witness(s, a, d)
    {
      if s[at] == '@' && LocalChar(s[at - 1]) {
        var dot := at + 1;
        while dot < |s| && DomainChar(s[dot])
          invariant at + 1 <= dot <= |s|
          invariant forall m :: at + 1 <= m < dot ==> DomainChar(s[m])
          invariant forall d :: d < dot ==> !Witness(s, at, d)
        {
          if s[dot] == '.' && at + 1 < dot && dot + 2 < |s| && Letter(s[dot + 1]) && Letter(s[dot + 2]) {
            assert Witness(s, at, dot);
            return true;
          }
          dot := dot + 1;
        }
        forall d | dot < d
          ensures !Witness(s, at, d)
        {
          if dot < |s| && d <= |s| {
            assert s[at + 1..d][dot - at - 1] == s[dot];
          }
        }
      }
      at := at + 1;
    }
    return false;
  }

  /** Text without `@`, the empty text among it, never contains an email. */
  lemma NoAtNoEmail(s: string)
    requires '@' !in s
    ensures !ContainsEmail(s)
  {
  }

  /**
   * Search monotonicity: a text that holds a match keeps it whatever is put
   * before or after it.
   */
  lemma ContainsEmailInContext(before: string, t: string, after: string)
    requires ContainsEmail(t)
    ensures ContainsEmail(before + t + after)
  {
    var s := before + t + after;
    WitnessIffContains(t);
    WitnessIffContains(s);
    var at, dot :| Witness(t, at, dot);
    var n := |before|;
    assert s[n + at + 1..n + dot] == t[at + 1..dot];
    assert Witness(s, n + at, n + dot);
  }

  /** `"a@b.co"` contains an email; `"a@b.c"` and `"a@b.12"` do not. */
  lemma TopLevelNeedsTwoLetters()
    ensures ContainsEmail("a@b.co")
    ensures !ContainsEmail("a@b.c")
    ensures !ContainsEmail("a@b.12")
  {
    WitnessIffContains("a@b.co");
    assert Witness("a@b.co", 1, 3);
    WitnessIffContains("a@b.c");
    WitnessIffContains("a@b.12");
  }

  /** A local character is needed before the `@`: `"@example.com"` holds no email. */
  lemma NeedsLocalPart()
    ensures !ContainsEmail("@example.com")
  {
  }

  /** A text with an address in it and one without. */
  lemma ExampleTexts()
    ensures ContainsEmail("contact me at a.b+tag@example.co.uk")
    ensures !ContainsEmail("no contact info here")
  {
    var s := "contact me at a.b+tag@example.co.uk";
    WitnessIffContains(s);
    assert s[22..29] == "example";
    assert Witness(s, 21, 29);
    NoAtNoEmail("no contact info here");
  }
}
