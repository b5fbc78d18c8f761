/** The four field validators of the entry form, each stated character by
    character and proved equal to the regular expression the form tests. */
module Validators {
  import opened Text
  import opened Regex

  const Upper := One(Between('A', 'Z'))
  const Digit := One(Between('0', '9'))
  /** `[^\s@]`. */
  const EmailChar := NoneOf(true, "@")

  /** `^[A-Z]{5}[0-9]{4}[A-Z]{1}$`. */
  const PanPattern := Cat(Repeat(Upper, 5), Cat(Repeat(Digit, 4), Repeat(Upper, 1)))
  /** `^[0-9]{6}$`. */
  const PostalPattern := Repeat(Digit, 6)
  /** `^\+91\d{10}$`. */
  const PhonePattern := Cat(Literal("+91"), Repeat(Digit, 10))
  /** `^[^\s@]+@[^\s@]+\.[^\s@]+$`. */
  const EmailPattern :=
    Cat(Plus(One(EmailChar)), Cat(One(Exactly('@')),
      Cat(Plus(One(EmailChar)), Cat(One(Exactly('.')), Plus(One(EmailChar))))))

  /** A PAN: five capital letters, four digits, one capital letter. */
  predicate ValidPan(s: string) {
    && |s| == 10
    && (forall i :: 0 <= i < 5 ==> IsAsciiUpper(s[i]))
    && (forall i :: 5 <= i < 9 ==> IsAsciiDigit(s[i]))
    && IsAsciiUpper(s[9])
  }

  /** A postal code: exactly six digits. */
  predicate ValidPostalCode(s: string) {
    |s| == 6 && AllDigits(s)
  }

  /** A phone number: `+91` then exactly ten digits. */
  predicate ValidPhone(s: string) {
    |s| == 13 && s[..3] == "+91" && AllDigits(s[3..])
  }

  predicate NoWhitespace(s: string) {
    forall i :: 0 <= i < |s| ==> !IsWhitespace(s[i])
  }

  /** `d` has a `.` that is neither its first nor its last character. */
  predicate HasInnerDot(d: string) {
    exists j :: 0 < j < |d| - 1 && d[j] == '.'
  }

  /** An e-mail address: no whitespace, exactly one `@` with something
      before it, and a `.` inside the part after it. */
  predicate ValidEmail(s: string) {
    && NoWhitespace(s)
    && exists at :: 0 < at < |s| && s[at] == '@' && '@' !in s[..at] && '@' !in s[at + 1..]
                    && HasInnerDot(s[at + 1..])
  }

  /** The PAN as three runs: five capitals, four digits, one capital. */
  predicate PanRuns(s: string) {
    && |s| == 10
    && AllIn(Between('A', 'Z'), s[..5])
    && AllIn(Between('0', '9'), s[5..9])
    && AllIn(Between('A', 'Z'), s[9..])
  }

  lemma {:induction false} PanPatternRuns(s: string)
    ensures Matches(PanPattern, s) <==> PanRuns(s)
  {
    var up := Between('A', 'Z');
    var dg := Between('0', '9');
    RepeatOneLength(up, 5);
    RepeatOneLength(dg, 4);
    CatFixed(Repeat(Upper, 5), Cat(Repeat(Digit, 4), Repeat(Upper, 1)), 5, s);
    if |s| >= 5 {
      RepeatOne(up, 5, s[..5]);
      var t := s[5..];
      CatFixed(Repeat(Digit, 4), Repeat(Upper, 1), 4, t);
      if |t| >= 4 {
        RepeatOne(dg, 4, t[..4]);
        RepeatOne(up, 1, t[4..]);
        assert t[..4] == s[5..9] && t[4..] == s[9..];
      }
    }
  }

  lemma PanRunsIff(s: string)
    ensures ValidPan(s) <==> PanRuns(s)
  {
    if |s| == 10 {
      assert forall i :: 0 <= i < 4 ==> s[5..9][i] == s[5 + i];
      assert s[9..][0] == s[9];
    }
  }

  /** `validatePan` is the character-level PAN predicate. */
  lemma PanPatternIff(s: string)
    ensures ValidPan(s) <==> Matches(PanPattern, s)
  {
    PanPatternRuns(s);
    PanRunsIff(s);
  }

  lemma PostalPatternIff(s: string)
    ensures ValidPostalCode(s) <==> Matches(PostalPattern, s)
  {
    RepeatOne(Between('0', '9'), 6, s);
  }

  lemma {:induction false} PhonePatternIff(s: string)
    ensures ValidPhone(s) <==> Matches(PhonePattern, s)
  {
    forall x | Matches(Literal("+91"), x) ensures |x| == 3 {
      LiteralIff("+91", x);
    }
    CatFixed(Literal("+91"), Repeat(Digit, 10), 3, s);
    if |s| >= 3 {
      LiteralIff("+91", s[..3]);
      RepeatOne(Between('0', '9'), 10, s[3..]);
    }
  }

  /** The shape `a @ b . c` with `a`, `b`, `c` non-empty runs of `[^\s@]`. */
  ghost predicate EmailParts(s: string, a: string, b: string, c: string) {
    && s == a + ("@" + (b + ("." + c)))
    && |a| >= 1 && AllIn(EmailChar, a)
    && |b| >= 1 && AllIn(EmailChar, b)
    && |c| >= 1 && AllIn(EmailChar, c)
  }

  /** A match of the e-mail pattern has the shape `a @ b . c`. */
  lemma EmailMatchParts(s: string) returns (a: string, b: string, c: string)
    requires Matches(EmailPattern, s)
    ensures EmailParts(s, a, b, c)
  {
    var p := Plus(One(EmailChar));
    var at := One(Exactly('@'));
    var dot := One(Exactly('.'));
    var r1, r2, r3, x, y;
    a, r1 := CatSplit(p, Cat(at, Cat(p, Cat(dot, p))), s);
    x, r2 := CatSplit(at, Cat(p, Cat(dot, p)), r1);
    b, r3 := CatSplit(p, Cat(dot, p), r2);
    y, c := CatSplit(dot, p, r3);
    PlusOne(EmailChar, a);
    PlusOne(EmailChar, b);
    PlusOne(EmailChar, c);
    assert x == "@" && y == ".";
  }

  /** Every string of the shape `a @ b . c` matches the e-mail pattern. */
  lemma EmailPartsMatch(s: string, a: string, b: string, c: string)
    requires EmailParts(s, a, b, c)
    ensures Matches(EmailPattern, s)
  {
    var p := Plus(One(EmailChar));
    var at := One(Exactly('@'));
    var dot := One(Exactly('.'));
    PlusOne(EmailChar, a);
    PlusOne(EmailChar, b);
    PlusOne(EmailChar, c);
    assert Matches(at, "@");
    assert Matches(dot, ".");
    CatOf(dot, p, ".", c);
    CatOf(p, Cat(dot, p), b, "." + c);
    CatOf(at, Cat(p, Cat(dot, p)), "@", b + ("." + c));
    CatOf(p, Cat(at, Cat(p, Cat(dot, p))), a, "@" + (b + ("." + c)));
  }

  /** Neither `@` nor whitespace occurs in a run drawn from `[^\s@]`. */
  lemma EmailCharRun(x: string)
    requires AllIn(EmailChar, x)
    ensures '@' !in x && NoWhitespace(x)
  {
  }

  lemma NoWhitespaceConcat(x: string, y: string)
    requires NoWhitespace(x) && NoWhitespace(y)
    ensures NoWhitespace(x + y)
  {
    forall i | 0 <= i < |x + y| ensures !IsWhitespace((x + y)[i]) {
      if i >= |x| {
        assert (x + y)[i] == y[i - |x|];
      }
    }
  }

  /** A string of the shape `a @ b . c` passes the e-mail predicate. */
  lemma EmailPartsValid(s: string, a: string, b: string, c: string)
    requires EmailParts(s, a, b, c)
    ensures ValidEmail(s)
  {
    EmailCharRun(a);
    EmailCharRun(b);
    EmailCharRun(c);
    var d := b + ("." + c);
    var at := |a|;
    assert s[..at] == a && s[at] == '@' && s[at + 1..] == d;
    assert d[|b|] == '.';
    assert HasInnerDot(d);
    NoWhitespaceConcat(".", c);
    NoWhitespaceConcat(b, "." + c);
    NoWhitespaceConcat("@", d);
    NoWhitespaceConcat(a, "@" + d);
  }

  /** A run with no whitespace and no `@` is drawn from `[^\s@]`. */
  lemma RunOfEmailChars(t: string)
    requires NoWhitespace(t) && '@' !in t
    ensures AllIn(EmailChar, t)
  {
    forall i | 0 <= i < |t| ensures InClass(EmailChar, t[i]) {
      assert t[i] in t;
    }
  }

  lemma NoWhitespaceSlice(s: string, i: int, j: int)
    requires NoWhitespace(s) && 0 <= i <= j <= |s|
    ensures NoWhitespace(s[i..j])
  {
    forall k | 0 <= k < j - i ensures !IsWhitespace(s[i..j][k]) {
      assert s[i..j][k] == s[i + k];
    }
  }

  /** `s` cut around position `at` and, in the rest, around position `j`. */
  lemma SplitAround(s: string, at: int, j: int)
    requires 0 <= at < |s| && 0 <= j < |s| - at - 1
    ensures var d := s[at + 1..];
            s == s[..at] + ([s[at]] + (d[..j] + ([d[j]] + d[j + 1..])))
  {
    var d := s[at + 1..];
    assert s == s[..at] + s[at..];
    assert s[at..] == [s[at]] + d;
    assert d == d[..j] + d[j..];
    assert d[j..] == [d[j]] + d[j + 1..];
  }

  /** A string passing the e-mail predicate has the shape `a @ b . c`. */
  lemma ValidEmailParts(s: string) returns (a: string, b: string, c: string)
    requires ValidEmail(s)
    ensures EmailParts(s, a, b, c)
  {
    var at :| 0 < at < |s| && s[at] == '@' && '@' !in s[..at] && '@' !in s[at + 1..]
              && HasInnerDot(s[at + 1..]);
    var d := s[at + 1..];
    var j :| 0 < j < |d| - 1 && d[j] == '.';
    a, b, c := s[..at], d[..j], d[j + 1..];
    SplitAround(s, at, j);
    NoWhitespaceSlice(s, 0, at);
    NoWhitespaceSlice(s, at + 1, |s|);
    NoWhitespaceSlice(d, 0, j);
    NoWhitespaceSlice(d, j + 1, |d|);
    assert '@' !in b && '@' !in c by {
      assert forall x :: x in b ==> x in d;
      assert forall x :: x in c ==> x in d;
    }
    RunOfEmailChars(a);
    RunOfEmailChars(b);
    RunOfEmailChars(c);
  }

  /** `validateEmail` is the character-level e-mail predicate. */
  lemma {:induction false} EmailPatternIff(s: string)
    ensures ValidEmail(s) <==> Matches(EmailPattern, s)
  {
    if Matches(EmailPattern, s) {
      var a, b, c := EmailMatchParts(s);
      EmailPartsValid(s, a, b, c);
    }
    if ValidEmail(s) {
      var a, b, c := ValidEmailParts(s);
      EmailPartsMatch(s, a, b, c);
    }
  }
}
