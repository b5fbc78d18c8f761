/** The fragment of JavaScript regular expressions the form's validators
    use, with a set-of-strings meaning. Every pattern in the form is anchored
    by `^` and `$` (and has no `m` flag), so `RegExp.test` succeeds exactly
    when the whole input is in the pattern's language; `Matches` is that
    language. */
module Regex {
  import opened Text

  /** An escape or bracket expression that matches one character. */
  datatype CharClass =
    | Exactly(c: char)                        // a literal such as `@` or `\+`
    | Between(lo: char, hi: char)             // `[A-Z]`, `[0-9]`, `\d`
    | NoneOf(whitespace: bool, chars: string) // `[^\s@]`

  predicate InClass(k: CharClass, c: char) {
    match k
    case Exactly(x) => c == x
    case Between(lo, hi) => lo <= c <= hi
    case NoneOf(ws, xs) => !(ws && IsWhitespace(c)) && c !in xs
  }

  predicate AllIn(k: CharClass, s: string) {
    forall i :: 0 <= i < |s| ==> InClass(k, s[i])
  }

  datatype Re =
    | Empty                    // matches only ""
    | One(k: CharClass)        // one character of the class
    | Cat(left: Re, right: Re) // concatenation
    | Plus(body: Re)           // `r+`

  /** `r{n}`. */
  function Repeat(r: Re, n: nat): Re {
    if n == 0 then Empty else Cat(r, Repeat(r, n - 1))
  }

  /** The pattern matching exactly the text `w`. */
  function Literal(w: string): Re {
    if w == [] then Empty else Cat(One(Exactly(w[0])), Literal(w[1..]))
  }

  /** `s` is in the language of `r`. */
  ghost predicate Matches(r: Re, s: string)
    decreases r, |s|
  {
    match r
    case Empty => s == []
    case One(k) => |s| == 1 && InClass(k, s[0])
    case Cat(a, b) =>
      exists n :: 0 <= n <= |s| && Matches(a, s[..n]) && Matches(b, s[n..])
    case Plus(a) =>
      || Matches(a, s)
      || exists n :: 0 < n < |s| && Matches(a, s[..n]) && Matches(Plus(a), s[n..])
  }

  /** Concatenating a match of `a` and a match of `b` matches `Cat(a, b)`. */
  lemma CatOf(a: Re, b: Re, x: string, y: string)
    requires Matches(a, x) && Matches(b, y)
    ensures Matches(Cat(a, b), x + y)
  {
    assert (x + y)[..|x|] == x;
    assert (x + y)[|x|..] == y;
  }

  /** A match of `Cat(a, b)` is a match of `a` followed by a match of `b`. */
  lemma CatSplit(a: Re, b: Re, s: string) returns (x: string, y: string)
    requires Matches(Cat(a, b), s)
    ensures s == x + y && Matches(a, x) && Matches(b, y)
  {
    var n :| 0 <= n <= |s| && Matches(a, s[..n]) && Matches(b, s[n..]);
    x, y := s[..n], s[n..];
  }

  /** When every match of `a` has length `n`, a match of `Cat(a, b)` splits
      at `n`. */
  lemma CatFixed(a: Re, b: Re, n: nat, s: string)
    requires forall x :: Matches(a, x) ==> |x| == n
    ensures Matches(Cat(a, b), s) <==> n <= |s| && Matches(a, s[..n]) && Matches(b, s[n..])
  {
  }

  /** `[k]{n}` matches exactly the strings of length `n` drawn from `k`. */
  lemma {:induction false} RepeatOne(k: CharClass, n: nat, s: string)
    ensures Matches(Repeat(One(k), n), s) <==> |s| == n && AllIn(k, s)
  {
    if n > 0 {
      var rest := Repeat(One(k), n - 1);
      if |s| > 0 {
        RepeatOne(k, n - 1, s[1..]);
      }
      if Matches(Repeat(One(k), n), s) {
        var m :| 0 <= m <= |s| && Matches(One(k), s[..m]) && Matches(rest, s[m..]);
        assert m == 1;
      }
      if |s| == n && AllIn(k, s) {
        assert Matches(One(k), s[..1]);
      }
    }
  }

  /** Every match of `[k]{n}` has length `n`. */
  lemma RepeatOneLength(k: CharClass, n: nat)
    ensures forall x :: Matches(Repeat(One(k), n), x) ==> |x| == n
  {
    forall x | Matches(Repeat(One(k), n), x) ensures |x| == n {
      RepeatOne(k, n, x);
    }
  }

  /** `[k]+` matches exactly the non-empty strings drawn from `k`. */
  lemma {:induction false} PlusOne(k: CharClass, s: string)
    ensures Matches(Plus(One(k)), s) <==> |s| >= 1 && AllIn(k, s)
    decreases |s|
  {
    if |s| > 1 {
      PlusOne(k, s[1..]);
      if Matches(Plus(One(k)), s) {
        if !Matches(One(k), s) {
          var m :| 0 < m < |s| && Matches(One(k), s[..m]) && Matches(Plus(One(k)), s[m..]);
          assert m == 1;
        }
      }
      if AllIn(k, s) {
        assert Matches(One(k), s[..1]);
      }
    }
  }

  /** A literal pattern matches its own text and nothing else. */
  lemma {:induction false} LiteralIff(w: string, s: string)
    ensures Matches(Literal(w), s) <==> s == w
  {
    if w != [] {
      var head := One(Exactly(w[0]));
      if |s| > 0 {
        LiteralIff(w[1..], s[1..]);
      }
      if Matches(Literal(w), s) {
        var m :| 0 <= m <= |s| && Matches(head, s[..m]) && Matches(Literal(w[1..]), s[m..]);
        assert m == 1;
        assert s == s[..1] + s[1..];
      }
      if s == w {
        assert Matches(head, s[..1]);
      }
    }
  }
}
