/** The e-mail check of the submit handler: the regular expression
    `^[^\s@]+@[^\s@]+\.[^\s@]{2,}$` tested against the whole field.

    `EmailPattern` states what the expression accepts as the existence of a
    split `local @ domain . tld`; `Matches` is a deterministic scanner (the
    automaton of the expression) and is proved to accept exactly those
    strings. Because `.` is itself one of the characters of `[^\s@]`, the
    local part, the domain and the top-level part may all contain dots. */
module EmailCheck {

  /** The characters JavaScript's `\s` matches: WhiteSpace and LineTerminator
      of ECMAScript (tab, vertical tab, form feed, space, no-break space,
      zero width no-break space, the Unicode space separators, line feed,
      carriage return, line and paragraph separator). */
  predicate IsSpace(c: char)
  {
    || c == '\t' || c == '\n' || c == '\U{000B}' || c == '\U{000C}' || c == '\r'
    || c == ' ' || c == '\U{00A0}' || c == '\U{1680}'
    || ('\U{2000}' <= c <= '\U{200A}')
    || c == '\U{2028}' || c == '\U{2029}' || c == '\U{202F}' || c == '\U{205F}'
    || c == '\U{3000}' || c == '\U{FEFF}'
  }

  /** One character of the class `[^\s@]`. */
  predicate Plain(c: char)
  {
    c != '@' && !IsSpace(c)
  }

  predicate AllPlain(s: string)
  {
    forall k :: 0 <= k < |s| ==> Plain(s[k])
  }

  /** `s` splits as `s[..at] + "@" + s[at+1..dot] + "." + s[dot+1..]` with a
      non-empty local part, a non-empty domain and a top-level part of at
      least two characters, none of the three holding `@` or white space. */
  ghost predicate EmailSplit(s: string, at: int, dot: int)
  {
    && 0 < at && at + 1 < dot && dot + 3 <= |s|
    && s[at] == '@' && s[dot] == '.'
    && AllPlain(s[..at]) && AllPlain(s[at + 1..dot]) && AllPlain(s[dot + 1..])
  }

  /** The strings the regular expression accepts. */
  ghost predicate EmailPattern(s: string)
  {
    exists at, dot :: EmailSplit(s, at, dot)
  }

  /** The states of the scanner, named after what has been read so far. */
  datatype Phase =
    | Start    // nothing
    | Local    // a non-empty local part
    | At       // the local part and `@`
    | Domain   // ... and a non-empty domain with no dot after its first character
    | Dot      // ... and a dot that can end the domain
    | Tld1     // ... and one character after the earliest such dot
    | Tld2     // ... and at least two: the string so far is accepted
    | Dead     // no extension of the string can be accepted

  function Next(q: Phase, c: char): Phase
  {
    match q
    case Start => if Plain(c) then Local else Dead
    case Local => if c == '@' then At else if Plain(c) then Local else Dead
    case At => if Plain(c) then Domain else Dead
    case Domain => if c == '.' then Dot else if Plain(c) then Domain else Dead
    case Dot => if Plain(c) then Tld1 else Dead
    case Tld1 => if Plain(c) then Tld2 else Dead
    case Tld2 => if Plain(c) then Tld2 else Dead
    case Dead => Dead
  }

  /** The phase reached after reading all of `s` from `Start`. */
  function Scan(s: string): Phase
  {
    if |s| == 0 then Start else Next(Scan(s[..|s| - 1]), s[|s| - 1])
  }

  /** What each live phase guarantees about the text read so far. */
  ghost predicate Reached(q: Phase, s: string)
  {
    match q
    case Start => s == []
    case Local => |s| >= 1 && AllPlain(s)
    case At => |s| >= 2 && s[|s| - 1] == '@' && AllPlain(s[..|s| - 1])
    case Domain =>
      exists at :: 0 < at < |s| - 1 && s[at] == '@' && AllPlain(s[..at]) && AllPlain(s[at + 1..])
    case Dot => exists at :: DotWithTail(s, at, 0)
    case Tld1 => exists at :: DotWithTail(s, at, 1)
    case Tld2 => EmailPattern(s)
    case Dead => true
  }

  /** `s` is local `@` domain `.` followed by exactly `tail` plain
      characters. */
  ghost predicate DotWithTail(s: string, at: int, tail: nat)
  {
    var dot := |s| - 1 - tail;
    && 0 < at && at + 1 < dot
    && s[at] == '@' && s[dot] == '.'
    && AllPlain(s[..at]) && AllPlain(s[at + 1..dot]) && AllPlain(s[dot + 1..])
  }

  lemma AllPlainAppend(s: string, c: char)
    requires AllPlain(s) && Plain(c)
    ensures AllPlain(s + [c])
  {
  }

  lemma AfterAtStep(p: string, c: char)
    requires |p| >= 2 && p[|p| - 1] == '@' && AllPlain(p[..|p| - 1]) && Plain(c)
    ensures Reached(Domain, p + [c])
  {
    var s, at := p + [c], |p| - 1;
    assert s[..at] == p[..at];
    assert s[at + 1..] == [c];
  }

  lemma DomainStep(p: string, c: char)
    requires Reached(Domain, p) && Next(Domain, c) != Dead
    ensures Reached(Next(Domain, c), p + [c])
  {
    var s := p + [c];
    var at :| 0 < at < |p| - 1 && p[at] == '@' && AllPlain(p[..at]) && AllPlain(p[at + 1..]);
    assert s[..at] == p[..at];
    if c == '.' {
      assert s[at + 1..|p|] == p[at + 1..];
      assert s[|p| + 1..] == [];
      assert DotWithTail(s, at, 0);
    } else {
      assert s[at + 1..] == p[at + 1..] + [c];
      AllPlainAppend(p[at + 1..], c);
    }
  }

  lemma DotStep(p: string, c: char)
    requires Reached(Dot, p) && Plain(c)
    ensures Reached(Tld1, p + [c])
  {
    var s := p + [c];
    var at :| DotWithTail(p, at, 0);
    var dot := |p| - 1;
    assert s[..at] == p[..at];
    assert s[at + 1..dot] == p[at + 1..dot];
    assert s[dot + 1..] == [c];
    assert DotWithTail(s, at, 1);
  }

  lemma Tld1Step(p: string, c: char)
    requires Reached(Tld1, p) && Plain(c)
    ensures Reached(Tld2, p + [c])
  {
    var s := p + [c];
    var at :| DotWithTail(p, at, 1);
    var dot := |p| - 2;
    assert s[..at] == p[..at];
    assert s[at + 1..dot] == p[at + 1..dot];
    assert s[dot + 1..] == p[dot + 1..] + [c];
    AllPlainAppend(p[dot + 1..], c);
    assert EmailSplit(s, at, dot);
  }

  lemma Tld2Step(p: string, c: char)
    requires Reached(Tld2, p) && Plain(c)
    ensures Reached(Tld2, p + [c])
  {
    var s := p + [c];
    var at, dot :| EmailSplit(p, at, dot);
    assert s[..at] == p[..at];
    assert s[at + 1..dot] == p[at + 1..dot];
    assert s[dot + 1..] == p[dot + 1..] + [c];
    AllPlainAppend(p[dot + 1..], c);
    assert EmailSplit(s, at, dot);
  }

  /** One step of the scanner keeps its phase a true description of the
      text read. */
  lemma NextSound(q: Phase, p: string, c: char)
    requires Reached(q, p)
    ensures Reached(Next(q, c), p + [c])
  {
    var s := p + [c];
    match q
    case Start =>
      if Plain(c) { AllPlainAppend(p, c); }
    case Local =>
      if c == '@' {
        assert s[..|s| - 1] == p;
      } else if Plain(c) {
        AllPlainAppend(p, c);
      }
    case At =>
      if Plain(c) { AfterAtStep(p, c); }
    case Domain =>
      if Next(Domain, c) != Dead { DomainStep(p, c); }
    case Dot =>
      if Plain(c) { DotStep(p, c); }
    case Tld1 =>
      if Plain(c) { Tld1Step(p, c); }
    case Tld2 =>
      if Plain(c) { Tld2Step(p, c); }
    case Dead =>
  }

  /** Every phase the scanner reaches describes the text it has read. */
  lemma {:induction false} ScanSound(s: string)
    ensures Reached(Scan(s), s)
  {
    if |s| > 0 {
      var p, c := s[..|s| - 1], s[|s| - 1];
      assert s == p + [c];
      ScanSound(p);
      NextSound(Scan(p), p, c);
    }
  }

  /** The least phase the scanner must have reached after the first `n`
      characters of a string split at `at` and `dot`. */
  ghost predicate AtLeast(q: Phase, at: int, dot: int, n: int)
  {
    if n == 0 then q == Start
    else if n <= at then q == Local
    else if n == at + 1 then q == At
    else if n <= dot then q in {Domain, Dot, Tld1, Tld2}
    else if n == dot + 1 then q in {Dot, Tld1, Tld2}
    else if n == dot + 2 then q in {Tld1, Tld2}
    else q == Tld2
  }

  lemma {:induction false} ScanProgress(s: string, at: int, dot: int, n: nat)
    requires EmailSplit(s, at, dot) && n <= |s|
    ensures AtLeast(Scan(s[..n]), at, dot, n)
  {
    if n > 0 {
      ScanProgress(s, at, dot, n - 1);
      var c := s[n - 1];
      assert s[..n][..n - 1] == s[..n - 1];
      assert Scan(s[..n]) == Next(Scan(s[..n - 1]), c);
      if n <= at {
        assert s[..at][n - 1] == c;
      } else if n == at + 1 {
      } else if n <= dot {
        assert s[at + 1..dot][n - 1 - (at + 1)] == c;
      } else if n == dot + 1 {
      } else {
        assert s[dot + 1..][n - 1 - (dot + 1)] == c;
      }
    }
  }

  /** The scanner accepts a string exactly when the regular expression does. */
  lemma ScanCorrect(s: string)
    ensures Scan(s) == Tld2 <==> EmailPattern(s)
  {
    ScanSound(s);
    if EmailPattern(s) {
      var at, dot :| EmailSplit(s, at, dot);
      ScanProgress(s, at, dot, |s|);
      assert s[..|s|] == s;
    }
  }

  /** `emailPattern.test(email)` of the submit handler. */
  function Matches(s: string): (r: bool)
    ensures r <==> EmailPattern(s)
  {
    ScanCorrect(s);
    Scan(s) == Tld2
  }

  /** A two-letter top-level part is accepted, and so is a domain that
      holds a dot. */
  lemma AcceptedSamples()
    ensures Matches("a@b.co")
    ensures Matches("a@b.c.de")
  {
    assert EmailSplit("a@b.co", 1, 3);
    assert EmailSplit("a@b.c.de", 1, 3);
  }

  /** The expression is looser than address syntax: the domain may be a
      lone dot, and the local part may end in one. */
  lemma LaxSamples()
    ensures Matches("a@..co")
    ensures Matches("a.@b.co")
  {
    assert EmailSplit("a@..co", 1, 3);
    assert EmailSplit("a.@b.co", 2, 4);
  }

  lemma ScanAppend(p: string, c: char)
    ensures Scan(p + [c]) == Next(Scan(p), c)
  {
  }

  /** Once the scanner is `Dead`, no continuation of the text is accepted. */
  lemma {:induction false} DeadIsFinal(p: string, u: string)
    requires Scan(p) == Dead
    ensures Scan(p + u) == Dead
    decreases |u|
  {
    if |u| > 0 {
      var v, c := u[..|u| - 1], u[|u| - 1];
      assert u == v + [c];
      assert p + u == (p + v) + [c];
      DeadIsFinal(p, v);
      ScanAppend(p + v, c);
    } else {
      assert p + u == p;
    }
  }

  /** A missing dot, a one-letter top-level part, a missing `@`, white
      space, a doubled `@` and an empty local part are rejected. */
  lemma RejectedSamples()
    ensures !Matches("a@b")
    ensures !Matches("a@b.c")
    ensures !Matches("ab.com")
    ensures !Matches("a b@c.de")
    ensures !Matches("a@@b.co")
    ensures !Matches("@b.co")
  {
    ScanAppend("a", ' ');
    assert Scan("a ") == Dead;
    DeadIsFinal("a ", "b@c.de");
    assert "a " + "b@c.de" == "a b@c.de";
    ScanAppend("a", '@');
    ScanAppend("a@", '@');
    assert Scan("a@@") == Dead;
    DeadIsFinal("a@@", "b.co");
    assert "a@@" + "b.co" == "a@@b.co";
  }
}
