/** The two field validators of the onboarding form: the name pattern
    `^[a-zA-Z\s]+$` and the email pattern `^[^\s@]+@[^\s@]+\.[^\s@]+$`,
    written as `Regex.Pattern` values, together with a plain description of
    the strings each accepts and the proof that the two agree. */
module Validators {
  import opened Regex

  // ---------------------------------------------------------------- name

  /** `[a-zA-Z\s]`: an ASCII letter or a whitespace character. */
  predicate IsNameChar(c: char)
  {
    ('a' <= c <= 'z') || ('A' <= c <= 'Z') || IsWhitespace(c)
  }

  predicate AllNameChars(s: string)
  {
    forall i :: 0 <= i < |s| ==> IsNameChar(s[i])
  }

  const NameClass: seq<ClassItem> := [Range('a', 'z'), Range('A', 'Z'), Whitespace]

  /** `^[a-zA-Z\s]+$` */
  const NamePattern: Pattern := Plus(Class(false, NameClass))

  lemma NameClassIsNameChar(c: char)
    ensures InClass(false, NameClass, c) <==> IsNameChar(c)
  {
    var rest := NameClass[1..];
    assert rest == [Range('A', 'Z'), Whitespace];
    assert rest[1..] == [Whitespace];
    assert rest[1..][1..] == [];
    assert InSomeItem(NameClass, c) == (InItem(Range('a', 'z'), c) || InSomeItem(rest, c));
    assert InSomeItem(rest, c) == (InItem(Range('A', 'Z'), c) || InSomeItem(rest[1..], c));
    assert InSomeItem(rest[1..], c) == (InItem(Whitespace, c) || InSomeItem(rest[1..][1..], c));
  }

  /** The test `validateName` performs: the name pattern matches the whole
      value, which holds exactly when the value is non-empty and made only of
      ASCII letters and whitespace. */
  function IsValidName(value: string): (isValid: bool)
    ensures isValid <==> |value| > 0 && AllNameChars(value)
  {
    PlusClassMatches(false, NameClass, value);
    forall c: char { NameClassIsNameChar(c); }
    Matches(NamePattern, value)
  }

  // --------------------------------------------------------------- email

  /** `[^\s@]`: neither whitespace nor `@`. */
  predicate IsEmailChar(c: char)
  {
    !IsWhitespace(c) && c != '@'
  }

  predicate AllEmailChars(s: string)
  {
    forall i :: 0 <= i < |s| ==> IsEmailChar(s[i])
  }

  const EmailClass: seq<ClassItem> := [Whitespace, Single('@')]

  /** `[^\s@]+` */
  const EmailWord: Pattern := Plus(Class(true, EmailClass))

  /** `[^\s@]+\.[^\s@]+`, the part after the `@`. */
  const EmailDomain: Pattern := Concat(EmailWord, Concat(Char('.'), EmailWord))

  /** `^[^\s@]+@[^\s@]+\.[^\s@]+$` */
  const EmailPattern: Pattern := Concat(EmailWord, Concat(Char('@'), EmailDomain))

  lemma EmailWordMatches(s: string)
    ensures Matches(EmailWord, s) <==> |s| > 0 && AllEmailChars(s)
  {
    PlusClassMatches(true, EmailClass, s);
    forall c: char ensures InClass(true, EmailClass, c) <==> IsEmailChar(c) {
      var rest := EmailClass[1..];
      assert rest == [Single('@')];
      assert rest[1..] == [];
      assert InSomeItem(EmailClass, c) == (InItem(Whitespace, c) || InSomeItem(rest, c));
      assert InSomeItem(rest, c) == (InItem(Single('@'), c) || InSomeItem(rest[1..], c));
    }
  }

  /** The three words of the email pattern sit at `[..at]`, `[at + 1..dot]`
      and `[dot + 1..]`, with `@` at index `at` and `.` at index `dot`. */
  predicate EmailSplit(s: string, at: int, dot: int)
  {
    && 0 < at && at + 1 < dot && dot + 1 < |s|
    && s[at] == '@' && s[dot] == '.'
    && AllEmailChars(s[..at]) && AllEmailChars(s[at + 1..dot]) && AllEmailChars(s[dot + 1..])
  }

  /** A literal character followed by `p`. */
  lemma CharThenMatches(c: char, p: Pattern, s: string)
    ensures Matches(Concat(Char(c), p), s) <==> |s| > 0 && s[0] == c && Matches(p, s[1..])
  {
  }

  /** `[^\s@]+` followed by `p`. */
  lemma WordThenMatches(p: Pattern, s: string)
    ensures Matches(Concat(EmailWord, p), s) <==>
            exists k :: 0 < k <= |s| && AllEmailChars(s[..k]) && Matches(p, s[k..])
  {
    if Matches(Concat(EmailWord, p), s) {
      var k :| 0 <= k <= |s| && Matches(EmailWord, s[..k]) && Matches(p, s[k..]);
      EmailWordMatches(s[..k]);
    }
    if exists k :: 0 < k <= |s| && AllEmailChars(s[..k]) && Matches(p, s[k..]) {
      var k :| 0 < k <= |s| && AllEmailChars(s[..k]) && Matches(p, s[k..]);
      EmailWordMatches(s[..k]);
    }
  }

  lemma DomainToDot(t: string)
    requires Matches(EmailDomain, t)
    ensures exists k :: 0 < k && k + 1 < |t| && t[k] == '.' &&
                        AllEmailChars(t[..k]) && AllEmailChars(t[k + 1..])
  {
    var afterHost := Concat(Char('.'), EmailWord);
    WordThenMatches(afterHost, t);
    var k :| 0 < k <= |t| && AllEmailChars(t[..k]) && Matches(afterHost, t[k..]);
    var t3 := t[k..];
    CharThenMatches('.', EmailWord, t3);
    EmailWordMatches(t3[1..]);
    assert t[k + 1..] == t3[1..];
  }

  lemma PatternToSplit(s: string)
    requires Matches(EmailPattern, s)
    ensures exists at, dot :: EmailSplit(s, at, dot)
  {
    var afterLocal := Concat(Char('@'), EmailDomain);
    WordThenMatches(afterLocal, s);
    var at :| 0 < at <= |s| && AllEmailChars(s[..at]) && Matches(afterLocal, s[at..]);
    CharThenMatches('@', EmailDomain, s[at..]);
    var t := s[at..][1..];
    DomainToDot(t);
    var k :| 0 < k && k + 1 < |t| && t[k] == '.' && AllEmailChars(t[..k]) && AllEmailChars(t[k + 1..]);
    var dot := at + 1 + k;
    assert s[at + 1..dot] == t[..k];
    assert s[dot + 1..] == t[k + 1..];
    assert s[at] == s[at..][0] && s[dot] == t[k];
    assert EmailSplit(s, at, dot);
  }

  lemma SplitToPattern(s: string, at: int, dot: int)
    requires EmailSplit(s, at, dot)
    ensures Matches(EmailPattern, s)
  {
    var afterHost := Concat(Char('.'), EmailWord);
    var afterLocal := Concat(Char('@'), EmailDomain);
    var t3 := s[dot..];
    assert t3[1..] == s[dot + 1..];
    EmailWordMatches(t3[1..]);
    CharThenMatches('.', EmailWord, t3);
    var t2 := s[at + 1..];
    var k := dot - at - 1;
    assert t2[..k] == s[at + 1..dot] && t2[k..] == t3;
    WordThenMatches(afterHost, t2);
    var t1 := s[at..];
    assert t1[1..] == t2;
    CharThenMatches('@', EmailDomain, t1);
    WordThenMatches(afterLocal, s);
  }

  /** The email pattern matches exactly the strings that split into three
      words around an `@` and a later `.`. */
  lemma EmailPatternSplit(s: string)
    ensures Matches(EmailPattern, s) <==> exists at, dot :: EmailSplit(s, at, dot)
  {
    if Matches(EmailPattern, s) {
      PatternToSplit(s);
    }
    if exists at, dot :: EmailSplit(s, at, dot) {
      var at, dot :| EmailSplit(s, at, dot);
      SplitToPattern(s, at, dot);
    }
  }

  predicate NoWhitespace(s: string)
  {
    forall i :: 0 <= i < |s| ==> !IsWhitespace(s[i])
  }

  /** Index `at` holds the one and only `@` of `s`. */
  predicate IsOnlyAt(s: string, at: int)
  {
    0 <= at < |s| && s[at] == '@' && forall i :: 0 <= i < |s| && s[i] == '@' ==> i == at
  }

  /** `domain` is `x + "." + y` with `x` and `y` non-empty. */
  predicate HasInnerDot(domain: string)
  {
    exists q :: 0 < q < |domain| - 1 && domain[q] == '.'
  }

  /** The strings the email pattern stands for, described without it: no
      whitespace, exactly one `@`, a non-empty local part before it, and a
      domain after it that has a `.` with at least one character on each side. */
  predicate EmailShape(s: string)
  {
    NoWhitespace(s) && exists at :: 0 < at < |s| && IsOnlyAt(s, at) && HasInnerDot(s[at + 1..])
  }

  lemma SplitIsShape(s: string)
    ensures (exists at, dot :: EmailSplit(s, at, dot)) <==> EmailShape(s)
  {
    if exists at, dot :: EmailSplit(s, at, dot) {
      var at, dot :| EmailSplit(s, at, dot);
      forall i | 0 <= i < |s| ensures IsEmailChar(s[i]) || i == at || i == dot {
        if i < at {
          assert s[i] == s[..at][i];
        } else if at < i < dot {
          assert s[i] == s[at + 1..dot][i - at - 1];
        } else if dot < i {
          assert s[i] == s[dot + 1..][i - dot - 1];
        }
      }
      assert IsOnlyAt(s, at);
      assert s[at + 1..][dot - at - 1] == '.';
    }
    if EmailShape(s) {
      var at :| 0 < at < |s| && IsOnlyAt(s, at) && HasInnerDot(s[at + 1..]);
      var q :| 0 < q < |s[at + 1..]| - 1 && s[at + 1..][q] == '.';
      var dot := at + 1 + q;
      assert s[dot] == '.';
      var local, host, tld := s[..at], s[at + 1..dot], s[dot + 1..];
      forall i | 0 <= i < |local| ensures IsEmailChar(local[i]) { assert local[i] == s[i]; }
      forall i | 0 <= i < |host| ensures IsEmailChar(host[i]) { assert host[i] == s[at + 1 + i]; }
      forall i | 0 <= i < |tld| ensures IsEmailChar(tld[i]) { assert tld[i] == s[dot + 1 + i]; }
      assert EmailSplit(s, at, dot);
    }
  }

  /** The test `validateEmail` performs: the email pattern matches the whole
      value, which holds exactly when the value has the shape described by
      `EmailShape`, that is, when it splits as local@host.tld into three
      non-empty words free of whitespace and `@`. */
  function IsValidEmail(value: string): (isValid: bool)
    ensures isValid <==> EmailShape(value)
    ensures isValid <==> exists at, dot :: EmailSplit(value, at, dot)
  {
    EmailPatternSplit(value);
    SplitIsShape(value);
    Matches(EmailPattern, value)
  }

  // ------------------------------------------------------------ examples

  lemma NameExamples()
    ensures IsValidName("Ada Lovelace")
    ensures IsValidName(" ")
    ensures !IsValidName("")
    ensures !IsValidName("R2D2")
    ensures !IsValidName("Zoë")
  {
    assert !IsNameChar("R2D2"[1]);
    assert !IsNameChar("Zoë"[2]);
  }

  lemma EmailAcceptedExamples()
    ensures IsValidEmail("ada@example.org")
    ensures IsValidEmail("a.b@c.d.e")
  {
    assert EmailSplit("ada@example.org", 3, 11);
    assert EmailSplit("a.b@c.d.e", 3, 5);
  }

  /** No `.` after the `@`. */
  lemma EmailWithoutDotRejected()
    ensures !IsValidEmail("ada@example")
  {
  }

  /** Empty local part. */
  lemma EmailWithoutLocalPartRejected()
    ensures !IsValidEmail("@example.org")
  {
  }

  /** Empty host before the `.`. */
  lemma EmailWithoutHostRejected()
    ensures !IsValidEmail("ada@.org")
  {
  }

  /** Whitespace inside the address. */
  lemma EmailWithSpaceRejected()
    ensures !IsValidEmail("ada lovelace@example.org")
  {
    assert IsWhitespace("ada lovelace@example.org"[3]);
  }

  /** Two `@` signs. */
  lemma EmailWithTwoAtsRejected()
    ensures !IsValidEmail("ada@@example.org")
  {
    var twoAts := "ada@@example.org";
    forall at | 0 < at < |twoAts| ensures !IsOnlyAt(twoAts, at) {
      assert twoAts[3] == '@' && twoAts[4] == '@';
    }
  }
}
