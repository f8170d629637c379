/** The fragment of JavaScript regular expressions that the onboarding form's
    validators use: literal characters, character classes (plain and negated,
    with ranges, single characters and `\s`), the `+` quantifier and
    concatenation. Both validator patterns are anchored with `^` and `$`
    (no flags), so `RegExp.prototype.test` on them asks for a match of the
    whole string, which is what `Matches` defines. */
module Regex {

  /** The `\s` escape of an ECMAScript regular expression: the code points of
      the WhiteSpace and LineTerminator productions (tab, vertical tab, form
      feed, space, no-break space, the Zs space separators, the byte order
      mark, line feed, carriage return, line and paragraph separators). */
  predicate IsWhitespace(c: char)
  {
    || c == '\t' || c == '\n' || c == '\U{000B}' || c == '\U{000C}' || c == '\r'
    || c == ' ' || c == '\U{00A0}' || c == '\U{1680}'
    || ('\U{2000}' <= c <= '\U{200A}')
    || c == '\U{2028}' || c == '\U{2029}' || c == '\U{202F}' || c == '\U{205F}'
    || c == '\U{3000}' || c == '\U{FEFF}'
  }

  /** One entry between the brackets of a character class. */
  datatype ClassItem =
    | Range(lo: char, hi: char)   // `a-z`
    | Single(c: char)             // `@`
    | Whitespace                  // `\s`

  datatype Pattern =
    | Char(c: char)                                 // a literal such as `@` or `\.`
    | Class(negated: bool, items: seq<ClassItem>)   // `[...]`, or `[^...]` when negated
    | Plus(p: Pattern)                              // `p+`
    | Concat(left: Pattern, right: Pattern)         // `left` followed by `right`

  predicate InItem(item: ClassItem, c: char)
  {
    match item
    case Range(lo, hi) => lo <= c <= hi
    case Single(d) => c == d
    case Whitespace => IsWhitespace(c)
  }

  predicate InSomeItem(items: seq<ClassItem>, c: char)
  {
    |items| > 0 && (InItem(items[0], c) || InSomeItem(items[1..], c))
  }

  /** A character belongs to `[items]` when some item admits it, and to
      `[^items]` when none does. */
  predicate InClass(negated: bool, items: seq<ClassItem>, c: char)
  {
    InSomeItem(items, c) != negated
  }

  /** Does `p` match the whole of `s`? For `q+` the string is one match of `q`,
      or a non-empty match of `q` followed by a match of `q+`; pieces that match
      the empty string add nothing, so requiring the first piece of a split to be
      non-empty loses no string. */
  predicate Matches(p: Pattern, s: string)
    decreases p, |s|
  {
    match p
    case Char(c) => |s| == 1 && s[0] == c
    case Class(negated, items) => |s| == 1 && InClass(negated, items, s[0])
    case Plus(q) =>
      || Matches(q, s)
      || exists k :: 0 < k < |s| && Matches(q, s[..k]) && Matches(p, s[k..])
    case Concat(left, right) =>
      exists k :: 0 <= k <= |s| && Matches(left, s[..k]) && Matches(right, s[k..])
  }

  /** `[...]+` matches exactly the non-empty strings all of whose characters
      belong to the class. */
  lemma {:induction false} PlusClassMatches(negated: bool, items: seq<ClassItem>, s: string)
    ensures Matches(Plus(Class(negated, items)), s) <==>
            |s| > 0 && forall i :: 0 <= i < |s| ==> InClass(negated, items, s[i])
    decreases |s|
  {
    var cls := Class(negated, items);
    if |s| > 1 {
      PlusClassMatches(negated, items, s[1..]);
      if Matches(Plus(cls), s) {
        if !Matches(cls, s) {
          var k :| 0 < k < |s| && Matches(cls, s[..k]) && Matches(Plus(cls), s[k..]);
          assert k == 1;
          forall i | 0 <= i < |s| ensures InClass(negated, items, s[i]) {
            if i > 0 { assert s[i] == s[1..][i - 1]; }
          }
        }
      }
      if forall i :: 0 <= i < |s| ==> InClass(negated, items, s[i]) {
        assert Matches(cls, s[..1]);
        forall i | 0 <= i < |s[1..]| ensures InClass(negated, items, s[1..][i]) {
          assert s[1..][i] == s[i + 1];
        }
        assert Matches(cls, s[..1]) && Matches(Plus(cls), s[1..]);
      }
    }
  }
}
