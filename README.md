# Onboarding form: field validation and profile seeding

This project models the logic of the onboarding form of the wiseapply web
application (`OnboardingContent`, a React client component) and proves its
properties in Dafny. The form holds seven state variables: `isLoading`,
`name`, `email`, `linkedinUrl`, `otherUrls`, `nameError` and `emailError`.
They get their initial values on the first render. An effect then seeds them
from the signed-in user. After that they change only through the input
handlers. The name and email handlers re-run a validator, which writes the
matching error field.

- `Regex.dfy` (module `Regex`): the fragment of JavaScript regular
  expressions the validators use. It covers literals, classes with ranges,
  single characters and `\s`, negation, `+` and concatenation. `Matches`
  says when a pattern matches a whole string, which is what
  `RegExp.prototype.test` computes for a pattern anchored by `^…$`. `\s`
  is the exact ECMAScript set: the WhiteSpace and LineTerminator code points.
- `Validators.dfy` (module `Validators`): the two patterns `^[a-zA-Z\s]+$`
  and `^[^\s@]+@[^\s@]+\.[^\s@]+$` written as `Pattern` values. Each comes
  with a description, in plain terms, of the strings it accepts, and a proof
  that the pattern and the description agree.
- `Onboarding.dfy` (module `Onboarding`): the user record, the seeding
  functions, and the class `OnboardingContent`. Its fields are the seven state
  variables, and it has one method per state change: initial state, seeding
  effect, the two validators and the four change handlers. `Mount` runs the
  first render followed by the effect.

The user is modelled as an optional record of three optional strings. The
source's `a && b` and `x || ''` use JavaScript truthiness: a value is truthy
when present and non-empty. The model spells this out as `Truthy`. The
localized messages `en.nameError` and `en.emailError` are opaque: they are
passed in as a `Messages` value.

The code has no separate "untouched" state for the name. An empty name fails
the name pattern. It shows no error only because nothing validates it before
the first edit (`Mount`). The LinkedIn prefill is commented out
(OnboardingContent.tsx:25), so the effect always clears that field.

## Model

| member | source | states |
|---|---|---|
| `Regex.PlusClassMatches` | app/onboarding/OnboardingContent.tsx:32 | a character class under `+` matches exactly the non-empty strings all of whose characters are in the class |
| `Validators.IsValidName` | app/onboarding/OnboardingContent.tsx:32 | the name test accepts a value iff it is non-empty and every character is an ASCII letter or whitespace |
| `Validators.NameExamples` | app/onboarding/OnboardingContent.tsx:32 | "Ada Lovelace" and " " pass; "", "R2D2" and a name with a non-ASCII letter fail |
| `Validators.EmailPatternSplit` | app/onboarding/OnboardingContent.tsx:38 | the email pattern matches iff the string is word `@` word `.` word, each word non-empty and free of whitespace and `@` |
| `Validators.SplitIsShape` | app/onboarding/OnboardingContent.tsx:38 | that split exists iff there is no whitespace, exactly one `@` with a non-empty local part before it, and the domain has a `.` with at least one character on each side |
| `Validators.IsValidEmail` | app/onboarding/OnboardingContent.tsx:38 | the email test accepts a value iff it has that shape, equivalently that split |
| `Validators.EmailAcceptedExamples` | app/onboarding/OnboardingContent.tsx:38 | "ada@example.org" and "a.b@c.d.e" pass (dots may repeat in both parts) |
| `Validators.EmailWithoutDotRejected` | app/onboarding/OnboardingContent.tsx:38 | a domain without `.` fails |
| `Validators.EmailWithoutLocalPartRejected` | app/onboarding/OnboardingContent.tsx:38 | an empty local part fails |
| `Validators.EmailWithoutHostRejected` | app/onboarding/OnboardingContent.tsx:38 | a domain whose `.` comes first fails |
| `Validators.EmailWithSpaceRejected` | app/onboarding/OnboardingContent.tsx:38 | an embedded space fails |
| `Validators.EmailWithTwoAtsRejected` | app/onboarding/OnboardingContent.tsx:38 | two `@` signs fail |
| `Onboarding.SeedName` | app/onboarding/OnboardingContent.tsx:23 | the seeded name is empty iff given or family name is missing or empty; otherwise it is given name, one space, family name |
| `Onboarding.SeedEmail` | app/onboarding/OnboardingContent.tsx:24 | the seeded email is the user's email when present and "" when missing |
| `Onboarding.SeedNameValidity` | app/onboarding/OnboardingContent.tsx:23 | a seeded name passes the name test iff both parts are present and consist of letters and whitespace; an unseeded (empty) name fails it |
| `Onboarding.OnboardingContent.constructor` | app/onboarding/OnboardingContent.tsx:12-18 | `isLoading` is true iff there is no user; all four text fields and both error fields are "" |
| `Onboarding.OnboardingContent.Seed` | app/onboarding/OnboardingContent.tsx:20-29 | with a user: name and email seeded, LinkedIn URL "", loading ends; without one nothing changes; other URLs and both errors are never touched; loading never restarts |
| `Onboarding.OnboardingContent.ValidateName` | app/onboarding/OnboardingContent.tsx:31-35 | returns the name test's verdict and sets `nameError` to "" when it passes and to the fixed message otherwise; only `nameError` changes |
| `Onboarding.OnboardingContent.ValidateEmail` | app/onboarding/OnboardingContent.tsx:37-41 | the same for the email test and `emailError` |
| `Onboarding.OnboardingContent.OnNameChange` | app/onboarding/OnboardingContent.tsx:72-75 | `name` becomes `e.target.value` and `nameError` reflects that same value; with a non-empty message the error shows iff the name is invalid; nothing else changes |
| `Onboarding.OnboardingContent.OnEmailChange` | app/onboarding/OnboardingContent.tsx:88-91 | the same for `email` and `emailError` |
| `Onboarding.OnboardingContent.OnLinkedinUrlChange` | app/onboarding/OnboardingContent.tsx:104 | only `linkedinUrl` changes, to `e.target.value`; no validation |
| `Onboarding.OnboardingContent.OnOtherUrlsChange` | app/onboarding/OnboardingContent.tsx:118 | only `otherUrls` changes, to `e.target.value`; no validation |
| `Onboarding.Mount` | app/onboarding/OnboardingContent.tsx:11-29 | after the first render and the effect: spinner iff no user, seeded name and email, empty URLs, and no error shown even when the seeded name fails the name test |

The class invariant `OnboardingContent.Valid` holds after every operation. It
says that each error field is either "" or its fixed message, and that the
form keeps loading while there is no user.

## Left out

- Rendering: the JSX markup, class strings, the spinner and the static
  upload/import buttons (OnboardingContent.tsx:43-125). They are presentation.
  That the inputs exist only once loading has ended is not modelled either,
  so the handlers require only the class invariant `Valid()`.
- `console.log(user)` (line 22). It is output only.
- The string table `en.json`: the two error texts are parameters.
- React scheduling. Setter calls take effect at once and in program order,
  which gives the same end state as React's batched updates here. The effect
  is modelled as running on the mounted `user` prop. A re-render with a
  different `user` prop is not modelled: the prop is a constant of the object.
- The session lookups (`getUser`, `getAccessTokenRaw`), the login and logout
  links, `Button.tsx` and `UserAvatar.tsx`. They are calls into the identity
  provider's library, or styling and tooltip state.
- Browser value sanitization of the inputs (newlines are stripped, and for
  `type="email"`/`type="url"` leading and trailing whitespace too): a
  handler's `value` is whatever `e.target.value` delivers.
- UTF-16: JavaScript regular expressions without the `u` flag see UTF-16
  code units, while Dafny strings hold Unicode scalar values. For these two
  patterns the verdict is the same: no surrogate half is in `[a-zA-Z\s]`,
  and both halves are in `[^\s@]`.
- The `\s` set follows the current ECMAScript definition with today's Unicode
  space separators. Older engines or Unicode versions may differ slightly.
