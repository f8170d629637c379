/** The state of the onboarding form component (`OnboardingContent`): seven
    state variables, their initial values, the effect that seeds them from the
    signed-in user, the two validators that write the error fields, and the
    change handlers of the four inputs. */
module Onboarding {
  import opened Validators

  datatype Option<T> = None | Some(value: T)

  /** The parts of the signed-in user's profile the form reads; any of them
      may be missing. */
  datatype User = User(givenName: Option<string>, familyName: Option<string>, email: Option<string>)

  /** The localized texts `en.nameError` and `en.emailError`. Their contents are
      not known to the form. */
  datatype Messages = Messages(nameError: string, emailError: string)

  /** JavaScript truthiness of an optional string: present and not empty. */
  predicate Truthy(s: Option<string>)
  {
    s.Some? && s.value != ""
  }

  /** The name the effect seeds: given and family name joined by one space when
      both are truthy, and the empty string otherwise. */
  function SeedName(u: User): (name: string)
    ensures name == "" <==> !(Truthy(u.givenName) && Truthy(u.familyName))
    ensures Truthy(u.givenName) && Truthy(u.familyName) ==>
      var given, family := u.givenName.value, u.familyName.value;
      && |name| == |given| + 1 + |family|
      && name[..|given|] == given && name[|given|] == ' ' && name[|given| + 1..] == family
  {
    if Truthy(u.givenName) && Truthy(u.familyName) then
      u.givenName.value + " " + u.familyName.value
    else
      ""
  }

  /** The email the effect seeds, `user.email || ''`: the user's email when
      there is one (an empty one gives the same empty string), else empty. */
  function SeedEmail(u: User): (email: string)
    ensures email == (if u.email.Some? then u.email.value else "")
  {
    if Truthy(u.email) then u.email.value else ""
  }

  /** A seeded name passes the name validator exactly when both parts are
      present and consist of ASCII letters and whitespace only; in particular
      the empty name seeded for a user without both parts fails it. */
  lemma SeedNameValidity(u: User)
    ensures IsValidName(SeedName(u)) <==>
            Truthy(u.givenName) && Truthy(u.familyName) &&
            AllNameChars(u.givenName.value) && AllNameChars(u.familyName.value)
  {
  }

  class OnboardingContent {
    /** The `user` prop and the string table; neither changes while mounted. */
    const user: Option<User>
    const messages: Messages

    var isLoading: bool
    var name: string
    var email: string
    var linkedinUrl: string
    var otherUrls: string
    var nameError: string
    var emailError: string

    /** Each error field is either clear or holds its fixed message, and the
        spinner stays up for as long as there is no user. */
    ghost predicate Valid()
      reads this
    {
      && (nameError == "" || nameError == messages.nameError)
      && (emailError == "" || emailError == messages.emailError)
      && (user.None? ==> isLoading)
    }

    /** The `useState` initial values of the first render. */
    constructor (user: Option<User>, messages: Messages)
      ensures Valid()
      ensures this.user == user && this.messages == messages
      ensures isLoading <==> user.None?
      ensures name == "" && email == "" && linkedinUrl == "" && otherUrls == ""
      ensures nameError == "" && emailError == ""
    {
      this.user := user;
      this.messages := messages;
      isLoading := user.None?;
      name := "";
      email := "";
      linkedinUrl := "";
      otherUrls := "";
      nameError := "";
      emailError := "";
    }

    /** The effect on `[user]`. With a user it seeds name and email, clears the
        LinkedIn URL whatever the profile holds, and ends loading; without one
        it changes nothing. It never validates, and never starts loading again. */
    method Seed()
      requires Valid()
      modifies this`isLoading, this`name, this`email, this`linkedinUrl
      ensures Valid()
      ensures user.None? ==>
        isLoading == old(isLoading) && name == old(name) &&
        email == old(email) && linkedinUrl == old(linkedinUrl)
      ensures user.Some? ==>
        !isLoading && name == SeedName(user.value) &&
        email == SeedEmail(user.value) && linkedinUrl == ""
      ensures isLoading ==> old(isLoading)
    {
      if user.Some? {
        name := SeedName(user.value);
        email := SeedEmail(user.value);
        linkedinUrl := "";
        isLoading := false;
      }
    }

    /** `validateName`: tests the value against the name pattern, clears the
        error when it passes and sets the fixed message when it does not. */
    method ValidateName(value: string) returns (isValid: bool)
      requires Valid()
      modifies this`nameError
      ensures Valid()
      ensures isValid == IsValidName(value)
      ensures nameError == if isValid then "" else messages.nameError
    {
      isValid := IsValidName(value);
      nameError := if isValid then "" else messages.nameError;
    }

    /** `validateEmail`: the same for the email pattern and its message. */
    method ValidateEmail(value: string) returns (isValid: bool)
      requires Valid()
      modifies this`emailError
      ensures Valid()
      ensures isValid == IsValidEmail(value)
      ensures emailError == if isValid then "" else messages.emailError
    {
      isValid := IsValidEmail(value);
      emailError := if isValid then "" else messages.emailError;
    }

    /** The name input's `onChange`: store `e.target.value`, then validate that
        same value. An error is shown afterwards exactly when it is invalid. */
    method OnNameChange(value: string)
      requires Valid()
      modifies this`name, this`nameError
      ensures Valid()
      ensures name == value
      ensures nameError == if IsValidName(value) then "" else messages.nameError
      ensures messages.nameError != "" ==> (nameError == "" <==> IsValidName(name))
    {
      name := value;
      var _ := ValidateName(value);
    }

    /** The email input's `onChange`. */
    method OnEmailChange(value: string)
      requires Valid()
      modifies this`email, this`emailError
      ensures Valid()
      ensures email == value
      ensures emailError == if IsValidEmail(value) then "" else messages.emailError
      ensures messages.emailError != "" ==> (emailError == "" <==> IsValidEmail(email))
    {
      email := value;
      var _ := ValidateEmail(value);
    }

    /** The LinkedIn input's `onChange`: stores `e.target.value`, validates nothing. */
    method OnLinkedinUrlChange(value: string)
      requires Valid()
      modifies this`linkedinUrl
      ensures Valid()
      ensures linkedinUrl == value
    {
      linkedinUrl := value;
    }

    /** The other-URLs input's `onChange`: stores `e.target.value`, validates nothing. */
    method OnOtherUrlsChange(value: string)
      requires Valid()
      modifies this`otherUrls
      ensures Valid()
      ensures otherUrls == value
    {
      otherUrls := value;
    }
  }

  /** Mounting the component: the first render's initial state, then the
      effect. The spinner shows exactly when there is no user, and neither
      error is shown, even when the seeded name fails the name pattern. */
  method Mount(user: Option<User>, messages: Messages) returns (form: OnboardingContent)
    ensures fresh(form) && form.Valid()
    ensures form.user == user && form.messages == messages
    ensures form.isLoading <==> user.None?
    ensures form.name == (if user.Some? then SeedName(user.value) else "")
    ensures form.email == (if user.Some? then SeedEmail(user.value) else "")
    ensures form.linkedinUrl == "" && form.otherUrls == ""
    ensures form.nameError == "" && form.emailError == ""
  {
    form := new OnboardingContent(user, messages);
    form.Seed();
  }
}
