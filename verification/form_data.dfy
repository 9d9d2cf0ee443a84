/** The component's field record (`formData`) and its change handler
    (`handleChange`). */
module FormData {

  /** The two independent language check boxes; nothing makes them exclusive. */
  datatype Languages = Languages(english: bool, nonEnglish: bool)

  datatype FormState = FormState(
    userId: string,
    password: string,
    name: string,
    address: string,
    country: string,
    zipCode: string,
    email: string,
    sex: string,
    languages: Languages,
    about: string)

  /** The top-level fields an input, select, radio group or text area of the
      form is bound to by its `name`. */
  datatype TextField =
    UserId | Password | Name | Address | Country | ZipCode | Email | Sex | About

  /** The `name`s of the two check boxes, keys of the nested `languages`. */
  datatype LanguageFlag = English | NonEnglish

  /** A change event as the handler reads it from `e.target`: a check box
      delivers its name and `checked`, every other control its name and
      `value`. */
  datatype InputEvent =
    | Toggle(flag: LanguageFlag, checked: bool)
    | Edit(field: TextField, value: string)

  /** The value of the radio button the form starts on. */
  const DefaultSex: string := "Мужской"

  /** The state the component is created with. */
  const Initial: FormState :=
    FormState("", "", "", "", "", "", "", DefaultSex, Languages(false, false), "")

  /** `formData[field]` for a top-level string field. */
  function Get(s: FormState, f: TextField): string
  {
    match f
    case UserId => s.userId
    case Password => s.password
    case Name => s.name
    case Address => s.address
    case Country => s.country
    case ZipCode => s.zipCode
    case Email => s.email
    case Sex => s.sex
    case About => s.about
  }

  /** `formData.languages[flag]`. */
  function Flag(s: FormState, l: LanguageFlag): bool
  {
    match l
    case English => s.languages.english
    case NonEnglish => s.languages.nonEnglish
  }

  /** Two states that agree on every field and every flag are the same state:
      `Get` and `Flag` observe all of a `FormState`. */
  lemma Extensionality(a: FormState, b: FormState)
    requires forall f :: Get(a, f) == Get(b, f)
    requires forall l :: Flag(a, l) == Flag(b, l)
    ensures a == b
  {
    assert Get(a, UserId) == Get(b, UserId) && Get(a, Password) == Get(b, Password);
    assert Get(a, Name) == Get(b, Name) && Get(a, Address) == Get(b, Address);
    assert Get(a, Country) == Get(b, Country) && Get(a, ZipCode) == Get(b, ZipCode);
    assert Get(a, Email) == Get(b, Email) && Get(a, Sex) == Get(b, Sex);
    assert Get(a, About) == Get(b, About);
    assert Flag(a, English) == Flag(b, English) && Flag(a, NonEnglish) == Flag(b, NonEnglish);
  }

  /** Every text field starts empty except the sex radio group, which starts
      on its default, and both language boxes start unchecked. */
  lemma InitialState()
    ensures forall f :: f != Sex ==> Get(Initial, f) == ""
    ensures Get(Initial, Sex) == "Мужской"
    ensures forall l :: !Flag(Initial, l)
  {
  }

  /** The next state after one change event: a check box rewrites one
      language flag, any other control overwrites one top-level field. */
  function Change(s: FormState, e: InputEvent): (r: FormState)
    ensures forall f :: Get(r, f) == (if e.Edit? && e.field == f then e.value else Get(s, f))
    ensures forall l :: Flag(r, l) == (if e.Toggle? && e.flag == l then e.checked else Flag(s, l))
  {
    match e
    case Toggle(English, b) => s.(languages := s.languages.(english := b))
    case Toggle(NonEnglish, b) => s.(languages := s.languages.(nonEnglish := b))
    case Edit(f, v) =>
      match f
      case UserId => s.(userId := v)
      case Password => s.(password := v)
      case Name => s.(name := v)
      case Address => s.(address := v)
      case Country => s.(country := v)
      case ZipCode => s.(zipCode := v)
      case Email => s.(email := v)
      case Sex => s.(sex := v)
      case About => s.(about := v)
  }

  /** The state after the change events `es`, delivered in order. */
  function ApplyChanges(s: FormState, es: seq<InputEvent>): FormState
    decreases |es|
  {
    if |es| == 0 then s else ApplyChanges(Change(s, es[0]), es[1..])
  }

  /** Toggling one language box never alters the other one, and a check-box
      event leaves every top-level field as it was. */
  lemma ToggleFrame(s: FormState, l: LanguageFlag, b: bool, other: LanguageFlag)
    requires other != l
    ensures Flag(Change(s, Toggle(l, b)), l) == b
    ensures Flag(Change(s, Toggle(l, b)), other) == Flag(s, other)
    ensures forall f :: Get(Change(s, Toggle(l, b)), f) == Get(s, f)
  {
  }

  /** An edit sets its field to the event's value and leaves every other
      field and the whole `languages` record as they were. */
  lemma EditFrame(s: FormState, f: TextField, v: string)
    ensures Get(Change(s, Edit(f, v)), f) == v
    ensures forall g :: g != f ==> Get(Change(s, Edit(f, v)), g) == Get(s, g)
    ensures Change(s, Edit(f, v)).languages == s.languages
  {
  }

  /** Delivering the value a control already shows changes nothing. */
  lemma ChangeToCurrentIsIdentity(s: FormState, e: InputEvent)
    requires e.Edit? ==> e.value == Get(s, e.field)
    requires e.Toggle? ==> e.checked == Flag(s, e.flag)
    ensures Change(s, e) == s
  {
  }

  /** Two events on the same control: the later one wins. */
  lemma LastChangeWins(s: FormState, e1: InputEvent, e2: InputEvent)
    requires e1.Edit? == e2.Edit?
    requires e1.Edit? ==> e1.field == e2.field
    requires e1.Toggle? ==> e1.flag == e2.flag
    ensures Change(Change(s, e1), e2) == Change(s, e2)
  {
  }

  /** Events on different controls commute. */
  lemma IndependentChangesCommute(s: FormState, e1: InputEvent, e2: InputEvent)
    requires e1.Edit? && e2.Edit? ==> e1.field != e2.field
    requires e1.Toggle? && e2.Toggle? ==> e1.flag != e2.flag
    ensures Change(Change(s, e1), e2) == Change(Change(s, e2), e1)
  {
    Extensionality(Change(Change(s, e1), e2), Change(Change(s, e2), e1));
  }
}
