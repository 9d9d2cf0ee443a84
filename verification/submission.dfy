/** The submit handler (`handleSubmit`): three checks run in order and stop
    at the first failure; on success a fresh snapshot replaces the old one. */
module Submission {
  import opened Wrappers
  import opened EmailCheck
  import opened FormData

  /** The three reasons a submission is refused, one per alert. */
  datatype ValidationError = UserIdLength | PasswordLength | EmailFormat

  datatype Verdict = Pass | Fail(error: ValidationError)

  /** The display record shown under the form after a successful submit:
      the photo line and the field values at that moment. */
  datatype Snapshot = Snapshot(photo: string, data: FormState)

  const MinUserId := 5
  const MaxUserId := 7
  const MinPassword := 7
  const MaxPassword := 12

  const NoPhoto: string := "Нет фото"
  const PhotoPrefix: string := "Фото: "

  ghost predicate UserIdOk(s: FormState)
  {
    MinUserId <= |s.userId| <= MaxUserId
  }

  ghost predicate PasswordOk(s: FormState)
  {
    MinPassword <= |s.password| <= MaxPassword
  }

  /** The checks of the submit handler, in the order the handler runs
      them, stopping at the first that fails. */
  function Validate(s: FormState): (r: Verdict)
    ensures r == Fail(UserIdLength) <==> !UserIdOk(s)
    ensures r == Fail(PasswordLength) <==> UserIdOk(s) && !PasswordOk(s)
    ensures r == Fail(EmailFormat) <==> UserIdOk(s) && PasswordOk(s) && !EmailPattern(s.email)
    ensures r == Pass <==> UserIdOk(s) && PasswordOk(s) && EmailPattern(s.email)
  {
    if |s.userId| < MinUserId || |s.userId| > MaxUserId then Fail(UserIdLength)
    else if |s.password| < MinPassword || |s.password| > MaxPassword then Fail(PasswordLength)
    else if !Matches(s.email) then Fail(EmailFormat)
    else Pass
  }

  /** The photo line: the placeholder without a selected file, otherwise the
      prefix followed by the file's name. */
  function PhotoMessage(file: Option<string>): (r: string)
    ensures file.None? ==> r == NoPhoto
    ensures file.Some? ==> |r| == |PhotoPrefix| + |file.value|
    ensures file.Some? ==> r[..|PhotoPrefix|] == PhotoPrefix && r[|PhotoPrefix|..] == file.value
  {
    match file
    case None => NoPhoto
    case Some(n) => PhotoPrefix + n
  }

  /** No file name, not even an empty one, yields the placeholder line. */
  lemma PhotoNeverPlaceholder()
    ensures forall n :: PhotoMessage(Some(n)) != NoPhoto
  {
    forall n ensures PhotoMessage(Some(n)) != NoPhoto {
      assert PhotoMessage(Some(n))[0] != NoPhoto[0];
    }
  }

  /** Different selected files give different photo lines, so the line
      identifies the file the user attached. */
  lemma PhotoMessageInjective(a: Option<string>, b: Option<string>)
    requires PhotoMessage(a) == PhotoMessage(b)
    ensures a == b
  {
    PhotoNeverPlaceholder();
    if a.Some? && b.Some? {
      assert a.value == PhotoMessage(a)[|PhotoPrefix|..];
    }
  }

  /** One submit: `file` is the file selected at that moment, read from the
      host. The field record is returned unchanged; the snapshot is replaced
      exactly when every check passes. */
  function Submit(s: FormState, shown: Option<Snapshot>, file: Option<string>)
    : (r: (FormState, Option<Snapshot>))
    ensures r.0 == s
    ensures !(UserIdOk(s) && PasswordOk(s) && EmailPattern(s.email)) ==> r.1 == shown
    ensures UserIdOk(s) && PasswordOk(s) && EmailPattern(s.email) ==>
              r.1.Some? && r.1.value.data == s && r.1.value.photo == PhotoMessage(file)
  {
    match Validate(s)
    case Fail(_) => (s, shown)
    case Pass => (s, Some(Snapshot(PhotoMessage(file), s)))
  }

  /** A refused submit whose first failing check is the user id, whatever
      the password and the e-mail hold. */
  lemma UserIdCheckedFirst(s: FormState, password: string, email: string)
    requires |s.userId| < 5 || |s.userId| > 7
    ensures Validate(s.(password := password, email := email)) == Fail(UserIdLength)
  {
  }

  /** A successful submit leaves nothing of the previous snapshot behind:
      what is shown afterwards depends only on the current fields and file. */
  lemma SubmitReplacesWholesale(s: FormState, old1: Option<Snapshot>, old2: Option<Snapshot>,
                                file: Option<string>)
    requires Validate(s) == Pass
    ensures Submit(s, old1, file) == Submit(s, old2, file)
  {
  }

  /** Submitting again with the same fields and file shows the same thing. */
  lemma SubmitIdempotent(s: FormState, shown: Option<Snapshot>, file: Option<string>)
    ensures var (s1, shown1) := Submit(s, shown, file); Submit(s1, shown1, file) == (s1, shown1)
  {
  }

  /** The end-to-end case: a five-character id, a nine-character password,
      a plain address and no file give the placeholder photo line and a
      snapshot of exactly those fields. */
  lemma EndToEnd(s: FormState)
    requires s.userId == "abcde" && s.password == "password1" && s.email == "a@b.co"
    ensures Submit(s, None, None).1 == Some(Snapshot("Нет фото", s))
    ensures Submit(s, None, Some("photo.png")).1.value.photo == "Фото: photo.png"
  {
    AcceptedSamples();
  }
}
