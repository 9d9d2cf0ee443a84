/** The component as a whole: its two pieces of state (`formData` and
    `submittedData`) and the events the host delivers to it. */
module FormComponent {
  import opened Wrappers
  import opened EmailCheck
  import opened FormData
  import opened Submission

  datatype Component = Component(form: FormState, shown: Option<Snapshot>)

  /** A change on one control, or a submit with the file selected at that
      moment. */
  datatype Event = Input(change: InputEvent) | SubmitForm(file: Option<string>)

  /** The state right after the component is created: no snapshot yet. */
  const Mounted: Component := Component(Initial, None)

  function Step(c: Component, ev: Event): (r: Component)
    ensures ev.Input? ==> r.shown == c.shown && r.form == Change(c.form, ev.change)
    ensures ev.SubmitForm? ==> r.form == c.form
    ensures ev.SubmitForm? && Validate(c.form).Fail? ==> r == c
    ensures ev.SubmitForm? && Validate(c.form).Pass? ==>
              r.shown == Some(Snapshot(PhotoMessage(ev.file), c.form))
  {
    match ev
    case Input(e) => c.(form := Change(c.form, e))
    case SubmitForm(file) =>
      var (form, shown) := Submit(c.form, c.shown, file);
      Component(form, shown)
  }

  /** The state after the events `evs`, delivered in order. */
  function Run(c: Component, evs: seq<Event>): Component
    decreases |evs|
  {
    if |evs| == 0 then c else Run(Step(c, evs[0]), evs[1..])
  }

  /** A shown snapshot always holds fields that passed every check. */
  ghost predicate ShowsOnlyValid(c: Component)
  {
    c.shown.Some? ==> UserIdOk(c.shown.value.data) && PasswordOk(c.shown.value.data)
                      && EmailPattern(c.shown.value.data.email)
  }

  lemma {:induction false} RunKeepsShownValid(c: Component, evs: seq<Event>)
    requires ShowsOnlyValid(c)
    ensures ShowsOnlyValid(Run(c, evs))
    decreases |evs|
  {
    if |evs| > 0 {
      RunKeepsShownValid(Step(c, evs[0]), evs[1..]);
    }
  }

  /** From creation on, whatever is shown once passed validation. */
  lemma ShownAlwaysValid(evs: seq<Event>)
    ensures ShowsOnlyValid(Run(Mounted, evs))
  {
    RunKeepsShownValid(Mounted, evs);
  }

  /** The field changes among `evs`, in order. */
  function Changes(evs: seq<Event>): (r: seq<InputEvent>)
    ensures forall e :: e in r <==> exists k :: 0 <= k < |evs| && evs[k] == Input(e)
  {
    if |evs| == 0 then []
    else if evs[0].Input? then [evs[0].change] + Changes(evs[1..])
    else Changes(evs[1..])
  }

  /** Submitting never touches the fields: the fields after any run are the
      field changes of the run applied in order, with submits skipped. */
  lemma {:induction false} FieldsIgnoreSubmits(c: Component, evs: seq<Event>)
    ensures Run(c, evs).form == ApplyChanges(c.form, Changes(evs))
    decreases |evs|
  {
    if |evs| > 0 {
      FieldsIgnoreSubmits(Step(c, evs[0]), evs[1..]);
    }
  }

  /** Field changes never touch the snapshot: it stays what the last
      successful submit made it until the next successful submit. */
  lemma {:induction false} SnapshotIgnoresChanges(c: Component, evs: seq<Event>)
    requires forall k :: 0 <= k < |evs| ==> evs[k].Input?
    ensures Run(c, evs).shown == c.shown
    decreases |evs|
  {
    if |evs| > 0 {
      SnapshotIgnoresChanges(Step(c, evs[0]), evs[1..]);
    }
  }
}
