/** The add/edit job form (`AddJob.jsx`): field editing, required-field
    validation, building the saved record, the list update on submit, and
    the unsaved-changes check on cancel. Confirmation answers, the
    `Date.now()` timestamp and today's date are inputs. */
module AddJob {
  import opened Wrappers
  import opened Text
  import opened Jobs

  datatype Field = Company | Position | Status | Notes

  /** The four controlled inputs of the form. */
  datatype Form = Form(company: string, position: string, status: string, notes: string) {

    function Get(f: Field): string {
      match f
      case Company => company
      case Position => position
      case Status => status
      case Notes => notes
    }

    /** `{ ...form, [f]: v }`. */
    function Set(f: Field, v: string): (r: Form)
      ensures r.Get(f) == v
      ensures forall g :: g != f ==> r.Get(g) == Get(g)
    {
      match f
      case Company => this.(company := v)
      case Position => this.(position := v)
      case Status => this.(status := v)
      case Notes => this.(notes := v)
    }
  }

  /** Inline error messages by field; "" marks a cleared message. */
  type Errors = map<Field, string>

  const DefaultStatus: string := "Applied"
  const EmptyForm: Form := Form("", "", DefaultStatus, "")
  const CompanyRequired: string := "Company name is required"
  const PositionRequired: string := "Position is required"
  const UpdateAsk: Ask := Ask("Update Job", "Are you sure you want to update this job application?", "warning")
  const DiscardAsk: Ask := Ask("Discard Changes", "Are you sure you want to discard your changes?", "warning")

  /** The form's state together with the props it updates: the job list and
      the job being edited (`None` when creating). */
  datatype Page = Page(form: Form, errors: Errors, editing: Option<Job>, jobs: seq<Job>)

  /** The outcome of one handler: the next page state, the confirmation it
      asked for, the store request it issued and whether it navigated away. */
  datatype Step = Step(page: Page, asked: Option<Ask>, call: Option<StoreCall>, leaves: bool)

  /** The form contents loaded for a job being edited, or the defaults.
      Saving a loaded edit form untouched writes back the same job, except
      that missing notes become "". */
  function LoadForm(editing: Option<Job>): (f: Form)
    ensures editing.None? ==> f == EmptyForm
    ensures editing.Some? ==> forall now: int, today: string ::
      BuildRecord(f, editing, now, today) == editing.value.(notes := Some(editing.value.notes.GetOr("")))
  {
    match editing
    case None => EmptyForm
    case Some(j) => Form(j.company, j.position, j.status, j.notes.GetOr(""))
  }

  /** The page as it is first shown. */
  function Mount(jobs: seq<Job>, editing: Option<Job>): Page {
    Page(LoadForm(editing), map[], editing, jobs)
  }

  /** `handleChange`: store the new value and clear that field's message if
      it had a non-empty one. */
  function HandleChange(p: Page, f: Field, v: string): (r: Page)
    ensures r.form.Get(f) == v
    ensures forall g :: g != f ==> r.form.Get(g) == p.form.Get(g)
    ensures r.errors.Keys == p.errors.Keys
    ensures f in p.errors ==> r.errors[f] == ""
    ensures forall g :: g in p.errors && g != f ==> r.errors[g] == p.errors[g]
    ensures r.editing == p.editing && r.jobs == p.jobs
  {
    var errors := if f in p.errors && p.errors[f] != "" then p.errors[f := ""] else p.errors;
    p.(form := p.form.Set(f, v), errors := errors)
  }

  /** `validateForm`: a message for each required field that trims to "". */
  function Validate(f: Form): (e: Errors)
    ensures Company in e <==> Blank(f.company)
    ensures Position in e <==> Blank(f.position)
    ensures Status !in e && Notes !in e
    ensures Company in e ==> e[Company] == CompanyRequired
    ensures Position in e ==> e[Position] == PositionRequired
  {
    var e := if Blank(f.company) then map[Company := CompanyRequired] else map[];
    if Blank(f.position) then e[Position := PositionRequired] else e
  }

  /** The form is valid exactly when neither company nor position consists
      of whitespace only. */
  lemma ValidIffFilledIn(f: Form)
    ensures Validate(f) == map[] <==> !AllWhitespace(f.company) && !AllWhitespace(f.position)
  {
  }

  /** The record `handleSubmit` saves: the form's fields, plus the id and
      applied date of the job being edited, or the supplied timestamp and
      today's date for a new job. */
  function BuildRecord(f: Form, editing: Option<Job>, now: int, today: string): (r: Job)
    ensures r.company == f.company && r.position == f.position
    ensures r.status == f.status && r.notes == Some(f.notes)
    ensures editing.Some? ==> r.id == editing.value.id && r.appliedDate == editing.value.appliedDate
    ensures editing.None? ==> r.id == Num(now) && r.appliedDate == today
  {
    var id := if editing.Some? then editing.value.id else Num(now);
    var date := if editing.Some? then editing.value.appliedDate else today;
    Job(id, f.company, f.position, f.status, Some(f.notes), date)
  }

  /** `handleSubmit`. `answer` is what the update confirmation resolves to
      (it is only consulted when editing). The store request is fired and
      not awaited, so the local list is updated whatever the store does. */
  function Submit(p: Page, answer: bool, now: int, today: string): (s: Step)
    // an invalid form stops before any confirmation, request or list change
    ensures Validate(p.form) != map[] ==>
      s == Step(p.(errors := Validate(p.form)), None, None, false)
    // declining the update confirmation aborts with nothing changed
    ensures Validate(p.form) == map[] && p.editing.Some? && !answer ==>
      s.asked == Some(UpdateAsk) && s.call == None && !s.leaves &&
      s.page == p.(errors := map[])
    // a confirmed edit replaces every job with the edited id, in place
    ensures Validate(p.form) == map[] && p.editing.Some? && answer ==>
      var rec := BuildRecord(p.form, p.editing, now, today);
      && s.asked == Some(UpdateAsk)
      && s.call == Some(UpdateCall(p.editing.value.id, rec))
      && |s.page.jobs| == |p.jobs|
      && (forall k :: 0 <= k < |p.jobs| ==>
            s.page.jobs[k] == if p.jobs[k].id == p.editing.value.id then rec else p.jobs[k])
    // a create asks nothing and appends the new record
    ensures Validate(p.form) == map[] && p.editing.None? ==>
      var rec := BuildRecord(p.form, None, now, today);
      s.asked == None && s.call == Some(CreateCall(rec)) && s.page.jobs == p.jobs + [rec]
    // every save resets the form and leaves editing mode
    ensures s.call.Some? ==>
      s.leaves && s.page.form == EmptyForm && s.page.editing == None && s.page.errors == map[]
  {
    var errors := Validate(p.form);
    if errors != map[] then
      Step(p.(errors := errors), None, None, false)
    else
      var asked := if p.editing.Some? then Some(UpdateAsk) else None;
      if p.editing.Some? && !answer then
        Step(p.(errors := errors), asked, None, false)
      else
        var rec := BuildRecord(p.form, p.editing, now, today);
        var call := if p.editing.Some? then UpdateCall(p.editing.value.id, rec) else CreateCall(rec);
        var jobs := if p.editing.Some? then ReplaceById(p.jobs, p.editing.value.id, rec) else p.jobs + [rec];
        Step(Page(EmptyForm, errors, None, jobs), asked, Some(call), true)
  }

  /** Creating a job does not depend on any confirmation answer. */
  lemma CreateIgnoresAnswer(p: Page, now: int, today: string)
    requires p.editing.None?
    ensures Submit(p, true, now, today) == Submit(p, false, now, today)
  {
  }

  /** `hasChanges` in `handleCancel`. When editing, the form is unchanged
      exactly when it still holds what was loaded from the job; when
      creating, exactly when the three text fields hold only whitespace and
      the status is still the default. */
  function HasChanges(f: Form, editing: Option<Job>): (changed: bool)
    ensures editing.Some? ==> (!changed <==> f == LoadForm(editing))
    ensures editing.None? ==> (!changed <==>
      AllWhitespace(f.company) && AllWhitespace(f.position) && AllWhitespace(f.notes) &&
      f.status == DefaultStatus)
  {
    BlankIffAllWhitespace(f.company);
    BlankIffAllWhitespace(f.position);
    BlankIffAllWhitespace(f.notes);
    match editing
    case Some(j) =>
      f.company != j.company || f.position != j.position ||
      f.status != j.status || f.notes != j.notes.GetOr("")
    case None =>
      !Blank(f.company) || !Blank(f.position) || f.status != DefaultStatus || !Blank(f.notes)
  }

  /** A freshly loaded form never counts as changed. */
  lemma LoadedFormUnchanged(editing: Option<Job>)
    ensures !HasChanges(LoadForm(editing), editing)
  {
  }

  /** `handleCancel`. `answer` is what the discard confirmation resolves to;
      it is only asked for when the form has changes. */
  function Cancel(p: Page, answer: bool): (s: Step)
    ensures s.call == None && s.page.jobs == p.jobs && s.page.errors == p.errors
    ensures s.asked.Some? <==> HasChanges(p.form, p.editing)
    ensures s.asked.Some? ==> s.asked.value == DiscardAsk
    ensures s.leaves <==> !HasChanges(p.form, p.editing) || answer
    ensures !s.leaves ==> s.page == p
    ensures s.leaves ==> s.page.form == EmptyForm && s.page.editing == None
  {
    var changed := HasChanges(p.form, p.editing);
    var asked := if changed then Some(DiscardAsk) else None;
    if changed && !answer then Step(p, asked, None, false)
    else Step(p.(form := EmptyForm, editing := None), asked, None, true)
  }

  /** Cancelling straight after the page is shown never asks anything. */
  lemma CancelAfterMountAsksNothing(jobs: seq<Job>, editing: Option<Job>, answer: bool)
    ensures Cancel(Mount(jobs, editing), answer).asked == None
    ensures Cancel(Mount(jobs, editing), answer).leaves
  {
  }
}
