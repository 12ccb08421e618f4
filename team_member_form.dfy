/**
 * The `TeamMemberForm` component as an object whose fields are its state
 * hooks. Each handler updates the fields in place; its postcondition ties the
 * new state to `FormModel.Step` applied to the old one, so every lemma proved
 * about `Step` and `Run` holds of any sequence of handler calls.
 */
module FormComponent {
  import opened Wrappers
  import opened UserIds
  import opened Drafts
  import opened FormModel

  class TeamMemberForm {
    var formData: Draft
    var teamMembers: seq<MemberRecord>
    var isSubmitting: bool
    var submitSuccess: bool
    /** The `formData` the in-flight `handleSubmit` closed over, while it waits out its delay. */
    var pendingDraft: Option<Draft>
    /** Banner timers scheduled and not yet fired. */
    var successTimers: nat

    function State(): FormState
      reads this
    {
      FormState(formData, teamMembers, isSubmitting, submitSuccess, pendingDraft, successTimers)
    }

    ghost predicate Valid()
      reads this
    {
      FormModel.Valid(State())
    }

    /** The initial values of the four `useState` hooks. */
    constructor ()
      ensures Valid() && State() == Initial
    {
      formData := EmptyDraft;
      teamMembers := [];
      isSubmitting := false;
      submitSuccess := false;
      pendingDraft := None;
      successTimers := 0;
    }

    /** `handleInputChange`: the named field takes the typed value verbatim. */
    method HandleInputChange(field: Field, value: string)
      requires Valid()
      modifies this
      ensures Valid() && State() == Step(old(State()), InputChange(field, value))
      ensures formData == SetField(old(formData), field, value)
      ensures teamMembers == old(teamMembers) && isSubmitting == old(isSubmitting)
      ensures submitSuccess == old(submitSuccess) && pendingDraft == old(pendingDraft)
      ensures successTimers == old(successTimers)
    {
      formData := SetField(formData, field, value);
    }

    /**
     * `handleFileUpload` together with its file-reader callback: with a file,
     * the picture and its data URL are set in one update; with none, nothing happens.
     */
    method HandleFileUpload(file: Option<ImageFile>, dataUrl: string)
      requires Valid()
      modifies this
      ensures Valid() && State() == Step(old(State()), FileUpload(file, dataUrl))
      ensures file.None? ==> formData == old(formData)
      ensures file.Some? ==> formData == SetPicture(old(formData), file.value, dataUrl)
      ensures teamMembers == old(teamMembers) && isSubmitting == old(isSubmitting)
      ensures submitSuccess == old(submitSuccess) && pendingDraft == old(pendingDraft)
      ensures successTimers == old(successTimers)
    {
      if file.Some? {
        formData := SetPicture(formData, file.value, dataUrl);
      }
    }

    /**
     * `handleSubmit` up to its `await`. A disabled button or an incomplete
     * draft changes nothing; otherwise the submission is marked in flight and
     * the current draft is captured for the record.
     */
    method BeginSubmit() returns (outcome: SubmitOutcome)
      requires Valid()
      modifies this
      ensures Valid() && State() == Step(old(State()), SubmitClick)
      ensures outcome == ClickOutcome(old(State()))
      ensures outcome != Started ==> State() == old(State())
      ensures outcome == Started ==> isSubmitting && pendingDraft == Some(old(formData))
    {
      if isSubmitting {
        return Disabled;
      }
      if !HasRequiredFields(formData) {
        return MissingRequiredField;
      }
      isSubmitting := true;
      pendingDraft := Some(formData);
      outcome := Started;
    }

    /**
     * `handleSubmit` after its one-second delay, with the clock reading, the
     * random number's base-36 rendering and the ISO timestamp passed in.
     */
    method CompleteSubmit(now: nat, random36: string, submittedAt: string)
      requires Valid() && isSubmitting
      modifies this
      ensures Valid() && State() == Step(old(State()), SubmitResolve(now, random36, submittedAt))
      ensures teamMembers == old(teamMembers) + [MemberRecord(UserId(now, random36), old(pendingDraft).value, submittedAt)]
      ensures formData == EmptyDraft && !isSubmitting && pendingDraft.None?
      ensures submitSuccess && successTimers == old(successTimers) + 1
    {
      var newMember := MemberRecord(UserId(now, random36), pendingDraft.value, submittedAt);
      teamMembers := teamMembers + [newMember];
      formData := EmptyDraft;
      isSubmitting := false;
      pendingDraft := None;
      submitSuccess := true;
      successTimers := successTimers + 1;
    }

    /** The three-second timer scheduled by a completed submission fires. */
    method ClearSuccess()
      requires Valid() && successTimers > 0
      modifies this
      ensures Valid() && State() == Step(old(State()), SuccessTimeout)
      ensures !submitSuccess && successTimers == old(successTimers) - 1
      ensures formData == old(formData) && teamMembers == old(teamMembers)
      ensures isSubmitting == old(isSubmitting) && pendingDraft == old(pendingDraft)
    {
      submitSuccess := false;
      successTimers := successTimers - 1;
    }
  }

  /** A double click during the delay still adds the member once, and the form comes back empty. */
  method DoubleClickClient(name: string, team: string, role: string, github: string, linkedin: string)
    requires name != "" && team != "" && role != "" && github != "" && linkedin != ""
  {
    var form := new TeamMemberForm();
    form.HandleInputChange(FullName, name);
    form.HandleInputChange(TeamName, team);
    form.HandleInputChange(RoleTag, role);
    form.HandleInputChange(GithubProfile, github);
    form.HandleInputChange(LinkedinProfile, linkedin);
    var first := form.BeginSubmit();
    assert first == Started;
    var second := form.BeginSubmit();
    assert second == Disabled;
    form.CompleteSubmit(1700000000000, "0.4fzyo82mvyr", "2023-11-14T22:13:20.000Z");
    assert |form.teamMembers| == 1 && form.teamMembers[0].details.fullName == name;
    assert form.formData == EmptyDraft;
    var third := form.BeginSubmit();
    assert third == MissingRequiredField;
  }
}
