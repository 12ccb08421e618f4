/**
 * The state of the `TeamMemberForm` component as a value, and the effect of
 * each event on it. The asynchronous `handleSubmit` is split at its `await`:
 * `SubmitClick` runs up to the one-second delay, `SubmitResolve` runs the
 * rest when the delay ends. `SuccessTimeout` is the three-second timer that
 * hides the success banner.
 */
module FormModel {
  import opened Wrappers
  import opened Text
  import opened UserIds
  import opened Drafts

  /**
   * `pending` is the `formData` that the in-flight `handleSubmit` closed over
   * when it was clicked; `successTimers` counts the banner timers not yet fired.
   */
  datatype FormState = FormState(
    draft: Draft,
    members: seq<MemberRecord>,
    isSubmitting: bool,
    submitSuccess: bool,
    pending: Option<Draft>,
    successTimers: nat)

  const Initial: FormState := FormState(EmptyDraft, [], false, false, None, 0)

  datatype Event =
    | InputChange(field: Field, value: string)
    | FileUpload(file: Option<ImageFile>, dataUrl: string)
    | SubmitClick
    | SubmitResolve(now: nat, random36: string, submittedAt: string)
    | SuccessTimeout

  /** What a click on the submit button led to. */
  datatype SubmitOutcome = Disabled | MissingRequiredField | Started

  /** Every record in the list passed validation and carries a `user_` identifier. */
  predicate WellFormedRecord(m: MemberRecord)
  {
    StartsWith(m.id, IdPrefix) && HasRequiredFields(m.details) && PictureConsistent(m.details)
  }

  /** The invariant every reachable state keeps. */
  predicate Valid(s: FormState)
  {
    (s.isSubmitting <==> s.pending.Some?)
    && (s.pending.Some? ==> HasRequiredFields(s.pending.value) && PictureConsistent(s.pending.value))
    && (s.submitSuccess ==> s.successTimers > 0)
    && PictureConsistent(s.draft)
    && forall i :: 0 <= i < |s.members| ==> WellFormedRecord(s.members[i])
  }

  lemma InitialValid()
    ensures Valid(Initial) && Initial.members == [] && Initial.draft == EmptyDraft
  {
  }

  /** A click starts a submission only when the button is enabled and the draft is complete. */
  predicate Accepts(s: FormState)
  {
    !s.isSubmitting && HasRequiredFields(s.draft)
  }

  function ClickOutcome(s: FormState): (o: SubmitOutcome)
    ensures o == Started <==> Accepts(s)
    ensures o == Disabled <==> s.isSubmitting
  {
    if s.isSubmitting then Disabled
    else if !HasRequiredFields(s.draft) then MissingRequiredField
    else Started
  }

  /**
   * The synchronous part of `handleSubmit`. The button is disabled while a
   * submission is in flight, and an incomplete draft is refused before any
   * state is set: in both cases nothing changes.
   */
  function Click(s: FormState): (r: FormState)
    ensures !Accepts(s) ==> r == s
    ensures Accepts(s) ==> r.isSubmitting && r.pending == Some(s.draft)
    ensures r.draft == s.draft && r.members == s.members
    ensures r.submitSuccess == s.submitSuccess && r.successTimers == s.successTimers
  {
    if s.isSubmitting || !HasRequiredFields(s.draft) then s
    else s.(isSubmitting := true, pending := Some(s.draft))
  }

  /**
   * The part of `handleSubmit` after the delay: the draft captured at the
   * click becomes a record appended to the list, the draft is reset, the
   * pending flag drops and the success banner shows with its timer started.
   */
  function Resolve(s: FormState, now: nat, random36: string, submittedAt: string): (r: FormState)
    ensures s.pending.None? ==> r == s
    ensures s.pending.Some? ==>
      && |r.members| == |s.members| + 1
      && r.members[..|s.members|] == s.members
      && r.members[|s.members|].details == s.pending.value
      && r.members[|s.members|].id == UserId(now, random36)
      && r.members[|s.members|].submittedAt == submittedAt
      && r.draft == EmptyDraft
      && !r.isSubmitting && r.pending.None?
      && r.submitSuccess && r.successTimers == s.successTimers + 1
  {
    match s.pending
    case None => s
    case Some(d) =>
      var record := MemberRecord(UserId(now, random36), d, submittedAt);
      s.(members := s.members + [record], draft := EmptyDraft, isSubmitting := false,
         submitSuccess := true, pending := None, successTimers := s.successTimers + 1)
  }

  /** One banner timer fires and hides the banner, even if a later submission showed it again. */
  function Timeout(s: FormState): (r: FormState)
    ensures s.successTimers == 0 ==> r == s
    ensures s.successTimers > 0 ==> !r.submitSuccess && r.successTimers == s.successTimers - 1
    ensures r.draft == s.draft && r.members == s.members
    ensures r.isSubmitting == s.isSubmitting && r.pending == s.pending
  {
    if s.successTimers == 0 then s
    else s.(submitSuccess := false, successTimers := s.successTimers - 1)
  }

  /** The effect of one event on the component state. */
  function Step(s: FormState, e: Event): (r: FormState)
    ensures s.members <= r.members && |r.members| <= |s.members| + 1
    ensures !e.SubmitResolve? ==> r.members == s.members
    ensures Valid(s) ==> Valid(r)
  {
    match e
    case InputChange(f, v) => s.(draft := SetField(s.draft, f, v))
    case FileUpload(file, url) =>
      if file.Some? then s.(draft := SetPicture(s.draft, file.value, url)) else s
    case SubmitClick => Click(s)
    case SubmitResolve(now, random36, at) => Resolve(s, now, random36, at)
    case SuccessTimeout => Timeout(s)
  }

  /** The state after a sequence of events. */
  function Run(s: FormState, es: seq<Event>): (r: FormState)
    ensures s.members <= r.members
    ensures Valid(s) ==> Valid(r)
    decreases |es|
  {
    if es == [] then s else Run(Step(s, es[0]), es[1..])
  }

  /** The number of clicks in `es` that start a submission, each judged in the state it meets. */
  function AcceptedClicks(s: FormState, es: seq<Event>): nat
    decreases |es|
  {
    if es == [] then 0
    else (if es[0].SubmitClick? && Accepts(s) then 1 else 0) + AcceptedClicks(Step(s, es[0]), es[1..])
  }

  function PendingCount(s: FormState): nat
  {
    if s.pending.Some? then 1 else 0
  }

  /**
   * Every record comes from exactly one accepted click: records added plus
   * submissions still in flight equal accepted clicks plus the submission in
   * flight at the start.
   */
  lemma {:induction false} RecordsMatchAcceptedClicks(s: FormState, es: seq<Event>)
    requires Valid(s)
    ensures |Run(s, es).members| + PendingCount(Run(s, es)) == |s.members| + PendingCount(s) + AcceptedClicks(s, es)
    decreases |es|
  {
    if es != [] {
      var t := Step(s, es[0]);
      assert |t.members| + PendingCount(t) == |s.members| + PendingCount(s) + (if es[0].SubmitClick? && Accepts(s) then 1 else 0);
      RecordsMatchAcceptedClicks(t, es[1..]);
    }
  }

  /** Clicks made while a submission is in flight are never accepted. */
  lemma {:induction false} ClicksWhilePendingIgnored(s: FormState, n: nat)
    requires s.isSubmitting
    ensures Run(s, seq(n, _ => SubmitClick)) == s
    ensures AcceptedClicks(s, seq(n, _ => SubmitClick)) == 0
    decreases n
  {
    var es := seq(n, _ => SubmitClick);
    if n > 0 {
      assert es[1..] == seq(n - 1, _ => SubmitClick);
      ClicksWhilePendingIgnored(s, n - 1);
    }
  }

  /** No event in `es` is the end of a submission's delay. */
  predicate NoCompletion(es: seq<Event>)
  {
    forall i :: 0 <= i < |es| ==> !es[i].SubmitResolve?
  }

  /**
   * Overlapping submit attempts: while no submission completes, whatever
   * edits, uploads, banner timers and clicks happen, at most one submission is
   * in flight or started, and the list does not change.
   */
  lemma {:induction false} OverlappingSubmitsStartAtMostOne(s: FormState, es: seq<Event>)
    requires Valid(s) && NoCompletion(es)
    ensures AcceptedClicks(s, es) + PendingCount(s) <= 1
    ensures Run(s, es).members == s.members
    decreases |es|
  {
    if es != [] {
      var t := Step(s, es[0]);
      assert PendingCount(t) == PendingCount(s) + (if es[0].SubmitClick? && Accepts(s) then 1 else 0);
      assert NoCompletion(es[1..]) by {
        forall i | 0 <= i < |es[1..]| ensures !es[1..][i].SubmitResolve? {
          assert es[1..][i] == es[i + 1];
        }
      }
      OverlappingSubmitsStartAtMostOne(t, es[1..]);
    }
  }

  /**
   * The completion that ends such a window adds exactly one record if a
   * submission was in flight or started during it, and none otherwise: never
   * more than one, however often submit was clicked.
   */
  lemma OverlappingSubmitsAddAtMostOne(s: FormState, es: seq<Event>, now: nat, random36: string, at: string)
    requires Valid(s) && NoCompletion(es)
    ensures |Run(s, es + [SubmitResolve(now, random36, at)]).members|
            == |s.members| + PendingCount(s) + AcceptedClicks(s, es)
    ensures |Run(s, es + [SubmitResolve(now, random36, at)]).members| <= |s.members| + 1
  {
    var done := [SubmitResolve(now, random36, at)];
    OverlappingSubmitsStartAtMostOne(s, es);
    RecordsMatchAcceptedClicks(s, es);
    RunAppend(s, es, done);
    var w := Run(s, es);
    assert Run(w, done) == Resolve(w, now, random36, at);
  }

  /** Double-clicking submit and waiting for the delay adds the draft exactly once. */
  lemma DoubleClickAddsOnce(s: FormState, n: nat, now: nat, random36: string, at: string)
    requires Valid(s) && Accepts(s)
    ensures Run(s, [SubmitClick] + seq(n, _ => SubmitClick) + [SubmitResolve(now, random36, at)]).members
            == s.members + [MemberRecord(UserId(now, random36), s.draft, at)]
  {
    var clicks := seq(n, _ => SubmitClick);
    var es := [SubmitClick] + clicks + [SubmitResolve(now, random36, at)];
    var t := Click(s);
    ClicksWhilePendingIgnored(t, n);
    RunAppend(t, clicks, [SubmitResolve(now, random36, at)]);
    assert es[1..] == clicks + [SubmitResolve(now, random36, at)];
    assert Run(t, [SubmitResolve(now, random36, at)]) == Resolve(t, now, random36, at);
  }

  lemma {:induction false} RunAppend(s: FormState, a: seq<Event>, b: seq<Event>)
    ensures Run(s, a + b) == Run(Run(s, a), b)
    decreases |a|
  {
    if a == [] {
      assert a + b == b;
    } else {
      assert (a + b)[1..] == a[1..] + b;
      RunAppend(Step(s, a[0]), a[1..], b);
    }
  }

  /** Every identifier carries a clock reading, and the readings grow along the list. */
  predicate StampsIncreasing(ms: seq<MemberRecord>)
  {
    (forall i :: 0 <= i < |ms| ==> IdTime(ms[i].id).Some?)
    && forall i, j :: 0 <= i < j < |ms| ==>
         IdTime(ms[i].id).Some? && IdTime(ms[j].id).Some? && IdTime(ms[i].id).value < IdTime(ms[j].id).value
  }

  /** Every identifier carries a clock reading no later than `last`; with no `last`, the list is empty. */
  predicate StampsNoLaterThan(ms: seq<MemberRecord>, last: Option<nat>)
  {
    forall i :: 0 <= i < |ms| ==> IdTime(ms[i].id).Some? && last.Some? && IdTime(ms[i].id).value <= last.value
  }

  /** Every `SubmitResolve` in `es` reads the clock later than `last` (when given) and than the one before it. */
  predicate ClockMovesForward(es: seq<Event>, last: Option<nat>)
    decreases |es|
  {
    if es == [] then true
    else if es[0].SubmitResolve? then
      (last.None? || es[0].now > last.value) && ClockMovesForward(es[1..], Some(es[0].now))
    else ClockMovesForward(es[1..], last)
  }

  /** All identifiers in the list differ. */
  predicate IdsDistinct(ms: seq<MemberRecord>)
  {
    forall i, j :: 0 <= i < j < |ms| ==> ms[i].id != ms[j].id
  }

  lemma IncreasingStampsDistinctIds(ms: seq<MemberRecord>)
    requires StampsIncreasing(ms)
    ensures IdsDistinct(ms)
  {
  }

  /**
   * With a clock that moves forward between completions, the identifiers keep
   * growing in their clock part, whatever the random parts are.
   */
  lemma {:induction false} ForwardClockKeepsStampsIncreasing(s: FormState, es: seq<Event>, last: Option<nat>)
    requires StampsIncreasing(s.members) && StampsNoLaterThan(s.members, last)
    requires ClockMovesForward(es, last)
    ensures StampsIncreasing(Run(s, es).members)
    decreases |es|
  {
    if es != [] {
      var e := es[0];
      var u := Step(s, e);
      if e.SubmitResolve? && s.pending.Some? {
        UserIdRoundTrip(e.now, e.random36);
        assert IdTime(u.members[|s.members|].id) == Some(e.now);
        assert u.members == s.members + [u.members[|s.members|]];
        ForwardClockKeepsStampsIncreasing(u, es[1..], Some(e.now));
      } else {
        var last' := if e.SubmitResolve? then Some(e.now) else last;
        ForwardClockKeepsStampsIncreasing(u, es[1..], last');
      }
    }
  }

  /**
   * Identifiers are unique in the session list when the clock moves forward
   * between completions; the random part `generateUserId` appends is not
   * needed for that.
   */
  lemma ForwardClockGivesUniqueIds(es: seq<Event>)
    requires ClockMovesForward(es, None)
    ensures IdsDistinct(Run(Initial, es).members)
  {
    ForwardClockKeepsStampsIncreasing(Initial, es, None);
    IncreasingStampsDistinctIds(Run(Initial, es).members);
  }

  /** Filling in the form for Ada Lovelace and submitting adds exactly her record and empties the form. */
  lemma AdaSubmission(now: nat, random36: string, at: string)
    ensures
      var ada := Draft("Ada Lovelace", "Backend Team", "Developer", "https://github.com/ada",
                       "https://linkedin.com/in/ada", "", None, None);
      var filled := Step(Step(Step(Step(Step(Initial,
                      InputChange(FullName, ada.fullName)), InputChange(TeamName, ada.teamName)),
                      InputChange(RoleTag, ada.roleTag)), InputChange(GithubProfile, ada.githubProfile)),
                      InputChange(LinkedinProfile, ada.linkedinProfile));
      var r := Step(Step(filled, SubmitClick), SubmitResolve(now, random36, at));
      && r.members == [MemberRecord(UserId(now, random36), ada, at)]
      && StartsWith(r.members[0].id, IdPrefix)
      && r.draft == EmptyDraft && !r.isSubmitting && r.submitSuccess
  {
  }

  /** Submitting with an empty name is refused and leaves the draft, the list and the flags alone. */
  lemma MissingNameRefused(s: FormState)
    requires s.draft.fullName == "" && !s.isSubmitting
    ensures ClickOutcome(s) == MissingRequiredField
    ensures Step(s, SubmitClick) == s
  {
  }

  /** A name made of a single space counts as filled in. */
  lemma BlankButNonEmptyAccepted(s: FormState)
    requires !s.isSubmitting
    requires s.draft.fullName == " " && s.draft.teamName == " " && s.draft.roleTag == " "
    requires s.draft.githubProfile == " " && s.draft.linkedinProfile == " "
    ensures ClickOutcome(s) == Started && Step(s, SubmitClick).pending == Some(s.draft)
  {
  }
}
