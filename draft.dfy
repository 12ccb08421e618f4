/**
 * The form's draft (`formData`) and the record a successful submission
 * produces from it (`newMember`).
 */
module Drafts {
  import opened Wrappers

  /** The file the picker handed over; only carried along, never inspected. */
  datatype ImageFile = ImageFile(name: string, mimeType: string, bytes: seq<bv8>)

  /** The six text inputs, by their `name` attribute. */
  datatype Field = FullName | TeamName | RoleTag | GithubProfile | LinkedinProfile | PersonalWebsite

  datatype Draft = Draft(
    fullName: string,
    teamName: string,
    roleTag: string,
    githubProfile: string,
    linkedinProfile: string,
    personalWebsite: string,
    profilePicture: Option<ImageFile>,
    profilePicturePreview: Option<string>)

  /** A submitted member: the identifier, every draft field as it was, and the submission time. */
  datatype MemberRecord = MemberRecord(id: string, details: Draft, submittedAt: string)

  /** The initial value of `formData`, and the value it is reset to after a submission. */
  const EmptyDraft: Draft := Draft("", "", "", "", "", "", None, None)

  /** Every field except the personal website must be filled in. */
  predicate Required(f: Field)
  {
    f != PersonalWebsite
  }

  function Get(d: Draft, f: Field): string
  {
    match f
    case FullName => d.fullName
    case TeamName => d.teamName
    case RoleTag => d.roleTag
    case GithubProfile => d.githubProfile
    case LinkedinProfile => d.linkedinProfile
    case PersonalWebsite => d.personalWebsite
  }

  /** `{ ...prev, [name]: value }`: the one field takes the value verbatim, nothing else moves. */
  function SetField(d: Draft, f: Field, value: string): (r: Draft)
    ensures Get(r, f) == value
    ensures forall g :: g != f ==> Get(r, g) == Get(d, g)
    ensures r.profilePicture == d.profilePicture && r.profilePicturePreview == d.profilePicturePreview
  {
    match f
    case FullName => d.(fullName := value)
    case TeamName => d.(teamName := value)
    case RoleTag => d.(roleTag := value)
    case GithubProfile => d.(githubProfile := value)
    case LinkedinProfile => d.(linkedinProfile := value)
    case PersonalWebsite => d.(personalWebsite := value)
  }

  /** A picture and its preview are present together or absent together. */
  predicate PictureConsistent(d: Draft)
  {
    d.profilePicture.Some? <==> d.profilePicturePreview.Some?
  }

  /** The file-reader callback: the picture and its data URL are set in one update. */
  function SetPicture(d: Draft, file: ImageFile, dataUrl: string): (r: Draft)
    ensures r.profilePicture == Some(file) && r.profilePicturePreview == Some(dataUrl)
    ensures PictureConsistent(r)
    ensures forall g :: Get(r, g) == Get(d, g)
  {
    d.(profilePicture := Some(file), profilePicturePreview := Some(dataUrl))
  }

  /**
   * The check `handleSubmit` makes before anything else: none of the five
   * required strings is falsy, which for a string means empty. A value made
   * of spaces passes.
   */
  predicate HasRequiredFields(d: Draft)
  {
    d.fullName != "" && d.teamName != "" && d.roleTag != ""
    && d.githubProfile != "" && d.linkedinProfile != ""
  }

  /** The check accepts exactly the drafts whose required fields are all non-empty. */
  lemma RequiredFieldsExactly(d: Draft)
    ensures HasRequiredFields(d) <==> forall f :: Required(f) ==> Get(d, f) != ""
  {
    if !HasRequiredFields(d) {
      var missing :=
        if d.fullName == "" then FullName
        else if d.teamName == "" then TeamName
        else if d.roleTag == "" then RoleTag
        else if d.githubProfile == "" then GithubProfile
        else LinkedinProfile;
      assert Required(missing) && Get(d, missing) == "";
    }
  }

  /** The personal website and the picture never decide whether a draft is accepted. */
  lemma OptionalPartsIrrelevant(d: Draft, website: string, picture: Option<ImageFile>, preview: Option<string>)
    ensures HasRequiredFields(d.(personalWebsite := website, profilePicture := picture, profilePicturePreview := preview))
            == HasRequiredFields(d)
  {
  }

  /** Changing one field affects validity only through that field. */
  lemma SetFieldValidity(d: Draft, f: Field, value: string)
    ensures HasRequiredFields(SetField(d, f, value)) <==>
            (Required(f) ==> value != "") && forall g :: g != f && Required(g) ==> Get(d, g) != ""
  {
    RequiredFieldsExactly(d);
    RequiredFieldsExactly(SetField(d, f, value));
  }
}
