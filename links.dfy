/**
 * The profile links of a member card: each non-empty link is made absolute by
 * prefixing `https://` unless it already starts with `http`.
 */
module Links {
  import opened Wrappers
  import opened Text

  const Scheme: string := "https://"

  /** `link.startsWith("http") ? link : `https://${link}``. */
  function NormalizeLink(link: string): (r: string)
    ensures StartsWith(r, "http")
    ensures StartsWith(link, "http") ==> r == link
    ensures !StartsWith(link, "http") ==> |r| == |Scheme| + |link| && StartsWith(r, Scheme)
    ensures |link| <= |r| && r[|r| - |link|..] == link
  {
    if StartsWith(link, "http") then link else Scheme + link
  }

  /** Normalising an already normalised link changes nothing. */
  lemma NormalizeLinkIdempotent(link: string)
    ensures NormalizeLink(NormalizeLink(link)) == NormalizeLink(link)
  {
  }

  /**
   * The `href` of one icon on a member card: no anchor at all for an empty
   * field (JavaScript falsiness), the normalised link otherwise.
   */
  function ProfileHref(link: string): (r: Option<string>)
    ensures r.None? <==> link == ""
    ensures r.Some? ==> r.value == NormalizeLink(link)
    ensures r.Some? ==> StartsWith(r.value, "http") && |link| <= |r.value| && r.value[|r.value| - |link|..] == link
  {
    if link == "" then None else Some(NormalizeLink(link))
  }
}
