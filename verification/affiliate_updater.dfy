/**
 * The payload that `update_video_affiliate_links` sends to the YouTube Data
 * API, and the preview that shows the change without sending it.  The API
 * itself is a parameter: the reply to the `videos().list` request and
 * whether the `videos().update` request was accepted.
 */
module AffiliateUpdater {
  import opened Wrappers
  import opened Text
  import opened Sections
  import opened SectionProperties

  /** The fields of a video's `snippet` that the updater reads. */
  datatype VideoSnippet = VideoSnippet(
    title: string,
    description: string,
    tags: Option<seq<string>>,
    categoryId: string,
    defaultLanguage: Option<string>)

  /** The reply to `videos().list(part='snippet,status', id=...)`. */
  datatype DetailsReply =
    | HttpFailure
    | Items(items: seq<VideoSnippet>)

  /** The `snippet` of the update body. */
  datatype UpdateSnippet = UpdateSnippet(
    title: string,
    description: string,
    tags: seq<string>,
    categoryId: string,
    defaultLanguage: Option<string>)

  datatype UpdateRequest = UpdateRequest(id: string, snippet: UpdateSnippet)

  /** What one call achieves: its boolean result and the update it issued, if any. */
  datatype UpdateOutcome = UpdateOutcome(success: bool, sent: Option<UpdateRequest>)

  /** What `preview_changes` shows. */
  datatype Preview = Preview(
    title: string,
    oldLength: nat,
    newLength: nat,
    currentSection: Option<string>,
    newSection: string)

  /** Python truthiness of an optional string: present and non-empty. */
  predicate Truthy(v: Option<string>)
  {
    v.Some? && v.value != ""
  }

  /** `get_video_details`: the first item, or nothing on an API error or an empty list. */
  function GetVideoDetails(reply: DetailsReply): (r: Option<VideoSnippet>)
    ensures r.Some? <==> reply.Items? && |reply.items| > 0
    ensures r.Some? ==> reply.Items? && |reply.items| > 0 && r.value == reply.items[0]
  {
    match reply
    case HttpFailure => None
    case Items(items) => if |items| == 0 then None else Some(items[0])
  }

  /**
   * The body of the `videos().update` request: only the description changes,
   * the other writable fields are sent back as they were.
   */
  function BuildUpdateRequest(videoId: string, current: VideoSnippet, content: string): (r: UpdateRequest)
    ensures r.id == videoId
    ensures r.snippet.description == AddSection(current.description, content)
    ensures r.snippet.title == current.title && r.snippet.categoryId == current.categoryId
    ensures r.snippet.tags == current.tags.GetOr([])
    ensures r.snippet.defaultLanguage.Some? <==> Truthy(current.defaultLanguage)
    ensures r.snippet.defaultLanguage.Some? ==> r.snippet.defaultLanguage == current.defaultLanguage
  {
    var snippet := UpdateSnippet(
      current.title,
      AddSection(current.description, content),
      current.tags.GetOr([]),
      current.categoryId,
      if Truthy(current.defaultLanguage) then current.defaultLanguage else None);
    UpdateRequest(videoId, snippet)
  }

  /**
   * `update_video_affiliate_links`: fetch, rebuild the description, send.
   * `accepted` is whether the API answered the update without an error.
   */
  function UpdateVideoAffiliateLinks(videoId: string, reply: DetailsReply, content: string, accepted: bool)
    : (r: UpdateOutcome)
    ensures GetVideoDetails(reply).None? ==> r == UpdateOutcome(false, None)
    ensures GetVideoDetails(reply).Some? ==> r.sent.Some? && r.success == accepted
    ensures var found := GetVideoDetails(reply);
            found.Some? ==> r.sent == Some(BuildUpdateRequest(videoId, found.value, content))
    ensures r.success ==> r.sent.Some?
    ensures r.sent.Some? ==> r.sent.value.id == videoId
  {
    match GetVideoDetails(reply)
    case None => UpdateOutcome(false, None)
    case Some(current) => UpdateOutcome(accepted, Some(BuildUpdateRequest(videoId, current, content)))
  }

  /** The snippet YouTube holds once it has applied an update request. */
  function Applied(request: UpdateRequest): (r: VideoSnippet)
    ensures r.description == request.snippet.description
  {
    var s := request.snippet;
    VideoSnippet(s.title, s.description, Some(s.tags), s.categoryId, s.defaultLanguage)
  }

  /** `preview_changes`: nothing when the fetch fails, otherwise the two sections side by side. */
  function PreviewChanges(reply: DetailsReply, content: string): (r: Option<Preview>)
    ensures r.None? <==> GetVideoDetails(reply).None?
    ensures r.Some? ==> r.value.newSection == content
    ensures r.Some? ==>
              var current := GetVideoDetails(reply).value;
              && r.value.title == current.title
              && r.value.oldLength == |current.description|
              && (r.value.currentSection.Some? ==> r.value.currentSection == ExtractSection(current.description))
  {
    match GetVideoDetails(reply)
    case None => None
    case Some(current) =>
      var existing := ExtractSection(current.description);
      var newDescription := AddSection(current.description, content);
      Some(Preview(
        current.title,
        |current.description|,
        |newDescription|,
        if existing.Some? && existing.value != "" then existing else None,
        content))
  }

  /** The description that the update sends carries `content` as its section. */
  lemma SentDescriptionHoldsContent(videoId: string, reply: DetailsReply, content: string, accepted: bool)
    requires GetVideoDetails(reply).Some?
    requires WellFormed(GetVideoDetails(reply).value.description) && NoMarker(content)
    ensures var r := UpdateVideoAffiliateLinks(videoId, reply, content, accepted);
            r.sent.Some? && ExtractSection(r.sent.value.snippet.description) == Some(Strip(content))
  {
    ExtractAfterAdd(GetVideoDetails(reply).value.description, content);
  }

  /**
   * Running the update again on the snippet the first update produced
   * sends the same request again: the update is idempotent.
   */
  lemma UpdateIsIdempotent(videoId: string, current: VideoSnippet, content: string)
    requires WellFormed(current.description) && NoMarker(content)
    ensures var first := BuildUpdateRequest(videoId, current, content);
            BuildUpdateRequest(videoId, Applied(first), content) == first
  {
    AddIdempotent(current.description, content);
  }

  /** The preview's new length is the length of the description the update would send. */
  lemma PreviewMatchesUpdate(videoId: string, reply: DetailsReply, content: string, accepted: bool)
    requires GetVideoDetails(reply).Some?
    ensures var p := PreviewChanges(reply, content);
            var u := UpdateVideoAffiliateLinks(videoId, reply, content, accepted);
            p.Some? && u.sent.Some? && p.value.newLength == |u.sent.value.snippet.description|
  {
  }

  /** The preview shows a current section exactly when the description has a non-blank one. */
  lemma PreviewShowsExistingSection(reply: DetailsReply, content: string)
    requires GetVideoDetails(reply).Some?
    ensures var d := GetVideoDetails(reply).value.description;
            var p := PreviewChanges(reply, content);
            p.Some? && (p.value.currentSection.Some? <==> !NoMatch(d) && ExtractSection(d) != Some(""))
  {
  }
}
