/**
 * `get_all_channel_videos`: look up the channel's uploads playlist, then
 * read the playlist page by page until a page has no `nextPageToken` or a
 * request fails.  The API is given as its replies: the channel lookup, and
 * the replies to the successive `playlistItems().list` requests in the
 * order they were made.
 */
module Paging {
  import opened Wrappers

  /** A playlist entry, reduced to the video id it points to. */
  datatype PlaylistItem = PlaylistItem(videoId: string)

  /** The reply to `channels().list(mine=True)`: an error, or each channel's uploads playlist. */
  datatype ChannelReply =
    | ChannelHttpError
    | Channels(uploads: seq<string>)

  /** The reply to one `playlistItems().list` request. */
  datatype PageReply =
    | PageHttpError
    | Page(items: seq<PlaylistItem>, nextPageToken: Option<string>)

  /** Python truthiness of the page token: paging continues only on a non-empty token. */
  predicate HasNext(token: Option<string>)
  {
    token.Some? && token.value != ""
  }

  /** The reply at `j` is a page that asks for another one. */
  predicate Continues(replies: seq<PageReply>, j: nat)
  {
    j < |replies| && replies[j].Page? && HasNext(replies[j].nextPageToken)
  }

  /** Reference definition: the items of the first `m` replies, in order (an error reply adds none). */
  function PageItems(replies: seq<PageReply>, m: nat): seq<PlaylistItem>
    requires m <= |replies|
  {
    if m == 0 then []
    else PageItems(replies, m - 1) + (if replies[m - 1].Page? then replies[m - 1].items else [])
  }

  /** Where paging stops after reading `m` pages. */
  predicate StopsAfter(replies: seq<PageReply>, m: nat)
  {
    && m <= |replies|
    && (forall j :: 0 <= j < m ==> replies[j].Page?)
    && (forall j :: 0 <= j < m - 1 ==> HasNext(replies[j].nextPageToken))
    && (|| m == |replies|
        || replies[m].PageHttpError?
        || (m > 0 && !HasNext(replies[m - 1].nextPageToken)))
  }

  /**
   * The playlist loop.  It returns the gathered items and the number of
   * pages read.  A transcript that ends while the last page still carries a
   * token stands for the reads that were made.
   */
  function FetchPages(replies: seq<PageReply>): (r: (seq<PlaylistItem>, nat))
    ensures StopsAfter(replies, r.1)
    ensures r.0 == PageItems(replies, r.1)
    decreases |replies|
  {
    if replies == [] then ([], 0)
    else match replies[0]
      case PageHttpError => ([], 0)
      case Page(items, token) =>
        if !HasNext(token) then (items, 1)
        else
          var rest := FetchPages(replies[1..]);
          PagesShift(replies, rest.1);
          (items + rest.0, rest.1 + 1)
  }

  /** Reading one more page in front shifts the reference definition by one reply. */
  lemma {:induction false} PagesShift(replies: seq<PageReply>, m: nat)
    requires 0 < |replies| && replies[0].Page? && m < |replies|
    ensures PageItems(replies, m + 1) == replies[0].items + PageItems(replies[1..], m)
    decreases m
  {
    if m > 0 {
      PagesShift(replies, m - 1);
      assert replies[1..][m - 1] == replies[m];
    }
  }

  /** There is exactly one place where paging stops. */
  lemma StopIsUnique(replies: seq<PageReply>, m: nat, n: nat)
    requires StopsAfter(replies, m) && StopsAfter(replies, n)
    ensures m == n
  {
  }

  /** A run of continuing pages followed by a reply that ends paging is a stop. */
  lemma StopsAt(replies: seq<PageReply>, m: nat)
    requires m <= |replies|
    requires forall j :: 0 <= j < m - 1 ==> Continues(replies, j)
    requires m > 0 ==> replies[m - 1].Page?
    requires m == |replies| || replies[m].PageHttpError? || (m > 0 && !HasNext(replies[m - 1].nextPageToken))
    ensures StopsAfter(replies, m)
  {
    forall j | 0 <= j < m
      ensures replies[j].Page?
    {
      if j < m - 1 {
        assert Continues(replies, j);
      }
    }
    forall j | 0 <= j < m - 1
      ensures HasNext(replies[j].nextPageToken)
    {
      assert Continues(replies, j);
    }
  }

  /** An error on page `m + 1` returns the items of the `m` pages already read. */
  lemma ErrorReturnsGathered(replies: seq<PageReply>, m: nat)
    requires m < |replies| && replies[m].PageHttpError?
    requires forall j :: 0 <= j < m ==> Continues(replies, j)
    ensures FetchPages(replies).0 == PageItems(replies, m)
  {
    if m > 0 {
      assert Continues(replies, m - 1);
    }
    StopsAt(replies, m);
    StopIsUnique(replies, m, FetchPages(replies).1);
  }

  /** Paging ends with the first page that has no token, after taking its items. */
  lemma LastPageStops(replies: seq<PageReply>, m: nat)
    requires 0 < m <= |replies|
    requires forall j :: 0 <= j < m - 1 ==> Continues(replies, j)
    requires replies[m - 1].Page? && !HasNext(replies[m - 1].nextPageToken)
    ensures FetchPages(replies).0 == PageItems(replies, m)
  {
    var r := FetchPages(replies);
    StopsAt(replies, m);
    StopIsUnique(replies, m, r.1);
  }

  /**
   * The whole of `get_all_channel_videos`: nothing when the lookup fails or
   * finds no channel, otherwise the pages of the first channel's uploads.
   */
  function ChannelVideos(channel: ChannelReply, replies: seq<PageReply>): (r: seq<PlaylistItem>)
    ensures channel.ChannelHttpError? ==> r == []
    ensures channel.Channels? && channel.uploads == [] ==> r == []
    ensures channel.Channels? && channel.uploads != [] ==>
              exists m :: StopsAfter(replies, m) && r == PageItems(replies, m)
  {
    match channel
    case ChannelHttpError => []
    case Channels(uploads) =>
      if uploads == [] then []
      else
        var pages := FetchPages(replies);
        pages.0
  }

  /** `[item['snippet']['resourceId']['videoId'] for item in playlist_items]`. */
  function VideoIds(items: seq<PlaylistItem>): (r: seq<string>)
    ensures |r| == |items|
    ensures forall j :: 0 <= j < |r| ==> r[j] == items[j].videoId
  {
    seq(|items|, j requires 0 <= j < |items| => items[j].videoId)
  }
}
