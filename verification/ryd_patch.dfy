/** The Return YouTube Dislike hooks of YouTube Music: start loading the
    votes of a new video, and forward the user's own vote. */
module RydPatch {
  import opened Common

  /** The result of a `newVideoLoaded` call: the remembered video id and the
      id whose votes are to be loaded, if any. */
  datatype Loaded = Loaded(currentVideoId: Option<string>, load: Option<string>)

  /** `enabled` is the dislike setting, `connected` the network state; a
      null id is `None`. */
  function NewVideoLoaded(currentVideoId: Option<string>, enabled: bool, videoId: Option<string>, connected: bool): (r: Loaded)
    ensures r.load.Some? <==>
      enabled && videoId.Some? && videoId.value != "" && currentVideoId != videoId && connected
    ensures r.load.None? ==> r.currentVideoId == currentVideoId
    ensures r.load.Some? ==> r.load == videoId && r.currentVideoId == videoId
  {
    if !enabled then Loaded(currentVideoId, None)
    else if videoId.None? || videoId.value == "" then Loaded(currentVideoId, None)
    else if currentVideoId == videoId then Loaded(currentVideoId, None)
    else if !connected then Loaded(currentVideoId, None)
    else Loaded(videoId, videoId)
  }

  /** The same video reported twice is loaded at most once. */
  lemma RepeatedVideoLoadsOnce(currentVideoId: Option<string>, enabled: bool, videoId: Option<string>, connected: bool)
    ensures var first := NewVideoLoaded(currentVideoId, enabled, videoId, connected);
            NewVideoLoaded(first.currentVideoId, enabled, videoId, connected) == Loaded(first.currentVideoId, None)
  {
  }

  /** An offline report is not remembered, so the same video is loaded once
      the network is back. */
  lemma OfflineVideoLoadsLater(currentVideoId: Option<string>, videoId: string)
    requires videoId != "" && currentVideoId != Some(videoId)
    ensures var offline := NewVideoLoaded(currentVideoId, true, Some(videoId), false);
            NewVideoLoaded(offline.currentVideoId, true, Some(videoId), true).load == Some(videoId)
  {
  }

  /** Finds the first vote kind, in declaration order `votes`, whose integer
      value is `vote`; nothing is sent when the setting is off or no kind
      matches. */
  function SendVote<V>(enabled: bool, votes: seq<V>, value: V -> int, vote: int): (r: Option<V>)
    ensures r.Some? ==> enabled && r.value in votes && value(r.value) == vote
    ensures r.Some? ==> exists k :: 0 <= k < |votes| && votes[k] == r.value && forall j :: 0 <= j < k ==> value(votes[j]) != vote
    ensures r.None? ==> !enabled || forall k :: 0 <= k < |votes| ==> value(votes[k]) != vote
  {
    if !enabled then None else FirstWithValue(votes, value, vote)
  }

  function FirstWithValue<V>(votes: seq<V>, value: V -> int, vote: int): (r: Option<V>)
    ensures r.Some? ==> exists k :: 0 <= k < |votes| && votes[k] == r.value && value(votes[k]) == vote &&
                                    forall j :: 0 <= j < k ==> value(votes[j]) != vote
    ensures r.None? ==> forall k :: 0 <= k < |votes| ==> value(votes[k]) != vote
  {
    if |votes| == 0 then None
    else if value(votes[0]) == vote then Some(votes[0])
    else
      var rest := FirstWithValue(votes[1..], value, vote);
      if rest.Some? then
        ghost var k :| 0 <= k < |votes[1..]| && votes[1..][k] == rest.value && value(votes[1..][k]) == vote &&
                        forall j :: 0 <= j < k ==> value(votes[1..][j]) != vote;
        assert votes[k + 1] == rest.value;
        rest
      else rest
  }

  /** With distinct values, sending a kind's own value selects that kind. */
  lemma SendVoteRoundTrip<V>(votes: seq<V>, value: V -> int, v: V)
    requires v in votes
    requires forall i, j :: 0 <= i < j < |votes| ==> value(votes[i]) != value(votes[j])
    ensures SendVote(true, votes, value, value(v)) == Some(v)
  {
    var r := SendVote(true, votes, value, value(v));
    var i :| 0 <= i < |votes| && votes[i] == v;
    var k :| 0 <= k < |votes| && votes[k] == r.value && forall j :: 0 <= j < k ==> value(votes[j]) != value(v);
    assert value(votes[k]) == value(votes[i]);
  }
}
