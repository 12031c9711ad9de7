/** YouTube Music's playback-start hook: remembers the video and playlist
    position last seen and asks for the playlist when either changes. */
module CheckMusicVideo {
  import opened Common

  /** The patch's four static fields. */
  datatype Playback = Playback(playlistId: string, playlistIndex: int, songId: string, videoId: string)

  const Initial := Playback("", -1, "", "")

  /** A request to fetch the playlist around a video. */
  datatype Fetch = Fetch(videoId: string, playlistId: string, playlistIndex: int)

  datatype Started = Started(state: Playback, fetch: Option<Fetch>)

  /** `enabled` is the replace-cast-button setting. */
  function PlaybackStart(s: Playback, enabled: bool, videoId: string, playlistId: string, playlistIndex: int, isPlaying: bool): (r: Started)
    ensures r.fetch.Some? <==>
      enabled && !isPlaying && s.videoId != videoId && !(s.playlistId == playlistId && s.playlistIndex == playlistIndex)
    ensures r.fetch.None? ==> r.state == s
    ensures r.fetch.Some? ==>
      r.fetch.value == Fetch(videoId, playlistId, playlistIndex) &&
      r.state == s.(videoId := videoId, playlistId := playlistId, playlistIndex := playlistIndex)
  {
    if !enabled || isPlaying then Started(s, None)
    else if s.videoId == videoId then Started(s, None)
    else if s.playlistId == playlistId && s.playlistIndex == playlistIndex then Started(s, None)
    else Started(s.(videoId := videoId, playlistId := playlistId, playlistIndex := playlistIndex),
                 Some(Fetch(videoId, playlistId, playlistIndex)))
  }

  function GetSongId(s: Playback): string
  {
    s.songId
  }

  /** The song id also becomes the current video id. */
  function SetSongId(s: Playback, videoId: string): (r: Playback)
    ensures GetSongId(r) == videoId
    ensures r.videoId == videoId
    ensures r.playlistId == s.playlistId && r.playlistIndex == s.playlistIndex
  {
    s.(videoId := videoId, songId := videoId)
  }

  /** Forgets the playlist position and the song, but not the video id. */
  function ClearInformation(s: Playback): (r: Playback)
    ensures r == Initial.(videoId := s.videoId)
  {
    s.(playlistIndex := -1, playlistId := "", songId := "")
  }

  /** Reporting the same start twice fetches at most once. */
  lemma RepeatedStartFetchesOnce(s: Playback, enabled: bool, videoId: string, playlistId: string, playlistIndex: int, isPlaying: bool)
    ensures var first := PlaybackStart(s, enabled, videoId, playlistId, playlistIndex, isPlaying);
            PlaybackStart(first.state, enabled, videoId, playlistId, playlistIndex, isPlaying) == Started(first.state, None)
  {
  }

  /** Once a song id is set, a start of that same video fetches nothing. */
  lemma SongIdSuppressesItsOwnFetch(s: Playback, songId: string, playlistId: string, playlistIndex: int, isPlaying: bool, enabled: bool)
    ensures PlaybackStart(SetSongId(s, songId), enabled, songId, playlistId, playlistIndex, isPlaying).fetch.None?
  {
  }

  /** After clearing, a started video is fetched whenever it differs from the
      remembered one, unless its playlist index is the cleared sentinel and
      its playlist id is empty. */
  lemma ClearedStartFetches(s: Playback, videoId: string, playlistId: string, playlistIndex: int)
    requires videoId != s.videoId
    requires playlistId != "" || playlistIndex != -1
    ensures PlaybackStart(ClearInformation(s), true, videoId, playlistId, playlistIndex, false).fetch
            == Some(Fetch(videoId, playlistId, playlistIndex))
  {
  }
}
