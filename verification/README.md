# ReVanced integrations: filter engine, vote-client helpers and patch state machines

This project models, in Dafny, the core logic of the ReVanced integrations
for YouTube and YouTube Music. It covers four parts.

- **The Litho content filter**:
  - filter groups and their results;
  - the byte-array Knuth-Morris-Pratt matcher;
  - string groups, which search for the subject *inside* each pattern;
  - group lists with their lazily built search structure;
  - the engine that registers every filter's groups into three prefix trees and decides whether a component is hidden;
  - the per-thread proto-buffer slot;
  - the debugging helper that extracts ASCII strings from a buffer.
- **The pure helpers of the Return YouTube Dislike client**:
  - the leading-zero-bit count used by the proof-of-work puzzle;
  - the puzzle buffer and its little-endian counter;
  - the rate-limit gate;
  - the response checks;
  - the shape of the random user id.
- **The small state machines**:
  - the navigation-bar tab tracker;
  - video-quality selection and override;
  - the YouTube Music playback-start and dislike hooks;
  - the double-back-to-close timer;
  - the lock-mode, video-type and player-type trackers, and the hook feeding the video type.
- **The settings-to-value mappings**:
  - the storyboard renderer's string form;
  - the codec spoof;
  - the splash animation;
  - the layout override.

Settings, the clock, the network state and random draws are parameters. A Java
exception is an `Err` of the `Result` type in `common.dfy`, and a Java `null`
is `None`. Bytes are unsigned (`0..255`), and the signed reading Java uses is
written out (`Common.Signed`).

The prefix-tree classes (`TrieSearch`, `StringTrieSearch`, `ByteTrieSearch`)
are not part of this model. `TrieSearch.Matches` stands for their `matches`
through a relation, `Allowed`:

- if a callback claimed an occurrence of a registered pattern, that occurrence is reported;
- if a callback threw, the exception is reported;
- if the subject was exhausted, no occurrence was claimed.

No visiting order is assumed, so every property of the engine holds whatever order the real trie uses.

## Model

| member | source | states |
|---|---|---|
| Occurrence.IndexOfIsFirstOccurrence | app/src/main/java/app/revanced/integrations/youtube/patches/components/LithoFilterPatch.java:149-165 | the reference search returns -1 exactly when the pattern never occurs, and otherwise the smallest offset where it occurs |
| Occurrence.FirstOccurrenceIsIndexOf | app/src/main/java/app/revanced/integrations/youtube/patches/components/LithoFilterPatch.java:149-165 | conversely, any occurrence with no earlier occurrence is the offset the reference search returns |
| Kmp.CreateFailurePattern | app/src/main/java/app/revanced/integrations/youtube/patches/components/LithoFilterPatch.java:167-183 | the failure table holds, for every prefix, the length of its longest proper border; so `failure[0] = 0` and `failure[i] <= i` |
| Kmp.IndexOf | app/src/main/java/app/revanced/integrations/youtube/patches/components/LithoFilterPatch.java:149-165 | given a correct failure table, the matcher returns the first offset at which the non-empty pattern occurs in the data, or -1 when it never occurs; this agrees with the reference search. An empty pattern over non-empty data indexes past the empty table and throws |
| Kmp.ExtendBorder | app/src/main/java/app/revanced/integrations/youtube/patches/components/LithoFilterPatch.java:177-180 | a border of a prefix extends by one byte exactly when the next pattern byte matches, which the table-building loop relies on |
| Kmp.BorderOfBorder | app/src/main/java/app/revanced/integrations/youtube/patches/components/LithoFilterPatch.java:173-176 | the borders shorter than a border are exactly that border's own borders, which justifies falling back along the failure table |
| Kmp.FullSuffixIsOccurrence | app/src/main/java/app/revanced/integrations/youtube/patches/components/LithoFilterPatch.java:160-161 | a suffix match of the whole pattern ending at a position is an occurrence starting `|pattern|` earlier |
| FilterGroups.NewFilterGroup | app/src/main/java/app/revanced/integrations/youtube/patches/components/LithoFilterPatch.java:31-37 | constructing a group with no patterns throws; otherwise the group keeps its setting and patterns |
| FilterGroups.ExcludeInSearchMeaning | app/src/main/java/app/revanced/integrations/youtube/patches/components/LithoFilterPatch.java:39-49 | a group is left out of the search exactly when it has a setting that is off and needs an app restart; such a group is disabled, and a group without a setting is always enabled |
| FilterGroups.NoMatch | app/src/main/java/app/revanced/integrations/youtube/patches/components/LithoFilterPatch.java:66-68 | a fresh result has no setting, length 0, and is not a match |
| FilterGroups.StringCheck | app/src/main/java/app/revanced/integrations/youtube/patches/components/LithoFilterPatch.java:116-132 | a disabled group or an empty subject never matches; otherwise the result reports the first pattern that contains the subject, the subject's first offset in it and the pattern's length, and there is no match only when no pattern contains the subject |
| FilterGroups.NewByteArrayFilterGroup | app/src/main/java/app/revanced/integrations/youtube/patches/components/LithoFilterPatch.java:144-146 | constructing a byte group with no patterns throws; otherwise no failure tables exist yet |
| FilterGroups.BuildFailurePatterns | app/src/main/java/app/revanced/integrations/youtube/patches/components/LithoFilterPatch.java:185-194 | builds one correct failure table per pattern, and leaves tables that already exist untouched |
| FilterGroups.ByteCheck | app/src/main/java/app/revanced/integrations/youtube/patches/components/LithoFilterPatch.java:197-214 | a disabled group gives index -1, length 0 and builds nothing; otherwise the tables are built once, and the result is the first pattern, in array order, that occurs, with its first offset and its length. An empty pattern reached before any match throws |
| TrieSearch.Matches | app/src/main/java/app/revanced/integrations/youtube/patches/components/LithoFilterPatch.java:280-288 | the abstract `matches`: the outcome is one the `Allowed` relation admits, whatever the visiting order |
| TrieSearch.NoThrowMeansClaimIffSomeClaims | app/src/main/java/app/revanced/integrations/youtube/patches/components/LithoFilterPatch.java:280-288 | when no callback throws, a match is reported exactly when some occurrence has a callback that claims it |
| FilterGroupLists.EmptyList | app/src/main/java/app/revanced/integrations/youtube/patches/components/LithoFilterPatch.java:227-231 | a new list has no groups and no search structure |
| FilterGroupLists.AddAll | app/src/main/java/app/revanced/integrations/youtube/patches/components/LithoFilterPatch.java:234-237 | appends the groups in order and discards the built search, so the next check rebuilds it |
| FilterGroupLists.RegisterGroupsSound | app/src/main/java/app/revanced/integrations/youtube/patches/components/LithoFilterPatch.java:244-258 | every registered entry is a pattern of a group that is not excluded, carrying that group |
| FilterGroupLists.RegisterGroupsComplete | app/src/main/java/app/revanced/integrations/youtube/patches/components/LithoFilterPatch.java:244-258 | every pattern of every group that is not excluded is registered |
| FilterGroupLists.BuildSearch | app/src/main/java/app/revanced/integrations/youtube/patches/components/LithoFilterPatch.java:239-261 | an existing search is kept; otherwise the new search holds exactly the patterns of the groups that are not excluded |
| FilterGroupLists.Check | app/src/main/java/app/revanced/integrations/youtube/patches/components/LithoFilterPatch.java:280-288 | a match is reported exactly when a registered pattern of a group that is still enabled occurs, and the result then carries that group's setting, the start and the pattern's length; otherwise it is the fresh no-match result |
| FilterGroupLists.FreshCheckMatchesEnabledGroups | app/src/main/java/app/revanced/integrations/youtube/patches/components/LithoFilterPatch.java:239-288 | on a list whose search is not yet built, a match is possible exactly when some pattern of an enabled group occurs in the subject |
| LithoFilter.RegisterStep | app/src/main/java/app/revanced/integrations/youtube/patches/components/LithoFilterPatch.java:370-376 | registering one more filter appends that filter's non-excluded patterns, tagged with the filter and the tree, to each tree |
| LithoFilter.RegisterSound | app/src/main/java/app/revanced/integrations/youtube/patches/components/LithoFilterPatch.java:378-394 | every entry of each engine tree comes from a non-excluded group of the matching list of a registered filter |
| LithoFilter.RegisterComplete | app/src/main/java/app/revanced/integrations/youtube/patches/components/LithoFilterPatch.java:378-394 | every pattern of every non-excluded group of every filter is registered in the tree of its list |
| LithoFilter.StaticInitWellTagged | app/src/main/java/app/revanced/integrations/youtube/patches/components/LithoFilterPatch.java:370-376 | the static initialiser keeps the filter array, and every entry's tag names a registered filter and the group that owns the pattern |
| LithoFilter.SetProtoBuffer | app/src/main/java/app/revanced/integrations/youtube/patches/components/LithoFilterPatch.java:400-412 | a null buffer is ignored and the previous one kept; any other buffer replaces it |
| LithoFilter.SetProtoBufferOn | app/src/main/java/app/revanced/integrations/youtube/patches/components/LithoFilterPatch.java:400-412 | setting a buffer changes only the calling thread's slot |
| LithoFilter.SlotKeepsLastNonNull | app/src/main/java/app/revanced/integrations/youtube/patches/components/LithoFilterPatch.java:400-412 | after any sequence of calls, the slot holds the last non-null buffer passed, or its earlier content if none was |
| LithoFilter.BufferArray | app/src/main/java/app/revanced/integrations/youtube/patches/components/LithoFilterPatch.java:423-434 | the filter reads the slot's array, or an empty array when there is no buffer or it has no backing array |
| LithoFilter.Consulted | app/src/main/java/app/revanced/integrations/youtube/patches/components/LithoFilterPatch.java:440-446 | the identifier tree is consulted only for a non-null identifier, and always before the path tree, which comes before the all-value tree |
| LithoFilter.FilterDecision | app/src/main/java/app/revanced/integrations/youtube/patches/components/LithoFilterPatch.java:417-450 | an empty path is never filtered; otherwise the trees are consulted in order, the first claim filters, an exhausted tree passes to the next, and an exception anywhere answers false |
| LithoFilter.ConsultDefault | app/src/main/java/app/revanced/integrations/youtube/patches/components/LithoFilterPatch.java:378-394 | when every filter keeps the default `isFiltered`, which always answers true, consulting the trees filters exactly when one of them holds an occurrence of an enabled group's pattern |
| LithoFilter.DefaultFilterDecision | app/src/main/java/app/revanced/integrations/youtube/patches/components/LithoFilterPatch.java:417-450 | with default filters, a component is filtered exactly when its path is non-empty and an enabled group's pattern occurs in the identifier (when there is one), the path or the all-value text |
| LithoFilter.FirstTreeThrowFailsOpen | app/src/main/java/app/revanced/integrations/youtube/patches/components/LithoFilterPatch.java:447-449 | if a callback in the first consulted tree can throw and none can claim, the component is not filtered |
| AsciiStrings.RunsCount | app/src/main/java/app/revanced/integrations/youtube/patches/components/LithoFilterPatch.java:482-494 | a buffer splits into one more run of printable bytes than it has non-printable bytes |
| AsciiStrings.RunsKeepPrintable | app/src/main/java/app/revanced/integrations/youtube/patches/components/LithoFilterPatch.java:482-494 | the runs, joined, are exactly the printable bytes of the buffer in order |
| AsciiStrings.RunsArePrintable | app/src/main/java/app/revanced/integrations/youtube/patches/components/LithoFilterPatch.java:483-484 | every byte of every run is a space or a visible ASCII character |
| AsciiStrings.FindAsciiStrings | app/src/main/java/app/revanced/integrations/youtube/patches/components/LithoFilterPatch.java:472-495 | the scan as written emits each run of at least four printable bytes followed by the delimiter, but treats the buffer's final byte as a break, so it emits the runs of the buffer without that byte |
| AsciiStrings.FindAsciiStringsCorrected | app/src/main/java/app/revanced/integrations/youtube/patches/components/LithoFilterPatch.java:472-495 | the scan with the final byte included emits the runs of the whole buffer |
| AsciiStrings.ScansAgreeAfterTrailingBreak | app/src/main/java/app/revanced/integrations/youtube/patches/components/LithoFilterPatch.java:484 | when the final byte is not printable, both scans give the same text |
| AsciiStrings.PrintableBufferIsOneRun | app/src/main/java/app/revanced/integrations/youtube/patches/components/LithoFilterPatch.java:482-494 | a buffer of printable bytes is one run |
| AsciiStrings.AsWrittenDropsFinalCharacter | app/src/main/java/app/revanced/integrations/youtube/patches/components/LithoFilterPatch.java:484-485 | for four printable bytes the scan as written emits nothing, although the whole buffer is a run of the minimum length |
| RydApi.BranchCountIsSevenMinusLog2 | app/src/main/java/app/revanced/integrations/music/returnyoutubedislike/requests/ReturnYouTubeDislikeApi.java:439-448 | for a non-zero byte, the shift-and-count branches give 7 minus its integer logarithm, that is, its leading zero bits |
| RydApi.LeadingZeroBitsShape | app/src/main/java/app/revanced/integrations/music/returnyoutubedislike/requests/ReturnYouTubeDislikeApi.java:431-453 | the count is 8 per leading zero byte plus the leading zero bits of the first non-zero byte; it is at most 8 per byte, and exactly that for an all-zero or empty input |
| RydApi.CountLeadingZeroes | app/src/main/java/app/revanced/integrations/music/returnyoutubedislike/requests/ReturnYouTubeDislikeApi.java:431-453 | the loop with its early exit computes that count, which lies in 0..8·length |
| RydApi.CounterRoundTrip | app/src/main/java/app/revanced/integrations/music/returnyoutubedislike/requests/ReturnYouTubeDislikeApi.java:404-408 | the four counter bytes, read little-endian, give back the counter modulo 2^32, and the counter itself when it is not negative |
| RydApi.CounterEncodingOnto | app/src/main/java/app/revanced/integrations/music/returnyoutubedislike/requests/ReturnYouTubeDislikeApi.java:404-408 | every four-byte prefix is written by exactly the counter it decodes to |
| RydApi.PuzzleBuffer | app/src/main/java/app/revanced/integrations/music/returnyoutubedislike/requests/ReturnYouTubeDislikeApi.java:391-408 | a decoded challenge shorter than 16 bytes makes the copy throw; otherwise the buffer has 20 bytes, the counter in bytes 0..3 and the first 16 challenge bytes in 4..19 |
| RydApi.CheckIfRateLimitInEffect | app/src/main/java/app/revanced/integrations/music/returnyoutubedislike/requests/ReturnYouTubeDislikeApi.java:72-83 | a call is refused exactly when a resume time is set and has not passed; a refusal keeps the resume time, and a pass clears it |
| RydApi.OpenGateStaysOpen | app/src/main/java/app/revanced/integrations/music/returnyoutubedislike/requests/ReturnYouTubeDislikeApi.java:64-83 | with no resume time set, every later check passes, because nothing sets one |
| RydApi.GateRefusesUntilResume | app/src/main/java/app/revanced/integrations/music/returnyoutubedislike/requests/ReturnYouTubeDislikeApi.java:72-83 | with a resume time set, checks are refused until the first one after it, and from then on all checks pass |
| RydApi.CheckIfRateLimitWasHit | app/src/main/java/app/revanced/integrations/music/returnyoutubedislike/requests/ReturnYouTubeDislikeApi.java:88-90 | the rate limit was hit exactly for status 429 |
| RydApi.UpdateRateLimitAndStats | app/src/main/java/app/revanced/integrations/music/returnyoutubedislike/requests/ReturnYouTubeDislikeApi.java:92-99 | the update throws exactly when both the connection-error and the rate-limit flags are set, shows the rate-limit notice when only the latter is, and does nothing otherwise |
| RydApi.ResponseThrowsOnlyOnFlaggedRateLimit | app/src/main/java/app/revanced/integrations/music/returnyoutubedislike/requests/ReturnYouTubeDislikeApi.java:88-99 | fed a status code, the update throws exactly for a 429 that is also flagged as a connection error |
| RydApi.AlphabetIsAlphanumeric | app/src/main/java/app/revanced/integrations/music/returnyoutubedislike/requests/ReturnYouTubeDislikeApi.java:422 | the alphabet has 62 distinct characters and holds exactly the ASCII letters and digits |
| RydApi.RandomString | app/src/main/java/app/revanced/integrations/music/returnyoutubedislike/requests/ReturnYouTubeDislikeApi.java:421-429 | the id has 36 characters, each the alphabet character at the drawn index, so each a letter or digit |
| RydApi.RandomStringReachesEveryId | app/src/main/java/app/revanced/integrations/music/returnyoutubedislike/requests/ReturnYouTubeDislikeApi.java:421-429 | every 36-character alphanumeric string is produced by exactly one sequence of draws |
| NavigationBar.ButtonsAndNamesAreDistinct | app/src/main/java/app/revanced/integrations/youtube/shared/NavigationBar.java:237-274 | the ten buttons are listed once each, and no two share a YouTube enum name |
| NavigationBar.LibraryTabsAreTheLastFive | app/src/main/java/app/revanced/integrations/youtube/shared/NavigationBar.java:309-313 | the library-or-You test holds exactly for the five library buttons |
| NavigationBar.FirstNamed | app/src/main/java/app/revanced/integrations/youtube/shared/NavigationBar.java:155-160 | the lookup finds a button whose enum name is the last name, and finds none only when no button has that name |
| NavigationBar.ButtonNamedRoundTrip | app/src/main/java/app/revanced/integrations/youtube/shared/NavigationBar.java:237-274 | each button is found by its own enum name |
| NavigationBar.SetLastAppNavigationEnum | app/src/main/java/app/revanced/integrations/youtube/shared/NavigationBar.java:143-147 | a null enum leaves the last name unchanged; any other enum stores its name |
| NavigationBar.NavigationTabLoaded | app/src/main/java/app/revanced/integrations/youtube/shared/NavigationBar.java:152-172 | the view is mapped to the button named by the last enum name; an unknown name leaves everything unchanged |
| NavigationBar.NavigationImageResourceTabLoaded | app/src/main/java/app/revanced/integrations/youtube/shared/NavigationBar.java:179-188 | after the Create tab's name the name is kept and the view becomes the Create button, nothing else changing; after any other name, the name is replaced by the You tab's and the view becomes that button |
| NavigationBar.NavigationTabSelected | app/src/main/java/app/revanced/integrations/youtube/shared/NavigationBar.java:193-219 | deselection changes nothing; selecting an unmapped view clears the selection and keeps the latch; selecting a mapped view selects its button and releases the latch |
| NavigationBar.OnBackPressed | app/src/main/java/app/revanced/integrations/youtube/shared/NavigationBar.java:224-227 | a back press re-creates the latch and changes nothing else |
| NavigationBar.GetSelectedNavigationButton | app/src/main/java/app/revanced/integrations/youtube/shared/NavigationBar.java:101-131 | returns the selected button; off the main thread a pending latch is released, on it the latch is left as is |
| NavigationBar.YouTabLoadedThenSelected | app/src/main/java/app/revanced/integrations/youtube/shared/NavigationBar.java:179-219 | loading a non-Create image tab and then selecting it selects the You tab and releases the latch |
| NavigationBar.CreateTabLoadedThenSelected | app/src/main/java/app/revanced/integrations/youtube/shared/NavigationBar.java:179-219 | loading the Create tab through the image-resource hook keeps its name, and selecting it then selects the Create button and releases the latch |
| NavigationBar.LoadedTabSelectsItsButton | app/src/main/java/app/revanced/integrations/youtube/shared/NavigationBar.java:143-219 | after an enum is recorded and its tab loaded, selecting that view selects the enum's button |
| VideoQuality.Initialize | app/src/main/java/app/revanced/integrations/youtube/patches/video/VideoQualityPatch.java:31-34 | a new video drops the custom quality |
| VideoQuality.OverrideCustomQuality | app/src/main/java/app/revanced/integrations/youtube/patches/video/VideoQualityPatch.java:63-67 | the custom quality is set, switched on and applied |
| VideoQuality.ChangeDefaultQuality | app/src/main/java/app/revanced/integrations/youtube/patches/video/VideoQualityPatch.java:42-61 | the quality is always overridden first; it is saved only when saving is on and there is a network, into the mobile setting on mobile data and into the Wi-Fi setting on any other network |
| VideoQuality.QualityChoiceIsUnique | app/src/main/java/app/revanced/integrations/youtube/patches/video/VideoQualityPatch.java:117-128 | the quality-choice relation determines one quality |
| VideoQuality.SetVideoQuality | app/src/main/java/app/revanced/integrations/youtube/patches/video/VideoQualityPatch.java:117-128 | without a list, the preferred value is used; an empty list throws; otherwise the choice is the larger of the first (automatic) entry and the best entry not above the preferred value, which is always a list entry |
| VideoQuality.OverideDefaultVideoQuality | app/src/main/java/app/revanced/integrations/youtube/patches/video/VideoQualityPatch.java:69-82 | the setting for the current network is read; the automatic value -2 does nothing; otherwise the custom quality, if set, or else the setting is applied through the selection above |
| VideoQuality.UserChangedQualityIndex | app/src/main/java/app/revanced/integrations/youtube/patches/video/VideoQualityPatch.java:147-152 | with no known list nothing happens; an index outside the list throws; otherwise the pick is a manual quality change of that entry: it is applied and forced, saved as the mobile or Wi-Fi default when saving is on and there is a network, and the offered list is kept |
| VideoQuality.ManualChoiceIsTheNextWish | app/src/main/java/app/revanced/integrations/youtube/patches/video/VideoQualityPatch.java:42-82 | after a manual change, the next default-quality override asks for that same quality on any network |
| VideoQuality.OldMenuPickIsTheNextWish | app/src/main/java/app/revanced/integrations/youtube/patches/video/VideoQualityPatch.java:147-152 | after an in-range pick from the old menu, the next video-start wish is that entry on any network, and an entry at least as high as the automatic one is then chosen for itself |
| VideoQuality.OfferedQualityIsChosenForItself | app/src/main/java/app/revanced/integrations/youtube/patches/video/VideoQualityPatch.java:117-128 | asking for a quality that is offered and not below the automatic entry selects exactly that quality |
| EnumTracker.Lookup | app/src/main/java/app/revanced/integrations/youtube/shared/LockModeState.kt:22-23 | the name lookup finds a value of that name, and finds none only when no value has it |
| EnumTracker.LookupRoundTrip | app/src/main/java/app/revanced/integrations/youtube/shared/LockModeState.kt:22-23 | with distinct names, each value is found by its own name |
| EnumTracker.Set | app/src/main/java/app/revanced/integrations/youtube/shared/LockModeState.kt:23-41 | no value leaves the tracker unchanged; a value becomes current, and one change event is recorded exactly when it differs from the current value |
| EnumTracker.SetIdempotent | app/src/main/java/app/revanced/integrations/youtube/shared/LockModeState.kt:26-28 | setting the same value twice is setting it once, and fires at most one event |
| EnumTracker.SetKeepsEventsConsistent | app/src/main/java/app/revanced/integrations/youtube/shared/LockModeState.kt:26-41 | the last recorded event is always the current value, and two consecutive events always differ |
| LockModeState.NamesIdentifyStates | app/src/main/java/app/revanced/integrations/youtube/shared/LockModeState.kt:9-23 | the six states are listed with distinct names, and each is found by its name |
| LockModeState.FromName | app/src/main/java/app/revanced/integrations/youtube/shared/LockModeState.kt:22-23 | a name of a state finds that state; any other name finds nothing |
| LockModeState.SetFromString | app/src/main/java/app/revanced/integrations/youtube/shared/LockModeState.kt:22-44 | the state starts unknown; an unknown name changes nothing; a known name becomes current, with one event when it differs and none when it is already current |
| LockModeState.TwoStatesAreLocked | app/src/main/java/app/revanced/integrations/youtube/shared/LockModeState.kt:53-55 | exactly the locked and unlock-expanded states count as locked |
| LockModeState.SetFromStringIdempotent | app/src/main/java/app/revanced/integrations/youtube/shared/LockModeState.kt:26 | repeating a call changes nothing more |
| VideoType.NamesIdentifyTypes | app/src/main/java/app/revanced/integrations/music/shared/VideoType.kt:9-22 | the nine types are listed with distinct names, and each is found by its name |
| VideoType.FromName | app/src/main/java/app/revanced/integrations/music/shared/VideoType.kt:22-26 | a name of a type finds that type; any other name finds nothing |
| VideoType.SetFromString | app/src/main/java/app/revanced/integrations/music/shared/VideoType.kt:25-47 | the type starts unknown; an unknown name changes nothing; a known name becomes current, with one event when it differs and none when it is already current |
| VideoType.OneTypeIsMusicVideo | app/src/main/java/app/revanced/integrations/music/shared/VideoType.kt:56-58 | exactly the official-music-video type is a music video |
| VideoType.SetFromStringIdempotent | app/src/main/java/app/revanced/integrations/music/shared/VideoType.kt:29 | repeating a call changes nothing more |
| PlayerType.NamesIdentifyTypes | app/src/main/java/app/revanced/integrations/music/shared/PlayerType.kt:9-22 | the eight player types are listed with distinct names, and each is found by its name |
| PlayerType.FromName | app/src/main/java/app/revanced/integrations/music/shared/PlayerType.kt:22-26 | a name of a type finds that type; any other name finds nothing |
| PlayerType.SetFromString | app/src/main/java/app/revanced/integrations/music/shared/PlayerType.kt:24-46 | the type starts minimized; an unknown name changes nothing; a known name becomes current, with one event when it differs and none when it is already current |
| PlayerType.FirstTwoAreDismissedOrMinimized | app/src/main/java/app/revanced/integrations/music/shared/PlayerType.kt:55-57 | exactly the dismissed and minimized types are out of the way |
| PlayerType.SetFromStringIdempotent | app/src/main/java/app/revanced/integrations/music/shared/PlayerType.kt:29 | repeating a call changes nothing more |
| VideoTypeHook.SetVideoType | app/src/main/java/app/revanced/integrations/music/patches/utils/VideoTypeHookPatch.java:12-17 | a null enum leaves the tracker unchanged; any other enum is set by its name |
| VideoTypeHook.HookFollowsMatchingNames | app/src/main/java/app/revanced/integrations/music/patches/utils/VideoTypeHookPatch.java:16 | an enum named like a video type makes that type current; any other name leaves the tracker unchanged |
| VideoTypeHook.RepeatedHookFiresAtMostOnce | app/src/main/java/app/revanced/integrations/music/patches/utils/VideoTypeHookPatch.java:16 | reporting the same enum twice changes nothing more and fires at most one event |
| CheckMusicVideo.PlaybackStart | app/src/main/java/app/revanced/integrations/music/patches/utils/CheckMusicVideoPatch.java:32-55 | nothing happens when the setting is off, the player is already playing, the video is the current one, or the playlist id and index are both the current ones; otherwise the three fields take the arguments and exactly one playlist fetch is issued |
| CheckMusicVideo.SetSongId | app/src/main/java/app/revanced/integrations/music/patches/utils/CheckMusicVideoPatch.java:57-64 | the song id read back is the one set, and it also becomes the current video id |
| CheckMusicVideo.ClearInformation | app/src/main/java/app/revanced/integrations/music/patches/utils/CheckMusicVideoPatch.java:66-70 | the playlist id, index and song id return to their initial values; the video id is kept |
| CheckMusicVideo.RepeatedStartFetchesOnce | app/src/main/java/app/revanced/integrations/music/patches/utils/CheckMusicVideoPatch.java:37-51 | reporting the same playback start twice fetches at most once |
| CheckMusicVideo.SongIdSuppressesItsOwnFetch | app/src/main/java/app/revanced/integrations/music/patches/utils/CheckMusicVideoPatch.java:37-64 | once a song id is set, a playback start of that video fetches nothing |
| CheckMusicVideo.ClearedStartFetches | app/src/main/java/app/revanced/integrations/music/patches/utils/CheckMusicVideoPatch.java:41-70 | after clearing, a new video fetches unless its playlist position is the cleared one |
| RydPatch.NewVideoLoaded | app/src/main/java/app/revanced/integrations/music/patches/utils/ReturnYouTubeDislikePatch.java:39-60 | nothing happens when the feature is off, the id is null or empty, the id is the current one, or the network is down; otherwise the id becomes current and exactly one load is issued |
| RydPatch.RepeatedVideoLoadsOnce | app/src/main/java/app/revanced/integrations/music/patches/utils/ReturnYouTubeDislikePatch.java:47-56 | reporting the same video twice loads it at most once |
| RydPatch.OfflineVideoLoadsLater | app/src/main/java/app/revanced/integrations/music/patches/utils/ReturnYouTubeDislikePatch.java:50-56 | an id ignored while offline is not remembered, so it loads once the network is back |
| RydPatch.SendVote | app/src/main/java/app/revanced/integrations/music/patches/utils/ReturnYouTubeDislikePatch.java:69-85 | nothing is sent when the feature is off or no vote kind has the value; otherwise the first kind with that value is sent |
| RydPatch.SendVoteRoundTrip | app/src/main/java/app/revanced/integrations/music/patches/utils/ReturnYouTubeDislikePatch.java:75-79 | with distinct values, sending a kind's own value sends that kind |
| DoubleBack.Initial | app/src/main/java/app/revanced/integrations/youtube/patches/utils/DoubleBackToClosePatch.java:13-23 | the timeout is the setting's seconds times 1000; the last press time starts at 0 and the view is not at the top |
| DoubleBack.CloseActivityOnBackPressed | app/src/main/java/app/revanced/integrations/youtube/patches/utils/DoubleBackToClosePatch.java:30-44 | away from the top a press does nothing; at the top it closes the app when the last press was less than the timeout ago or the timeout is 0, keeping the last press time, and otherwise records the press |
| DoubleBack.OnStartScrollView | app/src/main/java/app/revanced/integrations/youtube/patches/utils/DoubleBackToClosePatch.java:51-53 | leaving the top clears the at-top flag and keeps the rest |
| DoubleBack.OnStopScrollView | app/src/main/java/app/revanced/integrations/youtube/patches/utils/DoubleBackToClosePatch.java:60-62 | reaching the top sets the at-top flag and keeps the rest |
| DoubleBack.SecondPressWithinTimeoutCloses | app/src/main/java/app/revanced/integrations/youtube/patches/utils/DoubleBackToClosePatch.java:39-43 | after a first press that only arms the gesture, a second press closes the app exactly when it comes within the timeout |
| DoubleBack.ZeroTimeoutClosesAtOnce | app/src/main/java/app/revanced/integrations/youtube/patches/utils/DoubleBackToClosePatch.java:39-41 | with a zero timeout, the first press at the top closes the app |
| DoubleBack.ScrollingDisarms | app/src/main/java/app/revanced/integrations/youtube/patches/utils/DoubleBackToClosePatch.java:32-53 | after scrolling away from the top no press closes the app |
| Storyboard.Make | app/src/main/java/app/revanced/integrations/youtube/patches/misc/StoryboardRenderer.java:17-38 | the getters return exactly the constructor arguments |
| Storyboard.NatDigits | app/src/main/java/app/revanced/integrations/youtube/patches/misc/StoryboardRenderer.java:46 | the decimal digits of a number have no leading zero |
| Storyboard.DecimalRoundTrip | app/src/main/java/app/revanced/integrations/youtube/patches/misc/StoryboardRenderer.java:46 | a level printed in decimal reads back as the same number |
| Storyboard.ToString | app/src/main/java/app/revanced/integrations/youtube/patches/misc/StoryboardRenderer.java:42-49 | the text starts with the record name and the spec (null printed as "null") and ends with a brace; a non-live renderer adds the closing quote and the level before the brace |
| Storyboard.RecommendedLevelReadsBack | app/src/main/java/app/revanced/integrations/youtube/patches/misc/StoryboardRenderer.java:45-48 | a non-live renderer's level can be read back from the text between the label and the brace |
| Storyboard.LiveStreamOmitsLevel | app/src/main/java/app/revanced/integrations/youtube/patches/misc/StoryboardRenderer.java:45-48 | a live-stream renderer prints the spec right before the brace, with neither the closing quote nor the level |
| Storyboard.LiveStreamIgnoresLevel | app/src/main/java/app/revanced/integrations/youtube/patches/misc/StoryboardRenderer.java:45 | the level of a live-stream renderer does not affect its text |
| CodecOverride.GetManufacturer | app/src/main/java/app/revanced/integrations/youtube/patches/misc/CodecOverridePatch.java:8-13 | with the override off the manufacturer is kept; on, it is "Samsung" or "Google" by the vendor flag |
| CodecOverride.GetBrand | app/src/main/java/app/revanced/integrations/youtube/patches/misc/CodecOverridePatch.java:15-20 | with the override off the brand is kept; on, it is "samsung" or "google" by the vendor flag |
| CodecOverride.GetModel | app/src/main/java/app/revanced/integrations/youtube/patches/misc/CodecOverridePatch.java:22-27 | with the override off the model is kept; on, it is "SM-G955W" or "Pixel 7 Pro" by the vendor flag |
| CodecOverride.ShouldForceOpus | app/src/main/java/app/revanced/integrations/youtube/patches/misc/CodecOverridePatch.java:29-31 | Opus is forced exactly when its setting is on |
| CodecOverride.ShouldForceCodec | app/src/main/java/app/revanced/integrations/youtube/patches/misc/CodecOverridePatch.java:33-35 | the codec is forced when the override is on or the app already forces it |
| CodecOverride.OverridesNameOneVendor | app/src/main/java/app/revanced/integrations/youtube/patches/misc/CodecOverridePatch.java:8-27 | with the override on, the three answers describe the same vendor, and the brand is the manufacturer in lower case |
| CodecOverride.VendorsDiffer | app/src/main/java/app/revanced/integrations/youtube/patches/misc/CodecOverridePatch.java:12-26 | the two vendors differ in each of the three answers |
| CodecOverride.DisabledIsIdentity | app/src/main/java/app/revanced/integrations/youtube/patches/misc/CodecOverridePatch.java:8-35 | with the override off, the device identity and the app's own codec choice pass through unchanged |
| SplashAnimation.EnableNewSplashAnimationBoolean | app/src/main/java/app/revanced/integrations/youtube/patches/misc/SplashAnimationPatch.java:9-16 | the setting decides, ignoring the original; a failed read keeps the original |
| SplashAnimation.EnableNewSplashAnimationInt | app/src/main/java/app/revanced/integrations/youtube/patches/misc/SplashAnimationPatch.java:18-28 | kind 0 becomes 3 when the setting is on and stays 0 otherwise; any other kind, and any failed read, keeps the original |
| SplashAnimation.HooksAgree | app/src/main/java/app/revanced/integrations/youtube/patches/misc/SplashAnimationPatch.java:9-28 | for kind 0 the integer hook picks the new animation exactly when the boolean hook, with original false, does, and it only ever answers 0 or 3 |
| SplashAnimation.IntHookIdempotent | app/src/main/java/app/revanced/integrations/youtube/patches/misc/SplashAnimationPatch.java:18-28 | applying the integer hook twice is applying it once |
| LayoutOverride.EnableTabletLayout | app/src/main/java/app/revanced/integrations/youtube/patches/misc/LayoutOverridePatch.java:12-19 | the tablet layout is on exactly when the setting reads as on; a failed read is off |
| LayoutOverride.GetLayoutOverride | app/src/main/java/app/revanced/integrations/youtube/patches/misc/LayoutOverridePatch.java:21-28 | the phone layout forces width 480; with it off, or a failed read, the original width is kept |
| LayoutOverride.LayoutOverrideIdempotent | app/src/main/java/app/revanced/integrations/youtube/patches/misc/LayoutOverridePatch.java:21-28 | the override is idempotent, and with the phone layout on it does not depend on the original width |

## Left out

- The prefix trees (`TrieSearch`, `StringTrieSearch`, `ByteTrieSearch`) are not part of this model. Their `matches` is the relation described above. Their memory estimate and pattern count are not modelled.
- `ByteArrayAsStringFilterGroup` and `ByteArrayFilterGroupList` are not modelled. They only re-encode strings as bytes and reuse the byte group and the generic list.
- The group list's `iterator`, `forEach` and `spliterator` are not modelled; they only expose the list, which the model holds as a sequence.
- `toString` of filter groups and of `LithoFilterParameters` is not modelled; it is logging text. `findAsciiStrings`, which it calls, is modelled.
- Thread safety is not modelled: `synchronized`, `volatile`, the thread-local buffer (one slot per thread, as a map) and races on `buildSearch`.
- The latch's wait timeout is not modelled. A wait off the main thread always ends with the latch released, whether by selection or by timeout.
- Logging, toasts and debug-only branches are not modelled.
- `solvePuzzle`'s Base64, SHA-512 and `Math.pow` loop bound are not modelled. Only the buffer it hashes is.
- The network calls of the vote client (registration, votes, fetching) are not modelled. `randomString`'s `SecureRandom` is a sequence of draws.
- `VideoQualityPatch.setVideoQualityList` is not modelled: it reads fields by reflection. The known quality list is a parameter of the state instead.
- `VideoQualityPatch.userChangedQuality` is not modelled: it goes through `VideoHelpers.getCurrentQuality`, which is not part of this model.
- The 300 ms delay before applying a quality is not modelled; the quality is applied directly.
- The `ReturnYouTubeDislike` class is not part of this model: its vote kinds are a parameter, and loading and sending are outputs.
- `PlaylistRequester` is not part of this model: a playlist fetch is an output.
- `onComponentCreated` is not modelled; it only forwards to a class that is not part of this model.
- Change listeners are not modelled. A tracker records the values it announces as a list of events.
- `CheckMusicVideo.PlaybackStart`, `RydPatch.NewVideoLoaded`: an exception caught by the source's `try` (from reading a setting or from the request) is not modelled, because the settings are plain parameters here.
- `DoubleBack.CloseActivityOnBackPressed`: time arithmetic uses unbounded integers. The source's 64-bit subtraction cannot wrap for clock values, which are far below 2^62.
- `RydApi.CheckIfRateLimitInEffect`: the clock read is the `now` parameter.
- `Storyboard.Make`: the Java `Integer` level is any integer here. Java's `Integer.toString` and the model's decimal text agree on the 32-bit range.
- `FilterGroups.StringCheck`: the matched index and length count Unicode scalar values (a Dafny `string`), while Java's `indexOf` and `length()` count UTF-16 code units. The two agree on text without supplementary characters; text with one (such as an emoji) gets smaller offsets here, and a Java string holding a lone surrogate cannot be represented. Whether a match is found is the same for well-formed text.
- `TrieSearch.Matches`, `LithoFilter.FilterDecision`: for the string trees the match start handed to a callback counts Unicode scalar values, not UTF-16 code units, for the same reason as `FilterGroups.StringCheck`; the byte trees count bytes as the source does.

## Findings

| source | as written | input that shows it | evidently intended | confidence | as-written member | corrected member |
|---|---|---|---|---|---|---|
| app/src/main/java/app/revanced/integrations/youtube/patches/components/LithoFilterPatch.java:484-487 | the final byte is always treated as a break, so a printable run that ends the buffer loses its last byte, and it is emitted only if the other bytes are at least four | the 4-byte buffer "abcd" gives nothing instead of "abcd❙" | a run that ends the buffer is emitted whole, by the same rule as any other run | medium, not executed | AsciiStrings.FindAsciiStrings, AsciiStrings.AsWrittenDropsFinalCharacter | AsciiStrings.FindAsciiStringsCorrected |
