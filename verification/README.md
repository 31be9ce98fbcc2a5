# MN-1 music player: track list, transport and waveform envelope

This project models two revisions of a desktop music player written in
Python, and proves properties of the models in Dafny.

- `MN-1.py` is the earlier revision. From it come the transport state
  machine and the peak envelope for the static waveform view.
  - The transport covers play, pause, stop, next and previous with
    wrap-around, loop modes, shuffle, volume and mute, seeking with the
    position slider, the periodic position update, the end-of-track policy
    and that revision's track removal.
  - The envelope is stereo mixdown, a chunk size of n div 300 (at least
    1), and per chunk the largest magnitude divided by 32768.
- `Mn-1.py` is the later revision. From it come the track-list side:
  - the theme cycle;
  - the title line and its status prefix;
  - adding files with the `.mp3`/`.flac` filter and de-duplication;
  - single selection and playing the selection;
  - removing the selected entry with repair of the current index;
  - clearing the list;
  - the state-dependent button styling.

Each revision's state is an immutable record, `Transport.Player` for
MN-1 and `Playlist.Library` for Mn-1. Every handler is a pure function
from the record to the next record. Whatever the audio libraries would
report becomes a parameter of the handler:

- pygame's `get_busy`, `get_pos`, `get_volume`, `load`/`play` success and
  seek success;
- pydub's decoded samples;
- mutagen's track length and readability;
- `os.path.exists`;
- the index that `random.choice` draws.

In both revisions an exception that escapes a Tk callback ends the
handler, and the assignments made before it stay. The models keep exactly
those assignments, for example in `slide_song` with an unknown track
length, or in `remove_song` of MN-1 when the entry list is longer than the
song list.

Modules:

- `Wrappers`: `Option`.
- `Tracklist`: the `{"selected", "index"}` entries both revisions keep,
  the first-highlighted scan, single highlight, `pop` and re-indexing.
- `Paths`: `os.path.basename`, the extension `os.path.splitext` finds,
  and lower-casing, on POSIX paths.
- `Waveform`: `generate_waveform_data`.
- `Transport` and `TransportProps`: the MN-1 player and its properties.
- `Playlist` and `PlaylistProps`: the Mn-1 track list and its properties.

Where the two revisions differ, each is modelled as written:

- After a removal, MN-1 moves an index at or after the removed position
  back by one. Mn-1 distinguishes the loaded song and clamps.
- `select_song` with an out-of-range index clears every highlight in
  MN-1. In Mn-1 it changes nothing.

Two facts of the earlier revision's code are easy to miss.

- The envelope's chunk size is n div 300, at least 1. Fewer than 300
  samples give one peak each; otherwise there are between 300 and 599
  peaks (`Waveform.PeakCountBounds`).
- After the last track, with no loop mode and shuffle off, the closing
  `stop` does nothing, because the playing flag is already clear. The
  position stays where it was (`TransportProps.EndOfLastTrack`).

## Model

| member | source | states |
|---|---|---|
| Tracklist.FirstSelected | Mn-1.py:714-722 | The result is the position of the first highlighted entry, with nothing highlighted before it. It is -1 exactly when no entry is highlighted. |
| Tracklist.SelectOnly | MN-1.py:389-403 | Afterwards exactly the entry at the given position is highlighted, and none is for an out-of-range position. Every stored index is kept. |
| Tracklist.SelectOnlyKeepsShape | Mn-1.py:668-682 | Highlighting one entry keeps every entry's stored position correct and leaves at most one entry highlighted. |
| Tracklist.RemoveAt | MN-1.py:445-446 | `pop(k)` yields a list one shorter. The elements before k are unchanged, and those after k shift down by one. |
| Tracklist.ReindexFrom | MN-1.py:449-450 | Every entry from position k on stores its own position. Earlier entries and all highlight flags are untouched. |
| Tracklist.RemoveReindexAligned | Mn-1.py:735-748 | After popping the highlighted position and re-indexing, every entry again stores its own position, and at most one entry stays highlighted. |
| Tracklist.RemoveAtNoDup | Mn-1.py:737-738 | Popping a path from a duplicate-free song list leaves it duplicate-free. |
| Paths.LastIndexOf | Mn-1.py:614 | The result is the last position holding the character, with none after it, or -1 when the character does not occur. |
| Paths.Basename | Mn-1.py:620 | The base name is a suffix of the path with no separator in it. It is the whole path, or a separator stands just before it, so it starts right after the last separator. |
| Paths.Extension | Mn-1.py:614 | The extension is that of the path's base name: empty, or the base name's suffix from a dot, with no further dot and with a non-dot character somewhere before that dot. It is empty only when the base name has no dot, or only dots before its last one. |
| Paths.NameExtension | Mn-1.py:614 | For a file name, the same two-way characterisation of `splitext`'s extension. |
| Paths.HasAudioExtension | Mn-1.py:614-618 | Every path the format filter accepts ends in `.mp3` or `.flac`, in any letter case. The converse, for file names with a stem, is `Paths.FilterAccepts`. |
| Paths.Lower | Mn-1.py:614 | Lower-casing keeps the length and maps every character through the ASCII lower-casing of `LowerChar`. |
| Paths.LowerChar | Mn-1.py:614 | An upper-case ASCII letter becomes the lower-case letter at the same place in the alphabet. Every other character is unchanged. |
| Paths.AcceptedPathsEndInAudioSuffix | Mn-1.py:614-618 | Every path the format filter accepts ends in `.mp3` or `.flac`, in any letter case. |
| Paths.FilterAccepts | Mn-1.py:614-618 | The filter accepts every path made of a directory part (empty, or ending in `/`), a stem without `/` that holds a non-dot character, and `.mp3` or `.flac` in any letter case. |
| Paths.NameWithAudioSuffix | Mn-1.py:614 | A file name made of a stem holding a non-dot character and an accepted suffix has an extension that lower-cases to that suffix. |
| Paths.BasenameAfterDir | Mn-1.py:620 | After a directory part that is empty or ends in `/`, the base name of the path is the name that follows it. |
| Paths.ExtensionFromSuffix | Mn-1.py:614 | A file name ending in a suffix that lower-cases to a dot followed by non-dots, after a stem with a non-dot, has exactly that suffix as its extension. |
| Paths.FilterAcceptsUpperCase | Mn-1.py:614-616 | `/music/Song.MP3` passes the filter, because the comparison is case-insensitive. |
| Paths.FilterRejectsDotFile | Mn-1.py:614-618 | `/music/.mp3` is rejected, because a leading dot starts no extension. |
| Paths.FilterRejectsDottedDirectory | Mn-1.py:614-618 | `/music.mp3/notes` is rejected, because a dot in a directory name is not the file's extension. |
| Waveform.Mixdown | MN-1.py:600-603 | Any channel count other than two is passed through unchanged. Stereo input becomes the per-frame means of consecutive sample pairs. Odd-length stereo input cannot be reshaped and fails. |
| Waveform.Magnitudes | MN-1.py:614 | Each value is the absolute value of the corresponding input sample. |
| Waveform.ChunkSize | MN-1.py:607 | The chunk size is at least 1. It is 1 below 300 samples, and otherwise the c with 300c ≤ n < 300(c+1). |
| Waveform.ChunksNonEmpty | MN-1.py:610-612 | The k-th chunk is non-empty exactly when the loop reaches it, so the `len(chunk) > 0` guard never skips a chunk. |
| Waveform.ChunkCountIsCeil | MN-1.py:610 | The loop runs ⌈n / chunk size⌉ times. |
| Waveform.ChunkIsSlice | MN-1.py:611 | The k-th chunk is the slice `samples[k*cs : k*cs+cs]`, cut at the end of the input. |
| Waveform.ChunkValuesFromInput | MN-1.py:611 | Every value in a chunk comes from the input. |
| Waveform.Envelope | MN-1.py:607-615 | One peak per chunk of the given size. Each peak times 32768 is the largest value of its slice `samples[k*cs : k*cs+cs]`: it occurs there and nothing there exceeds it. |
| Waveform.PeaksOf | MN-1.py:605-615 | With the chunk size taken from the length, there are one peak per chunk. Each peak times 32768 is its slice's maximum. |
| Waveform.ChunkMaximaScaled | MN-1.py:614-615 | Chunk maxima divided by 32768 form a peak envelope in the sense of `Envelope`. |
| Waveform.ChunkMaxima | MN-1.py:608-615 | The maximum of every chunk the loop visits occurs in the source's slice for that chunk and bounds that slice. |
| Waveform.ChunkMax | MN-1.py:608-615 | The same, for one chunk. |
| Waveform.Max | MN-1.py:614 | The maximum of a non-empty chunk is one of its values, and no value exceeds it. |
| Waveform.EnvelopeIsSliceMaxima | MN-1.py:610-615 | Each peak times 32768 occurs in its slice `samples[k*cs : k*cs+cs]`, and no value of that slice exceeds it. |
| Waveform.Generate | MN-1.py:587-627 | A failed decode or an odd-length stereo array gives the error envelope. Otherwise the result is the envelope of the magnitudes of the mixed-down signal. |
| Waveform.EnvelopeInUnitRange | MN-1.py:613-614 | Magnitudes within full scale give every peak in [0, 1]. |
| Waveform.MagnitudesWithinFullScale | MN-1.py:614 | Magnitudes of 16-bit samples, or of means of them, lie in [0, 32768]. |
| Waveform.GenerateInUnitRange | MN-1.py:587-627 | For 16-bit input every generated peak lies in [0, 1]. |
| Waveform.PeakCountBounds | MN-1.py:607-615 | Fewer than 300 samples give one peak per sample. Otherwise there are between 300 and 599 peaks. |
| Waveform.Int16Abs | MN-1.py:614 | numpy's absolute value on a 16-bit integer stays 16-bit. It equals the true absolute value exactly when the input is not -32768, and -32768 wraps to -32768. |
| Waveform.MagnitudesAsWritten | MN-1.py:600-614 | Integer samples take the 16-bit `np.abs`. The float means of a stereo file take the exact absolute value. |
| Waveform.GenerateAsWritten | MN-1.py:587-627 | As the source computes it on 16-bit input: for any channel count but two, the envelope of the 16-bit magnitudes. Stereo means are floats, so stereo input gets the exact envelope. A failed decode gives the error envelope. |
| Waveform.Int16WrapCounterexample | MN-1.py:614 | The one-channel input [-32768] yields the peak -1.0 as written, where the exact magnitude yields 1.0. |
| Waveform.SingleValuePeaks | MN-1.py:605-615 | A single value gives a single peak: that value over 32768. |
| Waveform.Int16WrapUnderReports | MN-1.py:610-615 | As written, a chunk holding -32768 and 100 reports 100/32768, where the exact magnitudes give 1.0. |
| Waveform.AsWrittenAgreesWithoutMinimum | MN-1.py:587-627 | Without a -32768 sample, the envelope as written equals the exact one. |
| Transport.Init | MN-1.py:32-45 | The list is empty, the index is 0, and nothing is playing or paused. |
| Transport.LoopLabel | MN-1.py:793-805 | Loop modes 0, 1 and 2 are labelled LOOP, LOOP ALL and LOOP ONE. |
| Transport.MuteLabel | MN-1.py:753-759 | The volume button reads MUTED exactly when muted, and VOL exactly when not. |
| Transport.SelectSong | MN-1.py:389-403 | Exactly the entry at `index` is highlighted, and none for an out-of-range index. Nothing else changes. |
| Transport.PlayMusic | MN-1.py:528-585 | On an empty list or an index past the end, nothing changes. Otherwise the current song becomes the path at the index, and the waveform becomes the generated envelope. If load and play succeed, the track plays unpaused from 0, with the reported length (0 when unknown), and only the current entry is highlighted. If they fail, the playback flags and highlights stay. The index, modes, volume and stopped position never change. |
| Transport.Play | MN-1.py:493-526 | On an empty list nothing changes. A paused track resumes and nothing else changes. A stopped, loaded track restarts at the stopped position with the current entry highlighted. Only the flags, the start offset and the highlights change, and the entries keep their number and stored indices. If the restart fails, nothing changes. With nothing loaded, the current index is started. While playing, nothing changes. |
| Transport.Pause | MN-1.py:682-696 | Pausing a playing track pauses it, and a paused track resumes. When neither playing nor paused, nothing changes. Only the paused flag ever changes. |
| Transport.Stop | MN-1.py:698-715 | Stop acts only while playing. It stores the current time as the stopped position and clears both flags. Otherwise nothing changes. |
| Transport.PreviousSong | MN-1.py:717-730 | On a non-empty list the index becomes (i + n - 1) mod n, the stopped position is reset, and the track at the new index is started. Starting a track loads the path at the new index and stores its envelope. When the backend accepts it, the track plays from 0 as the only highlighted entry. The loop, shuffle, volume and mute settings stay. An empty list is left alone. |
| Transport.NextSong | MN-1.py:732-745 | On a non-empty list the index becomes (i + 1) mod n, the stopped position is reset, and the track at the new index is started. Starting a track loads the path at the new index and stores its envelope. When the backend accepts it, the track plays from 0 as the only highlighted entry. The loop, shuffle, volume and mute settings stay. An empty list is left alone. |
| Transport.Others | MN-1.py:910 | The candidates are exactly the indices in [0, n) other than the current one, in increasing order. There are n - 1 of them when the current index is in range. |
| Transport.PlayRandomSong | MN-1.py:907-919 | With two or more tracks, the new index is the picked candidate: in range and different from the old one. With one track the index stays. With none, nothing changes. The stopped position is reset and the track at the new index is started. Starting a track loads the path at the new index and stores its envelope. When the backend accepts it, the track plays from 0 as the only highlighted entry. The loop, shuffle, volume and mute settings stay. |
| Transport.CheckMusicEnd | MN-1.py:890-904 | While not playing, or while the backend is busy, nothing changes. The list, loop mode and shuffle flag never change. |
| Transport.ToggleLoop | MN-1.py:788-791 | The loop mode steps to (mode + 1) mod 3, and nothing else changes. |
| Transport.ToggleShuffle | MN-1.py:777-786 | The shuffle flag flips, and nothing else changes. |
| Transport.VolumeAdjust | MN-1.py:747-759 | The volume becomes v. A positive v is remembered as the volume to restore and unmutes. Zero mutes and keeps the remembered volume. |
| Transport.ToggleMute | MN-1.py:761-775 | Unmuting restores the remembered volume and keeps it remembered. Muting remembers the volume the mixer reports and sets the volume to 0. The muted flag always flips, and nothing else changes. |
| Transport.SliderPress | MN-1.py:807-809 | Only the slider flag changes, and it becomes set. |
| Transport.SliderRelease | MN-1.py:811-813 | Only the slider flag changes, and it becomes clear. |
| Transport.SlideSong | MN-1.py:815-843 | The handler is ignored unless the slider is held. The time always becomes v. With an unknown length, or while not playing, nothing else changes. A successful seek while playing restarts the clock at v. A failed seek stops playback with v as the stopped position. |
| Transport.UpdateSongPosition | MN-1.py:846-854 | The update is suppressed while the slider is held, paused, not playing, or when the length is unknown. Otherwise the time is the start offset plus the backend's elapsed time, clamped into [0, length]: below 0 it is 0, past the length it is the length. Only the time changes. |
| Transport.UpdateSongPositionAsWritten | MN-1.py:846-854 | The same guards apply, but the time is the backend's elapsed time alone, bounded only from above. Past the length it is exactly the length. |
| Transport.MarkerRatio | MN-1.py:864-869 | With a known length, the marker ratio times the length is the time. It lies in [0, 1] for a time within the track and is negative for a negative time. With no length, it is 0. |
| Transport.RatioBounds | MN-1.py:864-866 | A time divided by a positive length multiplies back to the time. It lies in [0, 1] when the time is within the length, and is negative when the time is negative. |
| Transport.RemoveSong | MN-1.py:433-466 | With nothing highlighted, nothing changes. The loaded song and the playback flags never change. |
| Transport.ClearPlaylist | MN-1.py:475-491 | Both lists end up empty, the index is 0 and nothing plays. A playing track's time becomes the stopped position, and the track ends unpaused. The loaded song, the modes, the volume and the time stay. |
| TransportProps.InitValid | MN-1.py:32-45 | The initial state satisfies the player invariant. Under the invariant, entries match songs one to one and store their positions, at most one is highlighted, and the index is in range. The loop mode is in 0..2, the volume and the volume to restore are in [0, 1], and a muted player has volume 0. |
| TransportProps.PlayMusicValid | MN-1.py:528-559 | Starting a track keeps the invariant. |
| TransportProps.ButtonsPreserveValid | MN-1.py:493-526 | Play, pause and stop keep the invariant. |
| TransportProps.StepsPreserveValid | MN-1.py:717-745 | Next and previous keep the invariant. |
| TransportProps.NextPreservesValid | MN-1.py:732-745 | Next keeps the invariant. |
| TransportProps.PreviousPreservesValid | MN-1.py:717-730 | Previous keeps the invariant. |
| TransportProps.RandomPreservesValid | MN-1.py:907-919 | A random jump keeps the invariant. |
| TransportProps.CheckMusicEndPreservesValid | MN-1.py:890-904 | The end-of-track check keeps the invariant. |
| TransportProps.ModesPreserveValid | MN-1.py:747-805 | The loop and shuffle buttons keep the invariant. So do the volume slider for any value in [0, 1], and the mute button for any mixer report in [0, 1]. |
| TransportProps.SliderPreservesValid | MN-1.py:807-869 | Slider press and release, seeking and position updates keep the invariant. |
| TransportProps.SelectAndClearPreserveValid | MN-1.py:389-403 | Selecting and clearing keep the invariant. |
| TransportProps.RemoveSongShape | MN-1.py:443-454 | Removal pops the highlighted position from the song list and keeps the entries one per song. An index after the removed position moves back by one. An index before it stays. An index equal to it moves back by one, but not below 0. |
| TransportProps.RemoveSongValid | MN-1.py:433-466 | Removal keeps the invariant. |
| TransportProps.EndOfTrackLoopOne | MN-1.py:893-895 | In loop-one mode, the same index replays from 0, and the stopped position is untouched. |
| TransportProps.EndOfTrackLoopAll | MN-1.py:896-897 | In loop-all mode, the index advances with wrap-around, and the stopped position is reset. |
| TransportProps.EndOfTrackShuffle | MN-1.py:898-899 | With shuffle and no loop, the next index is in range and differs from the current one. |
| TransportProps.EndOfTrackSequential | MN-1.py:900-902 | With no loop and no shuffle, the next track follows when there is one. |
| TransportProps.EndOfLastTrack | MN-1.py:893-904 | After the last track with no loop and no shuffle, only the playing flag drops. The closing `stop` finds playback already off, so the stopped position stays. |
| TransportProps.EndCheckNeedsIdleBackend | MN-1.py:892 | The check does nothing while the backend is busy or the player is not playing. |
| TransportProps.OthersAllBelow | MN-1.py:910 | With the current index out of range, every index is a candidate, in order. |
| TransportProps.OthersAt | MN-1.py:910 | The k-th candidate is k below the current index and k + 1 from it on. |
| TransportProps.RandomPickCovers | MN-1.py:909-911 | Some pick reaches every index other than the current one. |
| TransportProps.RandomSingleTrack | MN-1.py:912-919 | With one track, the random jump restarts that track from 0. |
| TransportProps.NextThenPrevious | MN-1.py:717-745 | Previous after next restores the index. |
| TransportProps.PauseTwice | MN-1.py:682-696 | Two pauses while playing restore the whole state. |
| TransportProps.ModeCycles | MN-1.py:777-791 | Three loop presses restore the state, and so do two shuffle presses. |
| TransportProps.MuteRoundTrip | MN-1.py:761-775 | Mute then unmute sets the volume to what the mixer reported at mute time, which is the old volume when the mixer reports it exactly. Unmute then mute restores the whole state, except that the volume to restore becomes the mixer's report. |
| TransportProps.VolumeThenMuteRoundTrip | MN-1.py:747-775 | After a positive slider value, mute then unmute brings back the mixer's report of it, unmuted. After a zero slider value, the player ends muted at volume 0. |
| TransportProps.SeekThenUpdate | MN-1.py:815-854 | After a successful seek to x and the slider's release, the position reads x plus the time played since. |
| TransportProps.ResumeFromStopThenUpdate | MN-1.py:505-516 | After a restart from the stopped position s, the position reads s plus the time played since. |
| TransportProps.SeekLosesOffset | MN-1.py:852 | As written, the update after a seek to x > 0 reads only the time since the restart, which differs from the corrected value. |
| TransportProps.SliderSuppressesUpdates | MN-1.py:848-849 | While the slider is held, updates change nothing. |
| TransportProps.MarkerInUnitRange | MN-1.py:852-866 | After an update, the marker ratio `song_time / song_length` lies in [0, 1], whatever the backend reports. |
| TransportProps.NegativePositionAsWritten | MN-1.py:852-866 | As written, once the backend reports -1, the time becomes -0.001 s and the marker ratio is negative. |
| TransportProps.RemoveBeforeKeepsCurrentPath | MN-1.py:453-454 | Removing an entry before the current one keeps the current index pointing at the same path. |
| TransportProps.RemoveHighlightsCurrent | MN-1.py:457-464 | After a removal that leaves tracks, exactly the entry at the new current index is highlighted. |
| Playlist.Init | Mn-1.py:160-232 | The list is empty, the index is 0, and the theme is dark. |
| Playlist.IndexOf | Mn-1.py:434 | `list.index` gives the first position of the name, and fails exactly when the name is absent. |
| Playlist.NextTheme | Mn-1.py:431-439 | The theme steps dark → light → grey → red → dark. An unknown name gives the first theme. The result is always a theme of the cycle. |
| Playlist.ToggleTheme | Mn-1.py:431-442 | The theme moves to its successor in the cycle, and an unknown theme becomes "dark". The trailing `apply_theme` highlights the first highlighted entry again, so afterwards at most one entry is highlighted. Only the theme and the highlights change, and with at most one highlight before, only the theme. |
| Playlist.StateStyling | Mn-1.py:516-529 | The volume button reads MUTED with the muted colour exactly when muted, and VOL with the inactive colour otherwise. The mix button is active with shuffle and inactive without it. The loop button is active with a loop mode above 0 and inactive otherwise. |
| Playlist.ReapplySelection | Mn-1.py:531-539 | The first highlighted entry stays the first highlighted, and afterwards at most one is highlighted. With none highlighted, nothing changes. |
| Playlist.ReapplyKeepsSingleSelection | Mn-1.py:531-539 | With at most one entry highlighted, highlighting the first highlighted entry again changes nothing. |
| Playlist.Prefix | Mn-1.py:580-596 | The prefix follows the precedence error, loading, generating, playing, paused. It is empty exactly when none of these flags is set. |
| Playlist.DisplayTitle | Mn-1.py:578-602 | The title starts with the status prefix. It is "TRACKLIST EMPTY" whenever the list and the loaded song are both empty. Otherwise: a given base title follows a non-empty prefix, and stands alone with no prefix when a song is loaded. With no base title and a song loaded, the song's file name follows the prefix. With nothing loaded, the title is "NO SONG LOADED", after the prefix if there is one. |
| Playlist.UpdateDisplayTitle | Mn-1.py:578-602 | The title becomes the display title, and nothing else changes. |
| Playlist.SelectSong | Mn-1.py:659-682 | An out-of-range index changes nothing. A valid index becomes the only highlight, with stored positions kept. |
| Playlist.PlaySelectedSongByIndex | Mn-1.py:685-692 | Playback is requested exactly for an index inside the song list. That index becomes the current index and the only highlight. Any other index changes nothing. |
| Playlist.PlaySelectedSong | Mn-1.py:694-710 | The first highlighted entry is played, else the first entry. An empty list only refreshes the title. |
| Playlist.Admit | Mn-1.py:611-627 | The old list is a prefix of the new one, and the count of additions equals the growth in length. |
| Playlist.AddSongs | Mn-1.py:605-639 | The song list becomes the admitted list. The current index, loaded song and playback flags are kept. |
| Playlist.FirstArrivals | Mn-1.py:633-639 | When the added files are the whole list, the songs, the index, the loaded song, the flags and the modes stay. An empty-list title becomes the title for "NO SONG LOADED", and any other title stays. With nothing loaded, playing or paused, the first entry becomes the only highlight; otherwise the entries stay. |
| Playlist.LeaveEmptyTitle | Mn-1.py:634-635 | Only the title can change: an empty-list title is replaced by the title for "NO SONG LOADED", and any other stays. |
| Playlist.Unload | Mn-1.py:763-772 | The loaded song, the status flags, the waveform buffers and the length are cleared. The lists, the index and the playback flags stay. |
| Playlist.RepairedIndex | Mn-1.py:775-794 | Once the list is empty the index is 0. Removing an earlier position decrements it, and removing a later one keeps it. Removing its own position clamps it to min(k, n - 1) when that entry was not the loaded song. When it was the loaded song, the index stays as it was. |
| Playlist.DropLoaded | Mn-1.py:761-772 | After the loaded song is removed, playback stops and everything about the loaded song is cleared. The lists, index, theme and modes stay. |
| Playlist.DropEmptied | Mn-1.py:778-785 | Emptying the list while another song was loaded clears the loaded song's data without touching the playback flags. |
| Playlist.RemoveSongAsWritten | Mn-1.py:712-801 | With nothing highlighted, nothing changes. A highlight past the song list pops only the entry. Otherwise the highlighted song leaves the list. Removing the loaded song stops and unloads it, and the index stays where it was (0 once the list is empty). Removing another song keeps the playback flags. |
| Playlist.ClampIndex | Mn-1.py:793 | An index past the end of a non-empty list is pulled back inside. An index already inside is unchanged, and only the index can change. |
| Playlist.RemoveSong | Mn-1.py:712-801 | With nothing highlighted, nothing changes. After a removal that leaves songs, the current index is inside the list. |
| Playlist.ClearPlaylist | Mn-1.py:803-826 | The lists are empty, the index is 0, nothing is loaded or playing, and the buffers and length are cleared. The title is "TRACKLIST EMPTY", and the theme and modes are kept. |
| Playlist.StopPlayback | Mn-1.py:762 | The part of `stop` this model keeps: both playback flags clear, and nothing else changes. |
| PlaylistProps.ThemeCycleReturns | Mn-1.py:431-439 | Four theme presses restore every known theme, and a single press always changes it. |
| PlaylistProps.UnknownThemeRecovers | Mn-1.py:437-442 | An unknown theme name recovers to "dark", and then the selection is re-applied. With at most one highlight, nothing but the theme changes. |
| PlaylistProps.InitValid | Mn-1.py:175-189 | The initial state satisfies the track-list invariant. Under the invariant, entries match songs one to one and store their positions, at most one is highlighted, no path occurs twice, and the index is in range. |
| PlaylistProps.SelectSongValid | Mn-1.py:659-682 | Selecting keeps the invariant. |
| PlaylistProps.ClearPlaylistValid | Mn-1.py:803-826 | Clearing always reaches a valid, empty track list whose title is the empty-list title. |
| PlaylistProps.ReapplySelectionIdempotent | Mn-1.py:531-539 | Re-applying the selection keeps the invariant, and doing it twice equals doing it once. |
| PlaylistProps.PlaySelectedSongChoice | Mn-1.py:685-710 | Something plays exactly when the list is non-empty. It is the highlighted entry if there is one, else the first, and it ends as the only highlight. |
| PlaylistProps.AdmitNoDup | Mn-1.py:622-625 | Adding files never introduces a duplicate path. |
| PlaylistProps.AdmitSound | Mn-1.py:611-625 | Every appended path is new and comes from an existing, readable `.mp3`/`.flac` file. |
| PlaylistProps.AdmitComplete | Mn-1.py:611-625 | Every admissible chosen file is in the list afterwards, and every old path stays. |
| PlaylistProps.AppendNewEntriesKeepsShape | Mn-1.py:642-657 | Appending unhighlighted entries numbered from the end keeps the entries aligned with at most one highlight. |
| PlaylistProps.FirstArrivalsValid | Mn-1.py:633-639 | The first-arrival step keeps the invariant. |
| PlaylistProps.AddSongsValid | Mn-1.py:605-639 | Adding files keeps the invariant. |
| PlaylistProps.AddSongsSelectsFirst | Mn-1.py:633-639 | If the list was empty and nothing is loaded, playing or paused, adding files highlights exactly the first entry. |
| PlaylistProps.AddSongsKeepsExisting | Mn-1.py:605-657 | On a non-empty list, existing entries and the title stay as they were, and the new entries are unhighlighted. |
| PlaylistProps.RemoveAsWrittenShape | Mn-1.py:735-759 | The highlighted position leaves the song list. The entries stay one per song, aligned, with at most one highlight, and the paths stay distinct. |
| PlaylistProps.RemoveAsWrittenLists | Mn-1.py:735-748 | The songs lose position k, and the entries are those left by popping k and re-indexing. |
| PlaylistProps.RemoveAsWrittenIndex | Mn-1.py:775-794 | The current index after removal is the repaired index. |
| PlaylistProps.RemoveSongIndex | Mn-1.py:775-794 | Removing an earlier entry decrements the index so it names the same path. Removing a later one keeps the index and the path. Removing its own entry clamps the index to min(k, n - 1). An emptied list gives index 0. |
| PlaylistProps.RemoveSongValid | Mn-1.py:712-801 | Removal with the clamped index keeps the invariant. |
| PlaylistProps.RemoveLoadedUnloads | Mn-1.py:761-772 | Removing the loaded song stops playback and clears the song, its buffers and the length. |
| PlaylistProps.RemoveOtherKeepsPlayback | Mn-1.py:786-801 | Removing any other entry keeps the loaded song and playback. The entry at the new current index becomes the highlight. |
| PlaylistProps.RemoveRulesAgreeElsewhere | Mn-1.py:712-801 | The as-written and corrected removals differ at most in the current index. |
| PlaylistProps.RemoveRulesDiffer | Mn-1.py:726-794 | They differ exactly when the loaded song is removed from the last position of a list that keeps other songs. |
| PlaylistProps.RemoveSongAsWrittenCounterexample | Mn-1.py:761-794 | With songs a and b, where b is loaded and highlighted, the written removal leaves index 1 in a one-song list and breaks the invariant. The corrected removal gives index 0 and keeps it. |

## Left out

- Widgets, frames, fonts, colour palettes, drawing and the oscilloscope
  are pure presentation. Only the state-dependent label and colour-key
  choices of `apply_theme` are modelled.
- The update thread (`update_time`, `start_update_thread`,
  `thread_running`) and the waveform abort flag are left out. They exist
  for concurrency, and handlers are modelled as atomic steps.
- pygame, pydub and mutagen are not modelled. What they report is a
  handler parameter, so codec and device behaviour are outside the model.
- The distribution of `random.choice` is not modelled. A pick is any
  natural number, and `TransportProps.RandomPickCovers` shows that every
  allowed index is reachable.
- Floating-point rounding is not modelled. Times, lengths and volumes are
  exact reals.
- `status_var` texts, the printed messages, the time labels of
  `update_song_info`, and the file dialog are left out. They are output
  only.
- The later revision's `stop`, `play_music` and
  `abort_waveform_generation` are not part of this model. `stop` is taken
  to clear the playing and paused flags, as the earlier revision's does.
  Playing a selection reports that `play_music` is due instead of
  performing it.
- MN-1's `add_songs`, `add_song_to_playlist`, `play_selected_song` and
  `play_selected_song_by_index` are not modelled. Their later versions in
  Mn-1 are modelled.
- `Paths.Lower` lower-cases ASCII letters only. Python's `str.lower`
  covers all of Unicode, but both accepted suffixes are ASCII.
- `Paths.Basename` splits on `/` only, as POSIX `os.path` does.
- `Waveform.GenerateInUnitRange` assumes 16-bit samples, as the source's
  divisor 32768 does. Other sample widths are not modelled.
- `Transport.CheckMusicEnd` states only the guard and what never changes.
  Its branches are stated per mode by the `TransportProps.EndOfTrack…`
  lemmas.
- `Transport.RemoveSong` states only the no-selection case and what never
  changes. The list, index and highlight effects are in
  `TransportProps.RemoveSongShape` and `TransportProps.RemoveHighlightsCurrent`.
- `Playlist.AddSongs` states the song list and what stays. Entries and
  selection are in the `PlaylistProps.AddSongs…` lemmas.
- `Playlist.RemoveSong` states the no-selection case and the index bound.
  The lists, index and playback effects are in the
  `PlaylistProps.Remove…` lemmas.
- `Transport.PlayMusic` stores the exact envelope `Waveform.Generate`,
  not the 16-bit one the source computes. The two agree unless a file
  whose channel count is not two holds the sample -32768 (`Waveform.AsWrittenAgreesWithoutMinimum`).
- `Transport.ToggleMute` takes the mixer's `get_volume` report as a
  parameter. pygame rounds the stored volume, so the report can differ
  slightly from the last value set, and the model does not fix how.
- `Playlist.RemoveSongAsWritten` states the highlight and index effects
  only through the `PlaylistProps.RemoveAsWritten…` lemmas and
  `PlaylistProps.RemoveSongAsWrittenCounterexample`.

## Findings

| source | as written | input that shows it | evidently intended | confidence | as-written member | corrected member |
|---|---|---|---|---|---|---|
| MN-1.py:614 | `np.abs` on the 16-bit sample array of a file whose channel count is not two keeps -32768 as -32768. A chunk's peak then ignores that sample, and a chunk holding only -32768 gives -1.0 | the mono input [-32768] gives the peak -1.0; a chunk [-32768, 100] gives 100/32768 | the magnitude 32768, giving the peak 1.0 and every peak in [0, 1] | not executed; numpy's int16 negation wraps | Waveform.GenerateAsWritten (Waveform.Int16WrapCounterexample, Waveform.Int16WrapUnderReports) | Waveform.Generate (Waveform.GenerateInUnitRange) |
| MN-1.py:852-854 | the position is bounded only from above. The update thread runs one more update after the track ends, and `get_pos` then reports -1 | a track ends while playing: the time becomes -0.001 s and the marker ratio is negative | the time clamped into [0, length] | not executed; relies on pygame reporting -1 once playback has ended | Transport.UpdateSongPositionAsWritten (TransportProps.NegativePositionAsWritten) | Transport.UpdateSongPosition (TransportProps.MarkerInUnitRange) |
| MN-1.py:852 | the position is `get_pos() / 1000` alone, and `get_pos` counts from the last `play`, so a seek to x or a restart from a stopped position loses x | seek to 30 s, then 1 s of playback: the position reads 1 s | the start offset plus the elapsed time, i.e. 31 s | not executed | Transport.UpdateSongPositionAsWritten (TransportProps.SeekLosesOffset) | Transport.UpdateSongPosition (TransportProps.SeekThenUpdate, TransportProps.ResumeFromStopThenUpdate) |
| Mn-1.py:786-794 | removing the loaded song skips the index repair, so when it was the last entry, `current_song_index` equals the new list length | songs [a, b], b loaded at index 1 and highlighted, remove: index 1 in a one-song list | the index clamped into the list, here 0 | not executed | Playlist.RemoveSongAsWritten (PlaylistProps.RemoveSongAsWrittenCounterexample) | Playlist.RemoveSong (PlaylistProps.RemoveSongValid, PlaylistProps.RemoveSongIndex) |
