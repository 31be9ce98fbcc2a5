/**
  The track-list side of the later (Mn-1) player revision: the theme
  cycle, the title line, adding files with the format filter and
  de-duplication, single selection, playing the selected entry, removing
  the selected entry with repair of the current index, clearing, and the
  state-dependent button labels.

  That revision's `stop` and `play_music` are not part of this model: `stop`
  is taken to clear the playing and paused flags (as the MN-1 revision's
  does), and playing a selected entry reports that `play_music` is due.
 */
module Playlist {
  import opened Wrappers
  import opened Tracklist
  import Paths

  /** The player fields this revision's track-list code reads and writes.
      `peaks`, `samples` and `sampleRate` are the waveform buffers
      (`None` when cleared); `title` is the text of the title line. */
  datatype Library = Library(
    songs: seq<string>,
    entries: seq<Entry>,
    currentIndex: nat,
    currentSong: string,
    playing: bool,
    paused: bool,
    hasError: bool,
    isLoading: bool,
    generating: bool,
    muted: bool,
    shuffle: bool,
    loopState: int,
    peaks: Option<seq<real>>,
    samples: Option<seq<real>>,
    sampleRate: Option<nat>,
    songLength: real,
    theme: string,
    title: string)

  /** The state the constructor sets up. */
  function Init(): (l: Library)
    ensures l.songs == [] && l.entries == [] && l.currentIndex == 0 && l.theme == "dark"
  {
    Library([], [], 0, "", false, false, false, false, false, false, false, 0,
            None, None, None, 0.0, "dark", "NO SONG LOADED")
  }

  /** One entry per song, each storing its position, at most one
      highlighted, no path twice, and the current index inside a non-empty
      list (0 for an empty one). */
  ghost predicate Valid(l: Library) {
    && |l.entries| == |l.songs|
    && Aligned(l.entries)
    && AtMostOneSelected(l.entries)
    && NoDup(l.songs)
    && (|l.songs| == 0 ==> l.currentIndex == 0)
    && (|l.songs| > 0 ==> l.currentIndex < |l.songs|)
  }

  // ---------------------------------------------------------------------
  // Themes

  /** The order in which the theme button cycles. */
  const ThemeCycle: seq<string> := ["dark", "light", "grey", "red"]

  /** `list.index`: the first position of `x`, or `None` where Python raises. */
  function IndexOf(s: seq<string>, x: string): (r: Option<nat>)
    ensures r.None? <==> x !in s
    ensures r.Some? ==> r.value < |s| && s[r.value] == x && forall j :: 0 <= j < r.value ==> s[j] != x
  {
    if |s| == 0 then None
    else if s[0] == x then Some(0)
    else
      match IndexOf(s[1..], x)
      case None => None
      case Some(i) => Some(i + 1)
  }

  /** `toggle_theme`'s choice: the theme after `name` in the cycle, wrapping
      from the last to the first; an unknown name falls back to the first. */
  function NextTheme(name: string): (r: string)
    ensures r in ThemeCycle
    ensures name !in ThemeCycle ==> r == ThemeCycle[0]
    ensures name == "dark" ==> r == "light"
    ensures name == "light" ==> r == "grey"
    ensures name == "grey" ==> r == "red"
    ensures name == "red" ==> r == "dark"
  {
    match IndexOf(ThemeCycle, name)
    case None => ThemeCycle[0]
    case Some(i) => ThemeCycle[(i + 1) % |ThemeCycle|]
  }

  /** `toggle_theme`: the theme moves along the cycle, and `apply_theme`
      then highlights the first highlighted entry again.  Only the theme and
      the highlights change, and with at most one highlight only the theme. */
  function ToggleTheme(l: Library): (r: Library)
    ensures r == l.(theme := r.theme, entries := r.entries)
    ensures r.theme in ThemeCycle
    ensures l.theme !in ThemeCycle ==> r.theme == "dark"
    ensures l.theme in ThemeCycle ==> r.theme != l.theme && r.theme == NextTheme(l.theme)
    ensures AtMostOneSelected(r.entries)
    ensures AtMostOneSelected(l.entries) ==> r == l.(theme := r.theme)
  {
    var l1 := l.(theme := NextTheme(l.theme));
    ReapplyKeepsSingleSelection(l1);
    ReapplySelection(l1)
  }

  /** Palette keys chosen by state in `apply_theme` (the palettes themselves
      are left out): the volume button's text and colour key, and the
      colour keys of the mix and loop buttons. */
  datatype Styling = Styling(muteText: string, muteColor: string, mixColor: string, loopColor: string)

  function StateStyling(l: Library): (s: Styling)
    ensures s.muteText == "MUTED" <==> l.muted
    ensures s.muteText == "VOL" <==> !l.muted
    ensures s.muteColor == "muted_fg" <==> l.muted
    ensures s.mixColor == "active_button_fg" <==> l.shuffle
    ensures s.loopColor == "active_button_fg" <==> l.loopState > 0
    ensures !l.muted ==> s.muteColor == "inactive_button_fg"
    ensures !l.shuffle ==> s.mixColor == "inactive_button_fg"
    ensures l.loopState <= 0 ==> s.loopColor == "inactive_button_fg"
  {
    Styling(
      if l.muted then "MUTED" else "VOL",
      if l.muted then "muted_fg" else "inactive_button_fg",
      if l.shuffle then "active_button_fg" else "inactive_button_fg",
      if l.loopState > 0 then "active_button_fg" else "inactive_button_fg")
  }

  /** The selection part of `apply_theme`: the first highlighted entry is
      highlighted again, which clears any other highlight. */
  function ReapplySelection(l: Library): (r: Library)
    ensures AtMostOneSelected(r.entries)
    ensures FirstSelected(l.entries) == -1 ==> r == l
    ensures FirstSelected(l.entries) >= 0 ==> FirstSelected(r.entries) == FirstSelected(l.entries)
  {
    var k := FirstSelected(l.entries);
    if k == -1 then l else SelectSong(l, k)
  }

  /** With at most one highlight, highlighting the first one again changes
      nothing. */
  lemma ReapplyKeepsSingleSelection(l: Library)
    ensures AtMostOneSelected(l.entries) ==> ReapplySelection(l) == l
  {
    var k := FirstSelected(l.entries);
    if k >= 0 && AtMostOneSelected(l.entries) {
      var es := SelectOnly(l.entries, k);
      assert forall j :: 0 <= j < |es| ==> es[j] == l.entries[j];
      assert es == l.entries;
    }
  }

  // ---------------------------------------------------------------------
  // The title line

  /** The status prefix, by precedence: error, loading, generating,
      playing, paused, none. */
  function Prefix(l: Library): (r: string)
    ensures l.hasError ==> r == "[ERROR] "
    ensures !l.hasError && l.isLoading ==> r == "[LOADING...] "
    ensures !l.hasError && !l.isLoading && l.generating ==> r == "[GENERATING...] "
    ensures !l.hasError && !l.isLoading && !l.generating && l.playing ==> r == "[PLAYING] "
    ensures !l.hasError && !l.isLoading && !l.generating && !l.playing && l.paused ==> r == "[PAUSED] "
    ensures r == "" <==> !(l.hasError || l.isLoading || l.generating || l.playing || l.paused)
  {
    if l.hasError then "[ERROR] "
    else if l.isLoading then "[LOADING...] "
    else if l.generating then "[GENERATING...] "
    else if l.playing then "[PLAYING] "
    else if l.paused then "[PAUSED] "
    else ""
  }

  /** The text `_update_display_title(base)` stores: the prefix, then the
      given title, else the loaded file's name, else "NO SONG LOADED" (also
      when idle with nothing loaded), and "TRACKLIST EMPTY" whenever the list
      and the loaded song are both empty. */
  function DisplayTitle(l: Library, base: string): (t: string)
    ensures |t| >= |Prefix(l)| && t[..|Prefix(l)|] == Prefix(l)
    ensures |l.songs| == 0 && l.currentSong == "" ==> t == Prefix(l) + "TRACKLIST EMPTY"
    ensures Prefix(l) != "" && base != "" && !(|l.songs| == 0 && l.currentSong == "") ==> t == Prefix(l) + base
    ensures Prefix(l) == "" && l.currentSong == "" && |l.songs| > 0 ==> t == "NO SONG LOADED"
    ensures Prefix(l) != "" && base == "" && l.currentSong == "" && |l.songs| > 0 ==>
      t == Prefix(l) + "NO SONG LOADED"
    ensures Prefix(l) == "" && base != "" && l.currentSong != "" ==> t == base
    ensures base == "" && l.currentSong != "" ==> t == Prefix(l) + Paths.Basename(l.currentSong)
  {
    var named := if base != "" then base
                 else if l.currentSong != "" then Paths.Basename(l.currentSong)
                 else "NO SONG LOADED";
    var body := if Prefix(l) == "" && l.currentSong == "" then "NO SONG LOADED" else named;
    Prefix(l) + (if |l.songs| == 0 && l.currentSong == "" then "TRACKLIST EMPTY" else body)
  }

  /** `_update_display_title`: stores the title text; nothing else changes. */
  function UpdateDisplayTitle(l: Library, base: string): (r: Library)
    ensures r == l.(title := r.title)
    ensures r.title == DisplayTitle(l, base)
  {
    l.(title := DisplayTitle(l, base))
  }

  // ---------------------------------------------------------------------
  // Selection and playing the selection

  /** `select_song`: an index outside the entries changes nothing; a valid
      one becomes the only highlighted entry. */
  function SelectSong(l: Library, index: int): (r: Library)
    ensures !(0 <= index < |l.entries|) ==> r == l
    ensures 0 <= index < |l.entries| ==>
      |r.entries| == |l.entries| &&
      (forall j :: 0 <= j < |r.entries| ==> (r.entries[j].selected <==> j == index)) &&
      (forall j :: 0 <= j < |r.entries| ==> r.entries[j].index == l.entries[j].index)
    ensures r == l.(entries := r.entries)
  {
    if 0 <= index < |l.entries| then l.(entries := SelectOnly(l.entries, index)) else l
  }

  /** The state after a play request, and whether `play_music` is called. */
  datatype Dispatch = Dispatch(lib: Library, playMusic: bool)

  /** `play_selected_song_by_index`: for an index inside the song list it
      becomes the current index and the only highlight, and playback starts;
      otherwise nothing happens. */
  function PlaySelectedSongByIndex(l: Library, index: int): (d: Dispatch)
    ensures d.playMusic <==> 0 <= index < |l.songs|
    ensures !d.playMusic ==> d.lib == l
    ensures d.playMusic ==> d.lib.currentIndex == index && d.lib.songs == l.songs
    ensures d.playMusic && |l.entries| == |l.songs| ==>
      forall j :: 0 <= j < |d.lib.entries| ==> (d.lib.entries[j].selected <==> j == index)
  {
    if 0 <= index < |l.songs| then Dispatch(SelectSong(l.(currentIndex := index), index), true)
    else Dispatch(l, false)
  }

  /** `play_selected_song`: plays the first highlighted entry, else the first
      entry, else only refreshes the title. */
  function PlaySelectedSong(l: Library): (d: Dispatch)
    ensures FirstSelected(l.entries) >= 0 ==> d == PlaySelectedSongByIndex(l, FirstSelected(l.entries))
    ensures FirstSelected(l.entries) == -1 && |l.entries| > 0 ==> d == PlaySelectedSongByIndex(l, 0)
    ensures |l.entries| == 0 ==> !d.playMusic && d.lib == UpdateDisplayTitle(l, "")
  {
    var k := FirstSelected(l.entries);
    if k != -1 then PlaySelectedSongByIndex(l, k)
    else if |l.entries| > 0 then PlaySelectedSongByIndex(l, 0)
    else Dispatch(UpdateDisplayTitle(l, ""), false)
  }

  // ---------------------------------------------------------------------
  // Adding files

  /** One file chosen in the dialog: its path, whether it exists (`present`), and
      whether mutagen could parse it. */
  datatype Candidate = Candidate(path: string, present: bool, readable: bool)

  /** A chosen file that `add_songs` accepts, duplicates aside. */
  predicate Admissible(c: Candidate) {
    c.present && Paths.HasAudioExtension(c.path) && c.readable
  }

  ghost predicate AdmittedPath(cs: seq<Candidate>, p: string) {
    exists c :: c in cs && Admissible(c) && c.path == p
  }

  /** The loop of `add_songs` over the chosen files: appends each
      admissible path not yet in the list, in order, and counts the additions. */
  function Admit(songs: seq<string>, cs: seq<Candidate>): (r: (seq<string>, nat))
    ensures songs <= r.0
    ensures r.1 == |r.0| - |songs|
    decreases |cs|
  {
    if |cs| == 0 then (songs, 0)
    else
      var c := cs[0];
      if Admissible(c) && c.path !in songs then
        var rest := Admit(songs + [c.path], cs[1..]);
        (rest.0, rest.1 + 1)
      else
        Admit(songs, cs[1..])
  }

  /** Unhighlighted entries for positions `start`, `start + 1`, ... */
  function NewEntries(start: nat, count: nat): (r: seq<Entry>)
    ensures |r| == count
    ensures forall t :: 0 <= t < count ==> r[t] == Entry(false, start + t)
  {
    seq(count, t requires 0 <= t < count => Entry(false, start + t))
  }

  /** `add_songs` after the dialog: appends the accepted files; when they
      are the first tracks of the list, refreshes an empty-list title and,
      with nothing loaded, playing or paused, highlights the first entry. */
  function AddSongs(l: Library, cs: seq<Candidate>): (r: Library)
    ensures r.songs == Admit(l.songs, cs).0
    ensures r.currentIndex == l.currentIndex && r.currentSong == l.currentSong
    ensures r.playing == l.playing && r.paused == l.paused
  {
    var (songs, added) := Admit(l.songs, cs);
    var l1 := l.(songs := songs, entries := l.entries + NewEntries(|l.entries|, added));
    if added > 0 && |songs| == added then FirstArrivals(l1) else l1
  }

  /** What `add_songs` does when the added files are the whole list: an
      empty-list title gives way to "NO SONG LOADED", and with nothing
      loaded, playing or paused the first entry is highlighted. */
  function FirstArrivals(l: Library): (r: Library)
    ensures r.songs == l.songs && |r.entries| == |l.entries|
    ensures r.currentIndex == l.currentIndex && r.currentSong == l.currentSong
    ensures r.playing == l.playing && r.paused == l.paused
    ensures r.theme == l.theme && r.muted == l.muted && r.shuffle == l.shuffle && r.loopState == l.loopState
    ensures l.title == "TRACKLIST EMPTY" ==> r.title == DisplayTitle(l, "NO SONG LOADED")
    ensures l.title != "TRACKLIST EMPTY" ==> r.title == l.title
    ensures l.currentSong == "" && !l.playing && !l.paused && |l.entries| > 0 ==>
      forall j :: 0 <= j < |r.entries| ==> (r.entries[j].selected <==> j == 0)
    ensures !(l.currentSong == "" && !l.playing && !l.paused) || |l.entries| == 0 ==> r.entries == l.entries
  {
    var l2 := LeaveEmptyTitle(l);
    if l2.currentSong == "" && !l2.playing && !l2.paused then SelectSong(l2, 0) else l2
  }

  /** The title refresh of `FirstArrivals`: an empty-list title is replaced,
      any other title stays. */
  function LeaveEmptyTitle(l: Library): (r: Library)
    ensures r == l.(title := r.title)
    ensures l.title == "TRACKLIST EMPTY" ==> r.title == DisplayTitle(l, "NO SONG LOADED")
    ensures l.title != "TRACKLIST EMPTY" ==> r == l
  {
    if l.title == "TRACKLIST EMPTY" then UpdateDisplayTitle(l, "NO SONG LOADED") else l
  }

  // ---------------------------------------------------------------------
  // Removing and clearing

  /** The effect of `stop` on the flags this model keeps. */
  function StopPlayback(l: Library): (r: Library)
    ensures !r.playing && !r.paused && r == l.(playing := false, paused := false)
  {
    l.(playing := false, paused := false)
  }

  /** Forgets the loaded song: no current song, no status flags, no
      waveform buffers, unknown length. */
  function Unload(l: Library): (r: Library)
    ensures r.currentSong == "" && !r.hasError && !r.isLoading && !r.generating
    ensures r.peaks.None? && r.samples.None? && r.sampleRate.None? && r.songLength == 0.0
    ensures r.songs == l.songs && r.entries == l.entries && r.currentIndex == l.currentIndex
    ensures r.playing == l.playing && r.paused == l.paused
  {
    l.(currentSong := "", hasError := false, isLoading := false, generating := false,
       peaks := None, samples := None, sampleRate := None, songLength := 0.0)
  }

  /** True when the highlighted position k holds the loaded song at the
      current index. */
  predicate RemovesLoaded(l: Library, k: int) {
    0 <= k < |l.songs| && l.songs[k] != "" && k == l.currentIndex && l.currentSong == l.songs[k]
  }

  function Min(a: int, b: int): int {
    if a <= b then a else b
  }

  /** Where `remove_song` leaves the current index `cur` after position `k`
      is removed, `n` songs remain, and `loaded` tells whether the loaded
      song itself went: no clamping in that last case. */
  function RepairedIndex(cur: nat, k: nat, n: nat, loaded: bool): (i: nat)
    ensures n == 0 ==> i == 0
    ensures n > 0 && k < cur ==> i == cur - 1
    ensures n > 0 && k > cur ==> i == cur
    ensures n > 0 && k == cur && !loaded ==> i == Min(k, n - 1) && i < n
    ensures n > 0 && k == cur && loaded ==> i == cur
  {
    if n == 0 then 0
    else if k < cur then cur - 1
    else if k == cur && !loaded then Min(k, n - 1)
    else cur
  }

  /** The clean-up after the loaded song is removed: stop, unload, and the
      title for no loaded song. */
  function DropLoaded(l: Library): (r: Library)
    ensures r.songs == l.songs && r.entries == l.entries && r.currentIndex == l.currentIndex
    ensures r.currentSong == "" && !r.playing && !r.paused && !r.hasError && !r.isLoading && !r.generating
    ensures r.peaks.None? && r.samples.None? && r.sampleRate.None? && r.songLength == 0.0
    ensures r.theme == l.theme && r.muted == l.muted && r.shuffle == l.shuffle && r.loopState == l.loopState
  {
    UpdateDisplayTitle(Unload(StopPlayback(l)), "NO SONG LOADED")
  }

  /** The clean-up once the last song is removed while another was loaded:
      unload (without stopping) and the empty-list title. */
  function DropEmptied(l: Library): (r: Library)
    ensures r.songs == l.songs && r.entries == l.entries && r.currentIndex == l.currentIndex
    ensures r.currentSong == "" && r.playing == l.playing && r.paused == l.paused
    ensures !r.hasError && !r.isLoading && !r.generating
    ensures r.peaks.None? && r.samples.None? && r.sampleRate.None? && r.songLength == 0.0
    ensures r.theme == l.theme && r.muted == l.muted && r.shuffle == l.shuffle && r.loopState == l.loopState
  {
    UpdateDisplayTitle(Unload(l), "TRACKLIST EMPTY")
  }

  /** `remove_song` as written.  With nothing highlighted nothing changes;
      otherwise the highlighted position leaves both lists, later entries are
      re-indexed, an index after it moves back, an emptied list resets it
      to 0, removing the loaded song stops and unloads it, and otherwise the
      entry at the current index is highlighted.  Removing the loaded song
      leaves the current index where it was, even when that is now past the
      end of the list.  The title text never depends on the current index,
      so the index is repaired first here. */
  function RemoveSongAsWritten(l: Library): (r: Library)
    ensures FirstSelected(l.entries) == -1 ==> r == l
    ensures FirstSelected(l.entries) >= |l.songs| ==> r == l.(entries := RemoveAt(l.entries, FirstSelected(l.entries)))
    ensures 0 <= FirstSelected(l.entries) < |l.songs| ==> r.songs == RemoveAt(l.songs, FirstSelected(l.entries))
    ensures 0 <= FirstSelected(l.entries) < |l.songs| && RemovesLoaded(l, FirstSelected(l.entries)) ==>
      r.currentSong == "" && !r.playing && !r.paused &&
      r.currentIndex == (if |l.songs| == 1 then 0 else l.currentIndex)
    ensures 0 <= FirstSelected(l.entries) < |l.songs| && !RemovesLoaded(l, FirstSelected(l.entries)) ==>
      r.playing == l.playing && r.paused == l.paused
  {
    var k := FirstSelected(l.entries);
    if k == -1 then l
    else if k >= |l.songs| then l.(entries := RemoveAt(l.entries, k))
    else
      var loaded := RemovesLoaded(l, k);
      var songs := RemoveAt(l.songs, k);
      var es := ReindexFrom(RemoveAt(l.entries, k), k);
      var b := l.(songs := songs, entries := es,
                  currentIndex := RepairedIndex(l.currentIndex, k, |songs|, loaded));
      if loaded then DropLoaded(b)
      else if |songs| == 0 then DropEmptied(b)
      else SelectSong(b, Min(b.currentIndex, |es| - 1))
  }

  /** Pulls a current index that has run past the end of a non-empty list
      back to its last position. */
  function ClampIndex(l: Library): (r: Library)
    ensures |l.songs| > 0 ==> r.currentIndex < |l.songs|
    ensures l.currentIndex < |l.songs| || |l.songs| == 0 ==> r == l
    ensures r == l.(currentIndex := r.currentIndex)
  {
    if |l.songs| > 0 && l.currentIndex >= |l.songs| then l.(currentIndex := |l.songs| - 1) else l
  }

  /** `remove_song` with the current index kept inside the list also after
      the loaded song is removed from the last position; with nothing
      highlighted the handler returns at once, as in the source. */
  function RemoveSong(l: Library): (r: Library)
    ensures FirstSelected(l.entries) == -1 ==> r == l
    ensures FirstSelected(l.entries) >= 0 && |r.songs| > 0 ==> r.currentIndex < |r.songs|
  {
    if FirstSelected(l.entries) == -1 then l else ClampIndex(RemoveSongAsWritten(l))
  }

  /** `clear_playlist`: stops, empties both lists, resets the index, unloads
      the song, and leaves the title "TRACKLIST EMPTY". */
  function ClearPlaylist(l: Library): (r: Library)
    ensures r.songs == [] && r.entries == [] && r.currentIndex == 0 && r.currentSong == ""
    ensures !r.playing && !r.paused && !r.hasError && !r.isLoading && !r.generating
    ensures r.peaks.None? && r.samples.None? && r.sampleRate.None? && r.songLength == 0.0
    ensures r.title == "TRACKLIST EMPTY"
    ensures r.theme == l.theme && r.muted == l.muted && r.shuffle == l.shuffle && r.loopState == l.loopState
  {
    var l1 := Unload(StopPlayback(l).(entries := [], songs := [], currentIndex := 0));
    var l2 := UpdateDisplayTitle(l1, "TRACKLIST CLEARED");
    UpdateDisplayTitle(l2, "TRACKLIST EMPTY")
  }
}
