/**
  The transport state machine of the MN-1 player revision: play, pause,
  stop, next/previous with wrap-around, loop and shuffle modes, volume and
  mute, seeking with the position slider, the periodic position update,
  end-of-track handling and the track-list edits that revision performs.

  The player is an immutable record; every handler is a pure function from
  the record (and what the audio libraries report) to the next record.
 */
module Transport {
  import opened Wrappers
  import opened Tracklist
  import Waveform

  /** What the audio libraries report when a track is (re)started: pydub's
      decode of the file (`None` when it fails), whether pygame's
      `load`/`play` succeeded, and mutagen's length in seconds (`None` when
      it cannot be read). */
  datatype TrackLoad = TrackLoad(decoded: Option<Waveform.Audio>, playOk: bool, length: Option<real>)

  /** The player's state fields.  `volume` is the value last handed to the
      mixer's `set_volume`; `playOffset` is the position the backend was last
      started from (see `UpdateSongPosition`). */
  datatype Player = Player(
    songs: seq<string>,
    entries: seq<Entry>,
    currentIndex: nat,
    currentSong: string,
    playing: bool,
    paused: bool,
    shuffle: bool,
    loopState: int,
    muted: bool,
    previousVolume: real,
    volume: real,
    stoppedPosition: real,
    sliderActive: bool,
    songLength: real,
    songTime: real,
    playOffset: real,
    waveform: seq<real>)

  /** Loop modes: off, the whole list, the current track. */
  const LoopOff: int := 0
  const LoopAll: int := 1
  const LoopOne: int := 2

  /** The state the constructor sets up. */
  function Init(): (p: Player)
    ensures p.songs == [] && p.currentIndex == 0 && !p.playing && !p.paused
  {
    Player([], [], 0, "", false, false, false, LoopOff, false, 0.5, 0.5, 0.0, false, 0.0, 0.0, 0.0, [])
  }

  /** The invariant every handler keeps: one entry per song, each storing its
      position, at most one highlighted, the current index inside a non-empty
      list (0 for an empty one), a loop mode in 0..2, the volume and the
      volume to restore in [0, 1], and a muted player at volume zero. */
  ghost predicate Valid(p: Player) {
    && |p.entries| == |p.songs|
    && Aligned(p.entries)
    && AtMostOneSelected(p.entries)
    && (|p.songs| == 0 ==> p.currentIndex == 0)
    && (|p.songs| > 0 ==> p.currentIndex < |p.songs|)
    && 0 <= p.loopState < 3
    && 0.0 <= p.volume <= 1.0
    && 0.0 <= p.previousVolume <= 1.0
    && (p.muted ==> p.volume == 0.0)
  }

  // ---------------------------------------------------------------------
  // Labels

  /** The loop button text for each loop mode. */
  function LoopLabel(loopState: int): (s: string)
    ensures loopState == LoopOff ==> s == "LOOP"
    ensures loopState == LoopAll ==> s == "LOOP ALL"
    ensures loopState == LoopOne ==> s == "LOOP ONE"
  {
    if loopState == LoopOff then "LOOP" else if loopState == LoopAll then "LOOP ALL" else "LOOP ONE"
  }

  /** The volume button text. */
  function MuteLabel(muted: bool): (s: string)
    ensures muted <==> s == "MUTED"
    ensures !muted <==> s == "VOL"
  {
    if muted then "MUTED" else "VOL"
  }

  // ---------------------------------------------------------------------
  // Selection and starting a track

  /** `select_song`: clears every highlight, then highlights `index` when it
      is a valid position (so an out-of-range index leaves nothing highlighted). */
  function SelectSong(p: Player, index: int): (r: Player)
    ensures |r.entries| == |p.entries|
    ensures forall j :: 0 <= j < |r.entries| ==> (r.entries[j].selected <==> j == index)
    ensures forall j :: 0 <= j < |r.entries| ==> r.entries[j].index == p.entries[j].index
    ensures r == p.(entries := r.entries)
  {
    p.(entries := SelectOnly(p.entries, index))
  }

  /** `play_music`: starts the current index from the beginning.  An index
      outside the list raises before anything is assigned; a failed
      `load`/`play` leaves the new current song and waveform but no playback. */
  function PlayMusic(p: Player, load: TrackLoad): (r: Player)
    ensures r.songs == p.songs && r.currentIndex == p.currentIndex
    ensures r.stoppedPosition == p.stoppedPosition && r.songTime == p.songTime
    ensures r.loopState == p.loopState && r.shuffle == p.shuffle
    ensures r.muted == p.muted && r.volume == p.volume && r.previousVolume == p.previousVolume
    ensures r.sliderActive == p.sliderActive
    ensures |p.songs| == 0 || p.currentIndex >= |p.songs| ==> r == p
    ensures 0 <= p.currentIndex < |p.songs| ==>
      r.currentSong == p.songs[p.currentIndex] && r.waveform == Waveform.Generate(load.decoded)
    ensures 0 <= p.currentIndex < |p.songs| && load.playOk ==>
      r.playing && !r.paused && r.playOffset == 0.0 &&
      (load.length.Some? ==> r.songLength == load.length.value) &&
      (load.length.None? ==> r.songLength == 0.0) &&
      |r.entries| == |p.entries| &&
      forall j :: 0 <= j < |r.entries| ==> r.entries[j] == Entry(j == p.currentIndex, p.entries[j].index)
    ensures !load.playOk ==> r.playing == p.playing && r.paused == p.paused && r.entries == p.entries
  {
    if |p.songs| == 0 || p.currentIndex >= |p.songs| then p
    else
      var q := p.(currentSong := p.songs[p.currentIndex], waveform := Waveform.Generate(load.decoded));
      if load.playOk then
        SelectSong(q.(playing := true, paused := false, playOffset := 0.0, songLength := load.length.GetOr(0.0)), q.currentIndex)
      else q
  }

  /** `r` is what `play_music` leaves after starting the track at
      `r.currentIndex` of `p`'s list: that path is the loaded song with its
      envelope stored, and when the backend accepts it, it plays from the
      start as the only highlighted entry.  The modes and the volume stay. */
  predicate StartsTrack(p: Player, r: Player, load: TrackLoad) {
    && r.songs == p.songs
    && r.currentIndex < |r.songs| && r.currentSong == r.songs[r.currentIndex]
    && r.waveform == Waveform.Generate(load.decoded)
    && (load.playOk ==>
          && r.playing && !r.paused && r.playOffset == 0.0
          && |r.entries| == |p.entries|
          && forall j :: 0 <= j < |r.entries| ==> (r.entries[j].selected <==> j == r.currentIndex))
    && r.loopState == p.loopState && r.shuffle == p.shuffle
    && r.volume == p.volume && r.muted == p.muted && r.previousVolume == p.previousVolume
  }

  // ---------------------------------------------------------------------
  // Play, pause, stop

  /** `play`: nothing on an empty list; resumes a paused track; restarts a
      stopped, loaded track at `stoppedPosition`; starts the current index
      when nothing is loaded; nothing while already playing. */
  function Play(p: Player, load: TrackLoad): (r: Player)
    ensures |p.songs| == 0 ==> r == p
    ensures |p.songs| > 0 && p.paused ==>
      r.playing && !r.paused && r == p.(playing := r.playing, paused := r.paused)
    ensures |p.songs| > 0 && !p.paused && p.playing ==> r == p
    ensures |p.songs| > 0 && !p.paused && !p.playing && p.currentSong != "" && load.playOk ==>
      r.playing && !r.paused && r.playOffset == p.stoppedPosition &&
      |r.entries| == |p.entries| &&
      r == p.(playing := true, paused := false, playOffset := p.stoppedPosition, entries := r.entries) &&
      (forall j :: 0 <= j < |r.entries| ==> r.entries[j].index == p.entries[j].index) &&
      forall j :: 0 <= j < |r.entries| ==> (r.entries[j].selected <==> j == p.currentIndex)
    ensures |p.songs| > 0 && !p.paused && !p.playing && p.currentSong != "" && !load.playOk ==> r == p
    ensures |p.songs| > 0 && !p.paused && !p.playing && p.currentSong == "" ==> r == PlayMusic(p, load)
  {
    if |p.songs| == 0 then p
    else if p.paused then p.(paused := false, playing := true)
    else if !p.playing then
      if p.currentSong != "" then
        if load.playOk then
          SelectSong(p.(playing := true, paused := false, playOffset := p.stoppedPosition), p.currentIndex)
        else p
      else PlayMusic(p, load)
    else p
  }

  /** `pause`: pauses a playing track, resumes a paused one, otherwise nothing;
      only the paused flag ever changes. */
  function Pause(p: Player): (r: Player)
    ensures r == p.(paused := r.paused)
    ensures p.playing && !p.paused ==> r.paused
    ensures p.paused ==> !r.paused
    ensures !p.playing && !p.paused ==> r == p
  {
    if p.playing && !p.paused then p.(paused := true)
    else if p.paused then p.(paused := false)
    else p
  }

  /** `stop`: only while playing; remembers the current time as the position
      to restart from and clears both playback flags. */
  function Stop(p: Player): (r: Player)
    ensures !p.playing ==> r == p
    ensures p.playing ==>
      !r.playing && !r.paused && r.stoppedPosition == p.songTime &&
      r == p.(playing := false, paused := false, stoppedPosition := r.stoppedPosition)
  {
    if p.playing then p.(stoppedPosition := p.songTime, playing := false, paused := false) else p
  }

  // ---------------------------------------------------------------------
  // Track changes

  /** A value already in [0, n) is its own remainder, also after adding n. */
  lemma ModOfSmall(x: int, n: int)
    requires 0 <= x < n
    ensures x % n == x && (x + n) % n == x
  {
  }

  /** `previous_song`: on a non-empty list steps the index back, wrapping from
      the first to the last track, forgets the stopped position and starts
      the new track. */
  function PreviousSong(p: Player, load: TrackLoad): (r: Player)
    ensures |p.songs| == 0 ==> r == p
    ensures |p.songs| > 0 ==> r.stoppedPosition == 0.0 && r.songs == p.songs
    ensures |p.songs| > 0 && p.currentIndex < |p.songs| ==>
      r.currentIndex == (p.currentIndex + |p.songs| - 1) % |p.songs|
    ensures |p.songs| > 0 && p.currentIndex < |p.songs| ==> StartsTrack(p, r, load)
  {
    if |p.songs| == 0 then p
    else
      var i := if p.currentIndex > 0 then p.currentIndex - 1 else |p.songs| - 1;
      assert p.currentIndex < |p.songs| ==> i == (p.currentIndex + |p.songs| - 1) % |p.songs| by {
        if p.currentIndex < |p.songs| { ModOfSmall(i, |p.songs|); }
      }
      PlayMusic(p.(currentIndex := i, stoppedPosition := 0.0), load)
  }

  /** `next_song`: on a non-empty list steps the index forward, wrapping from
      the last track to the first, forgets the stopped position and starts
      the new track. */
  function NextSong(p: Player, load: TrackLoad): (r: Player)
    ensures |p.songs| == 0 ==> r == p
    ensures |p.songs| > 0 ==> r.stoppedPosition == 0.0 && r.songs == p.songs
    ensures |p.songs| > 0 && p.currentIndex < |p.songs| ==>
      r.currentIndex == (p.currentIndex + 1) % |p.songs|
    ensures |p.songs| > 0 ==> StartsTrack(p, r, load)
  {
    if |p.songs| == 0 then p
    else
      var i := if p.currentIndex < |p.songs| - 1 then p.currentIndex + 1 else 0;
      assert p.currentIndex < |p.songs| ==> i == (p.currentIndex + 1) % |p.songs|;
      PlayMusic(p.(currentIndex := i, stoppedPosition := 0.0), load)
  }

  /** The indices below `n` other than `cur`, in increasing order: the
      candidates `play_random_song` chooses from. */
  function Others(n: nat, cur: int): (r: seq<nat>)
    ensures forall x: int :: x in r <==> 0 <= x < n && x != cur
    ensures forall i, j :: 0 <= i < j < |r| ==> r[i] < r[j]
    ensures |r| == if 0 <= cur < n then n - 1 else n
  {
    if n == 0 then []
    else
      var rest := Others(n - 1, cur);
      OthersBelow(rest, n - 1, cur);
      rest + (if n - 1 != cur then [n - 1] else [])
  }

  /** Every candidate below `m` sits below `m`, position by position. */
  lemma OthersBelow(rest: seq<nat>, m: nat, cur: int)
    requires forall x: int :: x in rest <==> 0 <= x < m && x != cur
    ensures forall i :: 0 <= i < |rest| ==> rest[i] < m
  {
    forall i | 0 <= i < |rest|
      ensures rest[i] < m
    {
      assert rest[i] in rest;
    }
  }

  /** `play_random_song`: with two or more tracks jumps to one of the other
      indices (the `pick`-th candidate, standing for `random.choice`); with one
      track keeps the index; with none changes nothing.  Then forgets the
      stopped position and starts the track. */
  function PlayRandomSong(p: Player, pick: nat, load: TrackLoad): (r: Player)
    ensures |p.songs| == 0 ==> r == p
    ensures |p.songs| == 1 ==> r.currentIndex == p.currentIndex
    ensures |p.songs| >= 2 && p.currentIndex < |p.songs| ==>
      r.currentIndex < |p.songs| && r.currentIndex != p.currentIndex &&
      r.currentIndex == Others(|p.songs|, p.currentIndex)[pick % (|p.songs| - 1)]
    ensures |p.songs| > 0 ==> r.stoppedPosition == 0.0 && r.songs == p.songs
    ensures |p.songs| > 0 && p.currentIndex < |p.songs| ==> StartsTrack(p, r, load)
  {
    if |p.songs| > 1 then
      var others := Others(|p.songs|, p.currentIndex);
      assert |others| >= 1;
      var i := others[pick % |others|];
      assert i in others;
      PlayMusic(p.(currentIndex := i, stoppedPosition := 0.0), load)
    else if |p.songs| == 1 then
      PlayMusic(p.(stoppedPosition := 0.0), load)
    else p
  }

  /** `check_music_end`: acts only when the player thinks it is playing and
      the backend is no longer busy.  It clears the playing flag, then
      replays the track (loop one), advances with wrap-around (loop all),
      jumps to a random other track (shuffle), advances when a next track
      exists, or else calls `stop`, which no longer does anything. */
  function CheckMusicEnd(p: Player, busy: bool, pick: nat, load: TrackLoad): (r: Player)
    ensures !p.playing || busy ==> r == p
    ensures r.songs == p.songs && r.loopState == p.loopState && r.shuffle == p.shuffle
  {
    if !(p.playing && !busy) then p
    else
      var q := p.(playing := false);
      if q.loopState == LoopOne then PlayMusic(q, load)
      else if q.loopState == LoopAll then NextSong(q, load)
      else if q.shuffle then PlayRandomSong(q, pick, load)
      else if q.currentIndex < |q.songs| - 1 then NextSong(q, load)
      else Stop(q)
  }

  // ---------------------------------------------------------------------
  // Modes and volume

  /** `toggle_loop`: off, then all, then one, then off again. */
  function ToggleLoop(p: Player): (r: Player)
    ensures 0 <= r.loopState < 3
    ensures 0 <= p.loopState ==> r.loopState == (p.loopState + 1) % 3
    ensures r == p.(loopState := r.loopState)
  {
    p.(loopState := (p.loopState + 1) % 3)
  }

  /** `toggle_shuffle`: flips the shuffle flag. */
  function ToggleShuffle(p: Player): (r: Player)
    ensures r.shuffle != p.shuffle
    ensures r == p.(shuffle := r.shuffle)
  {
    p.(shuffle := !p.shuffle)
  }

  /** `volume_adjust`, the volume slider's handler: sets the mixer volume; a
      positive value becomes the volume to restore and unmutes, zero mutes. */
  function VolumeAdjust(p: Player, v: real): (r: Player)
    ensures r.volume == v
    ensures v > 0.0 ==> r.previousVolume == v && !r.muted
    ensures v <= 0.0 ==> r.muted && r.previousVolume == p.previousVolume
    ensures r == p.(volume := v, muted := r.muted, previousVolume := r.previousVolume)
  {
    if v > 0.0 then p.(volume := v, previousVolume := v, muted := false)
    else p.(volume := v, muted := true)
  }

  /** `toggle_mute`: unmuting restores the remembered volume; muting
      remembers the volume the mixer reports (`reported`, standing for
      `get_volume`, which gives back the mixer's own rounding of the last
      value set) and sets the volume to zero. */
  function ToggleMute(p: Player, reported: real): (r: Player)
    ensures r.muted != p.muted
    ensures p.muted ==> r.volume == p.previousVolume && r.previousVolume == p.previousVolume
    ensures !p.muted ==> r.volume == 0.0 && r.previousVolume == reported
    ensures r == p.(volume := r.volume, muted := r.muted, previousVolume := r.previousVolume)
  {
    if p.muted then p.(volume := p.previousVolume, muted := false)
    else p.(previousVolume := reported, volume := 0.0, muted := true)
  }

  // ---------------------------------------------------------------------
  // Position slider and position updates

  /** `slider_start_scroll` / `slider_stop_scroll`. */
  function SliderPress(p: Player): (r: Player)
    ensures r.sliderActive && r == p.(sliderActive := true)
  {
    p.(sliderActive := true)
  }

  function SliderRelease(p: Player): (r: Player)
    ensures !r.sliderActive && r == p.(sliderActive := false)
  {
    p.(sliderActive := false)
  }

  /** `slide_song`: ignored unless the slider is held.  The new time is
      stored first; with an unknown length (zero) the division for the marker
      raises and the handler stops there.  While playing, the backend is
      restarted at the new position, keeping a paused track paused; a failed
      restart calls `stop`. */
  function SlideSong(p: Player, v: real, seekOk: bool): (r: Player)
    ensures !p.sliderActive ==> r == p
    ensures p.sliderActive ==> r.songTime == v && r.songs == p.songs && r.currentIndex == p.currentIndex
    ensures p.sliderActive && (p.songLength == 0.0 || !p.playing) ==> r == p.(songTime := v)
    ensures p.sliderActive && p.songLength != 0.0 && p.playing && seekOk ==>
      r == p.(songTime := v, playOffset := v)
    ensures p.sliderActive && p.songLength != 0.0 && p.playing && !seekOk ==>
      !r.playing && !r.paused && r.stoppedPosition == v
  {
    if !p.sliderActive then p
    else
      var q := p.(songTime := v);
      if q.songLength == 0.0 then q
      else if q.playing then (if seekOk then q.(playOffset := v) else Stop(q))
      else q
  }

  /** The waveform marker position: the share of the track played, 0 when
      the length is unknown.  A time within the track puts it in [0, 1], a
      negative time left of the waveform. */
  function MarkerRatio(p: Player): (r: real)
    ensures p.songLength <= 0.0 ==> r == 0.0
    ensures p.songLength > 0.0 ==> r * p.songLength == p.songTime
    ensures p.songLength > 0.0 && 0.0 <= p.songTime <= p.songLength ==> 0.0 <= r <= 1.0
    ensures p.songLength > 0.0 && p.songTime < 0.0 ==> r < 0.0
  {
    if p.songLength > 0.0 then
      RatioBounds(p.songTime, p.songLength);
      p.songTime / p.songLength
    else 0.0
  }

  /** A time over a positive length: multiplying back gives the time, a time
      within the length gives a share in [0, 1], a negative time a negative
      share. */
  lemma RatioBounds(x: real, len: real)
    requires len > 0.0
    ensures (x / len) * len == x
    ensures 0.0 <= x <= len ==> 0.0 <= x / len <= 1.0
    ensures x < 0.0 ==> x / len < 0.0
  {
    var q := x / len;
    assert q * len == x;
    assert (1.0 - q) * len == len - x;
  }

  /** `update_song_position` with the playback clock folded in: the backend's
      `get_pos` counts milliseconds since the last start (and gives -1 once
      playback has ended), so the position is the start offset plus that,
      clamped to the track: never below 0 and never past its length.
      Nothing happens while the slider is held, when not playing, when
      paused, or when the length is unknown. */
  function UpdateSongPosition(p: Player, posMs: int): (r: Player)
    ensures p.sliderActive || !p.playing || p.paused || p.songLength <= 0.0 ==> r == p
    ensures r == p.(songTime := r.songTime)
    ensures !p.sliderActive && p.playing && !p.paused && p.songLength > 0.0 ==>
      var t := p.playOffset + posMs as real / 1000.0;
      && 0.0 <= r.songTime <= p.songLength
      && (0.0 <= t <= p.songLength ==> r.songTime == t)
      && (t < 0.0 ==> r.songTime == 0.0)
      && (t > p.songLength ==> r.songTime == p.songLength)
  {
    if p.sliderActive then p
    else if p.playing && !p.paused && p.songLength > 0.0 then
      var t := p.playOffset + posMs as real / 1000.0;
      p.(songTime := if t < 0.0 then 0.0 else if t <= p.songLength then t else p.songLength)
    else p
  }

  /** `update_song_position` as written: the time is the backend's elapsed
      milliseconds over 1000 alone, whatever position the backend was started
      from, and it is bounded only from above. */
  function UpdateSongPositionAsWritten(p: Player, posMs: int): (r: Player)
    ensures p.sliderActive || !p.playing || p.paused || p.songLength <= 0.0 ==> r == p
    ensures r == p.(songTime := r.songTime)
    ensures !p.sliderActive && p.playing && !p.paused && p.songLength > 0.0 ==>
      r.songTime <= p.songLength &&
      (posMs as real / 1000.0 <= p.songLength ==> r.songTime == posMs as real / 1000.0) &&
      (posMs as real / 1000.0 > p.songLength ==> r.songTime == p.songLength)
  {
    if p.sliderActive then p
    else if p.playing && !p.paused && p.songLength > 0.0 then
      var t := posMs as real / 1000.0;
      p.(songTime := if t <= p.songLength then t else p.songLength)
    else p
  }

  // ---------------------------------------------------------------------
  // Track-list edits of this revision

  /** `remove_song`: with no highlighted entry nothing changes.  Otherwise
      the highlighted position is popped from the entries and the songs, the
      later entries are re-indexed, an index at or after the removed
      position moves back by one (not below 0), and the entry at the new
      index (or the first) is highlighted.  The loaded song keeps playing. */
  function RemoveSong(p: Player): (r: Player)
    ensures FirstSelected(p.entries) == -1 ==> r == p
    ensures r.currentSong == p.currentSong && r.playing == p.playing && r.paused == p.paused
  {
    var k := FirstSelected(p.entries);
    if k == -1 then p
    else
      var es := RemoveAt(p.entries, k);
      if k >= |p.songs| then p.(entries := es)
      else
        var songs := RemoveAt(p.songs, k);
        var es1 := ReindexFrom(es, k);
        var idx: nat := if p.currentIndex >= k then (if p.currentIndex - 1 >= 0 then p.currentIndex - 1 else 0) else p.currentIndex;
        var es2 :=
          if |es1| == 0 then es1
          else if k <= |es1| then (if idx < |es1| then SelectOnly(es1, idx) else SelectOnly(es1, 0))
          else es1;
        p.(songs := songs, entries := es2, currentIndex := idx)
  }

  /** `clear_playlist`: stops a playing track, empties the list and resets
      the index to 0.  The loaded song, the modes, the volume and the time
      stay. */
  function ClearPlaylist(p: Player): (r: Player)
    ensures r.songs == [] && r.entries == [] && r.currentIndex == 0
    ensures !r.playing
    ensures r == p.(songs := [], entries := [], currentIndex := 0, playing := false,
                    paused := r.paused, stoppedPosition := r.stoppedPosition)
    ensures p.playing ==> !r.paused
    ensures p.playing ==> r.stoppedPosition == p.songTime
    ensures !p.playing ==> r.paused == p.paused && r.stoppedPosition == p.stoppedPosition
  {
    var q := if p.playing then Stop(p) else p;
    q.(entries := [], songs := [], currentIndex := 0)
  }
}
