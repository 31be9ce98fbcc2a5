/**
  Properties of the MN-1 transport model: the invariant every handler
  keeps, the end-of-track policy branch by branch, reachability of every
  random pick, round trips of the toggles, and the playback clock.
 */
module TransportProps {
  import opened Wrappers
  import opened Tracklist
  import opened Transport

  // ---------------------------------------------------------------------
  // The invariant

  lemma InitValid()
    ensures Valid(Init())
  {
  }

  /** Starting a track keeps the invariant: only the highlight moves, to the
      current index. */
  lemma PlayMusicValid(p: Player, load: TrackLoad)
    requires Valid(p)
    ensures Valid(PlayMusic(p, load))
  {
    var r := PlayMusic(p, load);
    if p.currentIndex < |p.songs| && load.playOk {
      SelectOnlyKeepsShape(p.entries, p.currentIndex);
      assert r.entries == SelectOnly(p.entries, p.currentIndex);
    } else {
      assert r.entries == p.entries;
    }
    assert r.songs == p.songs && r.currentIndex == p.currentIndex;
  }

  /** Play, pause and stop keep the invariant. */
  lemma ButtonsPreserveValid(p: Player, load: TrackLoad)
    requires Valid(p)
    ensures Valid(Play(p, load)) && Valid(Pause(p)) && Valid(Stop(p))
  {
    PlayMusicValid(p, load);
    var r := Play(p, load);
    if |p.songs| > 0 && !p.paused && !p.playing && p.currentSong != "" && load.playOk {
      assert forall j :: 0 <= j < |r.entries| ==> (r.entries[j].selected <==> j == p.currentIndex);
    }
  }

  /** Next and previous keep the invariant. */
  lemma StepsPreserveValid(p: Player, load: TrackLoad)
    requires Valid(p)
    ensures Valid(NextSong(p, load)) && Valid(PreviousSong(p, load))
  {
    NextPreservesValid(p, load);
    PreviousPreservesValid(p, load);
  }

  lemma NextPreservesValid(p: Player, load: TrackLoad)
    requires Valid(p)
    ensures Valid(NextSong(p, load))
  {
    if |p.songs| > 0 {
      var i := if p.currentIndex < |p.songs| - 1 then p.currentIndex + 1 else 0;
      var q := p.(currentIndex := i, stoppedPosition := 0.0);
      assert NextSong(p, load) == PlayMusic(q, load);
      assert Valid(q);
      PlayMusicValid(q, load);
    }
  }

  lemma PreviousPreservesValid(p: Player, load: TrackLoad)
    requires Valid(p)
    ensures Valid(PreviousSong(p, load))
  {
    if |p.songs| > 0 {
      var i := if p.currentIndex > 0 then p.currentIndex - 1 else |p.songs| - 1;
      var q := p.(currentIndex := i, stoppedPosition := 0.0);
      assert PreviousSong(p, load) == PlayMusic(q, load);
      assert Valid(q);
      PlayMusicValid(q, load);
    }
  }

  /** The random pick keeps the invariant. */
  lemma RandomPreservesValid(p: Player, load: TrackLoad, pick: nat)
    requires Valid(p)
    ensures Valid(PlayRandomSong(p, pick, load))
  {
    if |p.songs| > 1 {
      var others := Others(|p.songs|, p.currentIndex);
      var i := others[pick % |others|];
      assert i in others;
      var q := p.(currentIndex := i, stoppedPosition := 0.0);
      assert Valid(q);
      PlayMusicValid(q, load);
      assert PlayRandomSong(p, pick, load) == PlayMusic(q, load);
    } else if |p.songs| == 1 {
      PlayMusicValid(p.(stoppedPosition := 0.0), load);
    }
  }

  /** The end-of-track check keeps the invariant. */
  lemma CheckMusicEndPreservesValid(p: Player, busy: bool, pick: nat, load: TrackLoad)
    requires Valid(p)
    ensures Valid(CheckMusicEnd(p, busy, pick, load))
  {
    if p.playing && !busy {
      var q := p.(playing := false);
      var r := CheckMusicEnd(p, busy, pick, load);
      if q.loopState == LoopOne {
        assert r == PlayMusic(q, load);
        PlayMusicValid(q, load);
      } else if q.loopState == LoopAll || (!q.shuffle && q.currentIndex < |q.songs| - 1) {
        assert r == NextSong(q, load);
        StepsPreserveValid(q, load);
      } else if q.shuffle {
        assert r == PlayRandomSong(q, pick, load);
        RandomPreservesValid(q, load, pick);
      } else {
        assert r == q;
      }
    }
  }

  /** The mode buttons keep the invariant; the volume slider does so for any
      value in its range [0, 1]. */
  lemma ModesPreserveValid(p: Player, v: real, reported: real)
    requires Valid(p)
    requires 0.0 <= v <= 1.0 && 0.0 <= reported <= 1.0
    ensures Valid(ToggleLoop(p)) && Valid(ToggleShuffle(p))
    ensures Valid(VolumeAdjust(p, v)) && Valid(ToggleMute(p, reported))
  {
  }

  /** Seeking, slider presses and releases and position updates keep the invariant. */
  lemma SliderPreservesValid(p: Player, v: real, seekOk: bool, posMs: int)
    requires Valid(p)
    ensures Valid(SliderPress(p)) && Valid(SliderRelease(p))
    ensures Valid(SlideSong(p, v, seekOk)) && Valid(UpdateSongPosition(p, posMs))
  {
  }

  /** Selecting and clearing keep the invariant. */
  lemma SelectAndClearPreserveValid(p: Player, index: int)
    requires Valid(p)
    ensures Valid(SelectSong(p, index))
    ensures Valid(ClearPlaylist(p))
  {
  }

  /** Removal pops the highlighted position from both lists and moves an
      index at or after it back by one, not below 0. */
  lemma RemoveSongShape(p: Player)
    requires Valid(p)
    requires FirstSelected(p.entries) >= 0
    ensures var k, r := FirstSelected(p.entries), RemoveSong(p);
      && r.songs == RemoveAt(p.songs, k) && |r.entries| == |r.songs|
      && (k < p.currentIndex ==> r.currentIndex == p.currentIndex - 1)
      && (k > p.currentIndex ==> r.currentIndex == p.currentIndex)
      && (k == p.currentIndex ==> r.currentIndex == if k > 0 then k - 1 else 0)
  {
  }

  /** Removing the highlighted track keeps the invariant. */
  lemma RemoveSongValid(p: Player)
    requires Valid(p)
    ensures Valid(RemoveSong(p))
  {
    var k := FirstSelected(p.entries);
    if k >= 0 {
      RemoveSongShape(p);
      RemoveReindexAligned(p.entries, k);
      var es1 := ReindexFrom(RemoveAt(p.entries, k), k);
      var r := RemoveSong(p);
      assert |es1| == |r.songs|;
      if |es1| > 0 {
        assert r.currentIndex < |es1|;
        assert r.entries == SelectOnly(es1, r.currentIndex);
        SelectOnlyKeepsShape(es1, r.currentIndex);
      }
    }
  }

  // ---------------------------------------------------------------------
  // End of track, branch by branch

  /** Loop one replays the same index from the start. */
  lemma EndOfTrackLoopOne(p: Player, pick: nat, load: TrackLoad)
    requires p.playing && p.loopState == LoopOne
    requires p.currentIndex < |p.songs| && load.playOk
    ensures var r := CheckMusicEnd(p, false, pick, load);
      r.currentIndex == p.currentIndex && r.playing && r.playOffset == 0.0 &&
      r.currentSong == p.songs[p.currentIndex] && r.stoppedPosition == p.stoppedPosition
  {
  }

  /** Loop all advances with wrap-around. */
  lemma EndOfTrackLoopAll(p: Player, pick: nat, load: TrackLoad)
    requires p.playing && p.loopState == LoopAll && p.currentIndex < |p.songs|
    ensures var r := CheckMusicEnd(p, false, pick, load);
      r.currentIndex == (p.currentIndex + 1) % |p.songs| && r.stoppedPosition == 0.0
  {
    assert CheckMusicEnd(p, false, pick, load) == NextSong(p.(playing := false), load);
  }

  /** Without looping, shuffle moves to another index of the list. */
  lemma EndOfTrackShuffle(p: Player, pick: nat, load: TrackLoad)
    requires p.playing && p.loopState == LoopOff && p.shuffle
    requires 2 <= |p.songs| && p.currentIndex < |p.songs|
    ensures var r := CheckMusicEnd(p, false, pick, load);
      r.currentIndex != p.currentIndex && r.currentIndex < |p.songs| && r.stoppedPosition == 0.0
  {
  }

  /** Without looping or shuffle, the next track follows when there is one. */
  lemma EndOfTrackSequential(p: Player, pick: nat, load: TrackLoad)
    requires p.playing && p.loopState == LoopOff && !p.shuffle
    requires p.currentIndex + 1 < |p.songs|
    ensures var r := CheckMusicEnd(p, false, pick, load);
      r.currentIndex == p.currentIndex + 1 && r.stoppedPosition == 0.0
  {
  }

  /** After the last track, without looping or shuffle, only the playing flag
      drops: the closing `stop` finds playback already off, so the stopped
      position is not updated. */
  lemma EndOfLastTrack(p: Player, pick: nat, load: TrackLoad)
    requires p.playing && p.loopState == LoopOff && !p.shuffle
    requires |p.songs| > 0 && p.currentIndex == |p.songs| - 1
    ensures CheckMusicEnd(p, false, pick, load) == p.(playing := false)
    ensures CheckMusicEnd(p, false, pick, load).stoppedPosition == p.stoppedPosition
  {
  }

  /** While the backend is busy, or when the player is not playing, the
      check does nothing. */
  lemma EndCheckNeedsIdleBackend(p: Player, busy: bool, pick: nat, load: TrackLoad)
    requires busy || !p.playing
    ensures CheckMusicEnd(p, busy, pick, load) == p
  {
  }

  // ---------------------------------------------------------------------
  // The random pick

  /** With the current index outside [0, m), every index below m is a candidate, in order. */
  lemma {:induction false} OthersAllBelow(m: nat, cur: int, k: nat)
    requires !(0 <= cur < m) && k < m
    ensures |Others(m, cur)| == m && Others(m, cur)[k] == k
  {
    if k < m - 1 {
      OthersAllBelow(m - 1, cur, k);
    }
  }

  /** The k-th candidate skips exactly the current index. */
  lemma {:induction false} OthersAt(n: nat, cur: nat, k: nat)
    requires cur < n && k < n - 1
    ensures Others(n, cur)[k] == if k < cur then k else k + 1
  {
    if n - 1 == cur {
      OthersAllBelow(n - 1, cur, k);
    } else if k < n - 2 {
      OthersAt(n - 1, cur, k);
    }
  }

  /** Every index other than the current one is reached by some pick, so the
      model of `random.choice` rules out no allowed outcome. */
  lemma RandomPickCovers(p: Player, load: TrackLoad, j: nat)
    requires 2 <= |p.songs| && p.currentIndex < |p.songs|
    requires j < |p.songs| && j != p.currentIndex
    ensures PlayRandomSong(p, if j < p.currentIndex then j else j - 1, load).currentIndex == j
  {
    var pick := if j < p.currentIndex then j else j - 1;
    OthersAt(|p.songs|, p.currentIndex, pick);
    ModOfSmall(pick, |p.songs| - 1);
  }

  /** With a single track the pick keeps the index and restarts it. */
  lemma RandomSingleTrack(p: Player, pick: nat, load: TrackLoad)
    requires |p.songs| == 1 && p.currentIndex == 0 && load.playOk
    ensures var r := PlayRandomSong(p, pick, load);
      r.currentIndex == 0 && r.playing && r.playOffset == 0.0 && r.stoppedPosition == 0.0
  {
  }

  // ---------------------------------------------------------------------
  // Round trips

  /** Previous undoes next on the index. */
  lemma NextThenPrevious(p: Player, load1: TrackLoad, load2: TrackLoad)
    requires p.currentIndex < |p.songs|
    ensures PreviousSong(NextSong(p, load1), load2).currentIndex == p.currentIndex
  {
    var n := |p.songs|;
    var i := NextSong(p, load1).currentIndex;
    if p.currentIndex + 1 < n {
      ModOfSmall(p.currentIndex + 1, n);
      ModOfSmall(p.currentIndex, n);
    } else {
      assert i == 0;
      ModOfSmall(n - 1, n);
    }
  }

  /** Pausing twice while playing restores the state. */
  lemma PauseTwice(p: Player)
    requires p.playing
    ensures Pause(Pause(p)) == p
  {
  }

  /** Three loop presses restore the mode; two shuffle presses restore the flag. */
  lemma ModeCycles(p: Player)
    requires 0 <= p.loopState < 3
    ensures ToggleLoop(ToggleLoop(ToggleLoop(p))) == p
    ensures ToggleShuffle(ToggleShuffle(p)) == p
  {
  }

  /** Muting then unmuting brings back the volume the mixer reported at mute
      time (the volume itself when the mixer reports it exactly), and nothing
      else changes but the volume to restore; unmuting then muting restores
      the whole state except that the volume to restore becomes the mixer's
      report of it. */
  lemma MuteRoundTrip(p: Player, a: real, b: real)
    ensures !p.muted ==> ToggleMute(ToggleMute(p, a), b) == p.(volume := a, previousVolume := a)
    ensures !p.muted && a == p.volume ==> ToggleMute(ToggleMute(p, a), b) == p.(previousVolume := a)
    ensures p.muted ==> ToggleMute(ToggleMute(p, a), b) == p.(volume := 0.0, previousVolume := b)
  {
  }

  /** A slider move then a mute and an unmute: a positive value comes back as
      the mixer reported it; zero leaves the player muted at volume zero. */
  lemma VolumeThenMuteRoundTrip(p: Player, v: real, a: real, b: real)
    ensures v > 0.0 ==>
      ToggleMute(ToggleMute(VolumeAdjust(p, v), a), b).volume == a &&
      !ToggleMute(ToggleMute(VolumeAdjust(p, v), a), b).muted
    ensures v <= 0.0 ==>
      ToggleMute(ToggleMute(VolumeAdjust(p, v), a), b).volume == 0.0 &&
      ToggleMute(ToggleMute(VolumeAdjust(p, v), a), b).muted
  {
  }

  // ---------------------------------------------------------------------
  // The playback clock

  /** After a successful seek to x and the slider's release, the next
      position update reports x plus the time the backend has played since. */
  lemma SeekThenUpdate(p: Player, x: real, posMs: nat)
    requires p.sliderActive && p.playing && !p.paused && p.songLength > 0.0
    requires 0.0 <= x && x + posMs as real / 1000.0 <= p.songLength
    ensures UpdateSongPosition(SliderRelease(SlideSong(p, x, true)), posMs).songTime == x + posMs as real / 1000.0
  {
  }

  /** Restarting a stopped track resumes the clock at the stopped position. */
  lemma ResumeFromStopThenUpdate(p: Player, load: TrackLoad, posMs: nat)
    requires |p.songs| > 0 && !p.paused && !p.playing && p.currentSong != "" && load.playOk
    requires !p.sliderActive && p.songLength > 0.0
    requires 0.0 <= p.stoppedPosition && p.stoppedPosition + posMs as real / 1000.0 <= p.songLength
    ensures UpdateSongPosition(Play(p, load), posMs).songTime == p.stoppedPosition + posMs as real / 1000.0
  {
  }

  /** As written, the update forgets the seek: it reports only the time since
      the restart, x seconds short of the position. */
  lemma SeekLosesOffset(p: Player, x: real, posMs: nat)
    requires p.sliderActive && p.playing && !p.paused && p.songLength > 0.0
    requires 0.0 < x && x + posMs as real / 1000.0 <= p.songLength
    ensures UpdateSongPositionAsWritten(SliderRelease(SlideSong(p, x, true)), posMs).songTime == posMs as real / 1000.0
    ensures UpdateSongPositionAsWritten(SliderRelease(SlideSong(p, x, true)), posMs).songTime
         != UpdateSongPosition(SliderRelease(SlideSong(p, x, true)), posMs).songTime
  {
  }

  /** While the slider is held, updates leave the position to the user. */
  lemma SliderSuppressesUpdates(p: Player, posMs: int)
    requires p.sliderActive
    ensures UpdateSongPosition(p, posMs) == p
  {
  }

  /** The waveform marker stays within [0, 1] after an update, whatever the
      backend reports. */
  lemma MarkerInUnitRange(p: Player, posMs: int)
    requires !p.sliderActive && p.playing && !p.paused && p.songLength > 0.0
    ensures 0.0 <= MarkerRatio(UpdateSongPosition(p, posMs)) <= 1.0
  {
    var r := UpdateSongPosition(p, posMs);
    assert 0.0 <= r.songTime <= p.songLength;
  }

  /** As written, once playback has ended (the backend's elapsed time reads
      -1) an update still running sets a negative time, and the marker falls
      left of the waveform. */
  lemma NegativePositionAsWritten(p: Player)
    requires !p.sliderActive && p.playing && !p.paused && p.songLength > 0.0
    ensures UpdateSongPositionAsWritten(p, -1).songTime == -0.001
    ensures MarkerRatio(UpdateSongPositionAsWritten(p, -1)) < 0.0
  {
  }

  // ---------------------------------------------------------------------
  // Track-list edits

  /** Removing a track before the current one keeps the current path. */
  lemma RemoveBeforeKeepsCurrentPath(p: Player)
    requires Valid(p)
    requires 0 <= FirstSelected(p.entries) < p.currentIndex
    ensures RemoveSong(p).currentIndex < |RemoveSong(p).songs|
    ensures RemoveSong(p).songs[RemoveSong(p).currentIndex] == p.songs[p.currentIndex]
  {
    RemoveSongShape(p);
  }

  /** After a removal that leaves tracks, exactly the entry at the new current
      index is highlighted. */
  lemma RemoveHighlightsCurrent(p: Player)
    requires Valid(p)
    requires FirstSelected(p.entries) >= 0 && |p.songs| >= 2
    ensures forall j :: 0 <= j < |RemoveSong(p).entries| ==>
      (RemoveSong(p).entries[j].selected <==> j == RemoveSong(p).currentIndex)
  {
  }
}
