/**
  Properties of the Mn-1 track-list model: the theme cycle, the add-files
  filter and its de-duplication, the invariant every handler keeps, and
  the repair of the current index when the highlighted entry is removed.
 */
module PlaylistProps {
  import opened Wrappers
  import opened Tracklist
  import opened Playlist

  // ---------------------------------------------------------------------
  // Themes

  /** Four presses of the theme button bring every known theme back. */
  lemma ThemeCycleReturns(t: string)
    requires t in ThemeCycle
    ensures NextTheme(NextTheme(NextTheme(NextTheme(t)))) == t
    ensures NextTheme(t) != t
  {
    if t == "dark" {
      assert NextTheme(t) == "light" && NextTheme("light") == "grey" && NextTheme("grey") == "red";
    } else if t == "light" {
      assert NextTheme(t) == "grey" && NextTheme("grey") == "red" && NextTheme("red") == "dark";
    } else if t == "grey" {
      assert NextTheme(t) == "red" && NextTheme("red") == "dark" && NextTheme("dark") == "light";
    } else {
      assert t == "red";
      assert NextTheme(t) == "dark" && NextTheme("dark") == "light" && NextTheme("light") == "grey";
    }
  }

  /** An unknown theme name recovers to the first theme of the cycle. */
  lemma UnknownThemeRecovers(l: Library)
    requires l.theme !in ThemeCycle
    ensures ToggleTheme(l).theme == "dark"
    ensures AtMostOneSelected(l.entries) ==> ToggleTheme(l) == l.(theme := "dark")
    ensures ToggleTheme(l) == ReapplySelection(l.(theme := "dark"))
  {
  }

  // ---------------------------------------------------------------------
  // The invariant for the simple handlers

  lemma InitValid()
    ensures Valid(Init())
  {
  }

  /** Highlighting an entry keeps the invariant and moves nothing else. */
  lemma SelectSongValid(l: Library, index: int)
    requires Valid(l)
    ensures Valid(SelectSong(l, index))
  {
    SelectOnlyKeepsShape(l.entries, index);
  }

  /** Clearing always reaches a valid, empty library. */
  lemma ClearPlaylistValid(l: Library)
    ensures Valid(ClearPlaylist(l))
    ensures DisplayTitle(ClearPlaylist(l), "") == Prefix(ClearPlaylist(l)) + "TRACKLIST EMPTY"
  {
  }

  /** Re-applying the selection is idempotent and keeps the invariant. */
  lemma ReapplySelectionIdempotent(l: Library)
    requires Valid(l)
    ensures Valid(ReapplySelection(l))
    ensures ReapplySelection(ReapplySelection(l)) == ReapplySelection(l)
  {
    var k := FirstSelected(l.entries);
    if k != -1 {
      SelectSongValid(l, k);
      var r := ReapplySelection(l);
      assert r.entries == SelectOnly(l.entries, k);
      assert FirstSelected(r.entries) == k;
      assert SelectOnly(r.entries, k) == r.entries;
    }
  }

  /** Playing the selection: something plays exactly when the list is not
      empty; it is the highlighted entry when there is one and the first
      entry otherwise, and it ends up the only highlight. */
  lemma PlaySelectedSongChoice(l: Library)
    requires Valid(l)
    ensures PlaySelectedSong(l).playMusic <==> |l.songs| > 0
    ensures Valid(PlaySelectedSong(l).lib)
    ensures PlaySelectedSong(l).playMusic ==>
      var i := PlaySelectedSong(l).lib.currentIndex;
      && i == (if FirstSelected(l.entries) >= 0 then FirstSelected(l.entries) else 0)
      && FirstSelected(PlaySelectedSong(l).lib.entries) == i
      && PlaySelectedSong(l).lib.songs == l.songs
  {
    var k := FirstSelected(l.entries);
    var i := if k >= 0 then k else 0;
    if |l.songs| > 0 {
      var q := l.(currentIndex := i);
      assert Valid(q);
      SelectSongValid(q, i);
      var r := PlaySelectedSong(l).lib;
      assert r == SelectSong(q, i);
      assert r.entries[i].selected;
    }
  }

  // ---------------------------------------------------------------------
  // Adding files

  /** The additions never introduce a duplicate path. */
  lemma {:induction false} AdmitNoDup(songs: seq<string>, cs: seq<Candidate>)
    requires NoDup(songs)
    ensures NoDup(Admit(songs, cs).0)
    decreases |cs|
  {
    if |cs| > 0 {
      var c := cs[0];
      var tail := cs[1..];
      if Admissible(c) && c.path !in songs {
        var s' := songs + [c.path];
        assert Admit(songs, cs).0 == Admit(s', tail).0;
        AppendNewNoDup(songs, c.path);
        AdmitNoDup(s', tail);
      } else {
        assert Admit(songs, cs).0 == Admit(songs, tail).0;
        AdmitNoDup(songs, tail);
      }
    }
  }

  /** Appending a value not yet present keeps a list free of duplicates. */
  lemma AppendNewNoDup<T>(s: seq<T>, x: T)
    requires NoDup(s) && x !in s
    ensures NoDup(s + [x])
  {
    var s' := s + [x];
    assert forall i :: 0 <= i < |s| ==> s'[i] == s[i];
  }

  /** Every path the loop appends is a new one, taken from an admissible
      candidate. */
  lemma {:induction false} AdmitSound(songs: seq<string>, cs: seq<Candidate>)
    ensures forall j :: |songs| <= j < |Admit(songs, cs).0| ==>
      Admit(songs, cs).0[j] !in songs && AdmittedPath(cs, Admit(songs, cs).0[j])
    decreases |cs|
  {
    if |cs| > 0 {
      var c := cs[0];
      var tail := cs[1..];
      assert forall d :: d in tail ==> d in cs;
      if Admissible(c) && c.path !in songs {
        var s' := songs + [c.path];
        AdmitSound(s', tail);
        var r := Admit(s', tail).0;
        assert Admit(songs, cs).0 == r;
        forall j | |songs| <= j < |r|
          ensures r[j] !in songs && AdmittedPath(cs, r[j])
        {
          if j == |songs| {
            assert r[j] == s'[j] == c.path;
            assert c in cs;
          } else {
            assert r[j] !in s' && AdmittedPath(tail, r[j]);
          }
        }
      } else {
        AdmitSound(songs, tail);
      }
    }
  }

  /** Every admissible candidate's path is in the list afterwards, whether
      it was added or was there already. */
  lemma {:induction false} AdmitComplete(songs: seq<string>, cs: seq<Candidate>)
    ensures forall c :: c in cs && Admissible(c) ==> c.path in Admit(songs, cs).0
    ensures forall p :: p in songs ==> p in Admit(songs, cs).0
    decreases |cs|
  {
    if |cs| > 0 {
      var c := cs[0];
      var tail := cs[1..];
      var s' := if Admissible(c) && c.path !in songs then songs + [c.path] else songs;
      AdmitComplete(s', tail);
      assert Admit(songs, cs).0 == Admit(s', tail).0;
      assert forall p :: p in songs ==> p in s';
      forall d | d in cs && Admissible(d)
        ensures d.path in Admit(songs, cs).0
      {
        if d != c {
          assert d in tail;
        } else {
          assert d.path in s';
        }
      }
    }
  }

  /** Appending unhighlighted entries numbered from the end keeps a list
      aligned with at most one highlight. */
  lemma AppendNewEntriesKeepsShape(es: seq<Entry>, added: nat)
    requires Aligned(es) && AtMostOneSelected(es)
    ensures Aligned(es + NewEntries(|es|, added))
    ensures AtMostOneSelected(es + NewEntries(|es|, added))
  {
    var r := es + NewEntries(|es|, added);
    forall i, j | 0 <= i < |r| && 0 <= j < |r| && r[i].selected && r[j].selected
      ensures i == j
    {
      assert i < |es| && j < |es|;
    }
  }

  /** The first-arrivals step keeps the invariant. */
  lemma FirstArrivalsValid(l: Library)
    requires Valid(l)
    ensures Valid(FirstArrivals(l))
  {
    var l2 := LeaveEmptyTitle(l);
    assert Valid(l2);
    SelectSongValid(l2, 0);
  }

  /** Adding files keeps the invariant. */
  lemma AddSongsValid(l: Library, cs: seq<Candidate>)
    requires Valid(l)
    ensures Valid(AddSongs(l, cs))
  {
    var (songs, added) := Admit(l.songs, cs);
    AdmitNoDup(l.songs, cs);
    AppendNewEntriesKeepsShape(l.entries, added);
    var l1 := l.(songs := songs, entries := l.entries + NewEntries(|l.entries|, added));
    assert Valid(l1);
    if added > 0 && |songs| == added {
      FirstArrivalsValid(l1);
    }
  }

  /** When the added files are the first of the list and nothing is loaded,
      playing or paused, the first entry becomes the only highlight. */
  lemma AddSongsSelectsFirst(l: Library, cs: seq<Candidate>)
    requires Valid(l) && |l.songs| == 0
    requires l.currentSong == "" && !l.playing && !l.paused
    requires |Admit(l.songs, cs).0| > 0
    ensures FirstSelected(AddSongs(l, cs).entries) == 0
    ensures AtMostOneSelected(AddSongs(l, cs).entries)
  {
    AddSongsValid(l, cs);
    var (songs, added) := Admit(l.songs, cs);
    var l1 := l.(songs := songs, entries := l.entries + NewEntries(|l.entries|, added));
    var l2 := LeaveEmptyTitle(l1);
    assert AddSongs(l, cs) == SelectSong(l2, 0);
  }

  /** Files added to a non-empty list leave every existing entry, and the
      title, as they were. */
  lemma AddSongsKeepsExisting(l: Library, cs: seq<Candidate>)
    requires |l.songs| > 0
    ensures AddSongs(l, cs).entries[..|l.entries|] == l.entries
    ensures AddSongs(l, cs).title == l.title
    ensures forall t :: |l.entries| <= t < |AddSongs(l, cs).entries| ==> !AddSongs(l, cs).entries[t].selected
  {
    var (songs, added) := Admit(l.songs, cs);
    var es := l.entries + NewEntries(|l.entries|, added);
    assert AddSongs(l, cs) == l.(songs := songs, entries := es);
    assert es[..|l.entries|] == l.entries;
  }

  // ---------------------------------------------------------------------
  // Removing the highlighted entry

  /** Removal takes the highlighted position out of both lists, keeps the
      entries aligned with at most one highlight, and keeps the paths
      distinct. */
  lemma RemoveAsWrittenShape(l: Library)
    requires Valid(l)
    requires FirstSelected(l.entries) >= 0
    ensures RemoveSongAsWritten(l).songs == RemoveAt(l.songs, FirstSelected(l.entries))
    ensures |RemoveSongAsWritten(l).entries| == |RemoveSongAsWritten(l).songs|
    ensures Aligned(RemoveSongAsWritten(l).entries)
    ensures AtMostOneSelected(RemoveSongAsWritten(l).entries)
    ensures NoDup(RemoveSongAsWritten(l).songs)
  {
    var k := FirstSelected(l.entries);
    RemoveAsWrittenLists(l);
    RemoveReindexAligned(l.entries, k);
    RemoveAtNoDup(l.songs, k);
    var es := ReindexFrom(RemoveAt(l.entries, k), k);
    if !RemovesLoaded(l, k) && |l.songs| > 1 {
      var i := RepairedIndex(l.currentIndex, k, |l.songs| - 1, false);
      SelectOnlyKeepsShape(es, Min(i, |es| - 1));
    }
  }

  /** The lists after removal: songs lose position k, and the entries are
      those left by popping k and re-indexing, up to their highlights. */
  lemma RemoveAsWrittenLists(l: Library)
    requires Valid(l)
    requires FirstSelected(l.entries) >= 0
    ensures var k, r := FirstSelected(l.entries), RemoveSongAsWritten(l);
      && r.songs == RemoveAt(l.songs, k)
      && |r.entries| == |l.entries| - 1
      && forall j :: 0 <= j < |r.entries| ==> r.entries[j].index == ReindexFrom(RemoveAt(l.entries, k), k)[j].index
  {
  }

  /** The as-written index is the repaired one. */
  lemma RemoveAsWrittenIndex(l: Library)
    requires Valid(l)
    requires FirstSelected(l.entries) >= 0
    ensures RemoveSongAsWritten(l).currentIndex ==
      RepairedIndex(l.currentIndex, FirstSelected(l.entries), |l.songs| - 1, RemovesLoaded(l, FirstSelected(l.entries)))
  {
    var k := FirstSelected(l.entries);
    var songs := RemoveAt(l.songs, k);
    var es := ReindexFrom(RemoveAt(l.entries, k), k);
    var i := RepairedIndex(l.currentIndex, k, |songs|, RemovesLoaded(l, k));
    var b := l.(songs := songs, entries := es, currentIndex := i);
    if RemovesLoaded(l, k) {
      assert RemoveSongAsWritten(l).currentIndex == DropLoaded(b).currentIndex == i;
    } else if |songs| == 0 {
      assert RemoveSongAsWritten(l).currentIndex == DropEmptied(b).currentIndex == i;
    } else {
      assert RemoveSongAsWritten(l).currentIndex == SelectSong(b, Min(i, |es| - 1)).currentIndex == i;
    }
  }

  /** Where the current index goes: back by one when an earlier entry is
      removed, so that it names the same path; unchanged for a later one;
      clamped into the list when its own entry is removed; 0 once the list
      is empty. */
  lemma RemoveSongIndex(l: Library)
    requires Valid(l)
    requires FirstSelected(l.entries) >= 0
    ensures var k, r := FirstSelected(l.entries), RemoveSong(l);
      && r.songs == RemoveAt(l.songs, k)
      && (|r.songs| == 0 ==> r.currentIndex == 0)
      && (k < l.currentIndex ==> r.currentIndex == l.currentIndex - 1 < |r.songs| && r.songs[r.currentIndex] == l.songs[l.currentIndex])
      && (k > l.currentIndex ==> r.currentIndex == l.currentIndex < |r.songs| && r.songs[r.currentIndex] == l.songs[l.currentIndex])
      && (k == l.currentIndex && |r.songs| > 0 ==> r.currentIndex == Min(k, |r.songs| - 1))
  {
    RemoveAsWrittenShape(l);
    RemoveAsWrittenIndex(l);
  }

  /** Removal with the clamped index keeps the invariant. */
  lemma RemoveSongValid(l: Library)
    requires Valid(l)
    ensures Valid(RemoveSong(l))
  {
    var k := FirstSelected(l.entries);
    if k >= 0 {
      var w := RemoveSongAsWritten(l);
      RemoveAsWrittenShape(l);
      RemoveAsWrittenIndex(l);
      assert RemoveSong(l) == ClampIndex(w);
      assert |w.songs| == |l.songs| - 1;
      assert w.currentIndex == RepairedIndex(l.currentIndex, k, |l.songs| - 1, RemovesLoaded(l, k));
    }
  }

  /** Removing the loaded song stops and unloads it. */
  lemma RemoveLoadedUnloads(l: Library)
    requires Valid(l)
    requires RemovesLoaded(l, FirstSelected(l.entries))
    ensures var r := RemoveSong(l);
      && r.currentSong == "" && !r.playing && !r.paused
      && !r.hasError && !r.isLoading && !r.generating
      && r.peaks.None? && r.samples.None? && r.sampleRate.None? && r.songLength == 0.0
  {
  }

  /** Removing any other entry leaves playback alone and, while songs
      remain, highlights the entry at the new current index. */
  lemma RemoveOtherKeepsPlayback(l: Library)
    requires Valid(l)
    requires FirstSelected(l.entries) >= 0 && !RemovesLoaded(l, FirstSelected(l.entries))
    requires |l.songs| > 1
    ensures var r := RemoveSong(l);
      && r.currentSong == l.currentSong && r.playing == l.playing && r.paused == l.paused
      && FirstSelected(r.entries) == r.currentIndex
  {
    var k := FirstSelected(l.entries);
    var songs := RemoveAt(l.songs, k);
    var es := ReindexFrom(RemoveAt(l.entries, k), k);
    var i := RepairedIndex(l.currentIndex, k, |songs|, false);
    var b := l.(songs := songs, entries := es, currentIndex := i);
    assert Min(i, |es| - 1) == i;
    var w := SelectSong(b, i);
    assert RemoveSongAsWritten(l) == w;
    assert ClampIndex(w) == w;
    assert w.entries[i].selected;
  }

  /** The two index rules differ only in the current index. */
  lemma RemoveRulesAgreeElsewhere(l: Library)
    ensures RemoveSongAsWritten(l) == RemoveSong(l).(currentIndex := RemoveSongAsWritten(l).currentIndex)
  {
    var w := RemoveSongAsWritten(l);
    if FirstSelected(l.entries) >= 0 {
      assert RemoveSong(l) == ClampIndex(w);
      assert ClampIndex(w) == w.(currentIndex := ClampIndex(w).currentIndex);
    }
  }

  /** The indices differ exactly when the loaded song is removed from the
      last position of a list that keeps other songs. */
  lemma RemoveRulesDiffer(l: Library)
    requires Valid(l)
    ensures RemoveSongAsWritten(l).currentIndex != RemoveSong(l).currentIndex <==>
      var k := FirstSelected(l.entries);
      k >= 0 && RemovesLoaded(l, k) && k == |l.songs| - 1 && |l.songs| > 1
  {
    var k := FirstSelected(l.entries);
    if k >= 0 {
      var w := RemoveSongAsWritten(l);
      RemoveAsWrittenLists(l);
      RemoveAsWrittenIndex(l);
      assert RemoveSong(l) == ClampIndex(w);
      assert |w.songs| == |l.songs| - 1;
      assert w.currentIndex == RepairedIndex(l.currentIndex, k, |l.songs| - 1, RemovesLoaded(l, k));
    }
  }

  /** The source's rule leaves the index past the end: with songs a, b, the
      second one loaded and highlighted, removing it leaves index 1 in a
      one-song list, where the clamped rule gives index 0. */
  lemma RemoveSongAsWrittenCounterexample()
    ensures var l := Init().(songs := ["a", "b"], entries := [Entry(false, 0), Entry(true, 1)],
                             currentIndex := 1, currentSong := "b", playing := true);
      && Valid(l)
      && RemoveSongAsWritten(l).songs == ["a"]
      && RemoveSongAsWritten(l).currentIndex == 1
      && !Valid(RemoveSongAsWritten(l))
      && RemoveSong(l).currentIndex == 0
      && Valid(RemoveSong(l))
  {
    var l := Init().(songs := ["a", "b"], entries := [Entry(false, 0), Entry(true, 1)],
                     currentIndex := 1, currentSong := "b", playing := true);
    assert FirstSelected(l.entries) == 1 by {
      assert !l.entries[0].selected && l.entries[1].selected;
    }
    assert RemoveAt(l.songs, 1) == ["a"];
    RemoveSongValid(l);
  }
}
