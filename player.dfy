/**
 * The playback sequencer of the main window (main.py, `MusicPlayer`): the
 * playlist, the current index into it, and the commands it gives the media
 * player. Qt delivers the media player's state changes through a signal;
 * here each delivery is an explicit call of `HandlePlaybackStateChanged`.
 */
module Player {
  import opened Optional
  import Format
  import opened Models
  import opened Library
  import PosixPath

  datatype PlaybackState = Stopped | Playing | Paused

  /** The commands the sequencer gives the media player. */
  datatype Command = SetSource(path: string) | Play | Pause | Stop

  /**
   * The media player as a black box: the state it reports and the log of
   * every command it was given, oldest first. `play`, `pause` and `stop`
   * move it to the state of the same name; choosing a source leaves the
   * state as it was.
   */
  class MediaPlayer {
    var state: PlaybackState
    var log: seq<Command>

    constructor ()
      ensures state == Stopped && log == []
    {
      state, log := Stopped, [];
    }

    method SetSource(path: string)
      modifies this
      ensures log == old(log) + [Command.SetSource(path)] && state == old(state)
    {
      log := log + [Command.SetSource(path)];
    }

    method Play()
      modifies this
      ensures log == old(log) + [Command.Play] && state == Playing
    {
      log, state := log + [Command.Play], Playing;
    }

    method Pause()
      modifies this
      ensures log == old(log) + [Command.Pause] && state == Paused
    {
      log, state := log + [Command.Pause], Paused;
    }

    method Stop()
      modifies this
      ensures log == old(log) + [Command.Stop] && state == Stopped
    {
      log, state := log + [Command.Stop], Stopped;
    }
  }

  /** A non-zero multiple of `n` is at least `n` away from zero. */
  lemma MulAwayFromZero(d: int, n: nat)
    ensures d >= 1 ==> d * n >= n
    ensures d <= -1 ==> d * n + n <= 0
  {
    if d >= 1 {
      assert d * n == (d - 1) * n + n;
      assert (d - 1) * n >= 0;
    } else if d <= -1 {
      assert d * n == -((-d - 1) * n) - n;
      assert (-d - 1) * n >= 0;
    }
  }

  /** Euclidean division by a positive divisor is unique: any quotient and remainder in range are the ones `/` and `%` give. */
  lemma DivModUnique(a: int, n: nat, q: int, r: int)
    requires n > 0 && 0 <= r < n && a == q * n + r
    ensures a / n == q && a % n == r
  {
    var q', r' := a / n, a % n;
    assert a == q' * n + r';
    assert (q - q') * n == r' - r;
    MulAwayFromZero(q - q', n);
  }

  /** `(index + 1) % n` with Python's non-negative remainder: the next row, wrapping from the last to the first. */
  function NextIndex(index: int, n: nat): (r: nat)
    requires n > 0
    ensures r < n
    ensures (r - (index + 1)) % n == 0
    ensures 0 <= index < n ==> r == if index == n - 1 then 0 else index + 1
  {
    var q, r := (index + 1) / n, (index + 1) % n;
    DivModUnique(r - (index + 1), n, -q, 0);
    if 0 <= index < n - 1 then DivModUnique(index + 1, n, 0, index + 1); r
    else if index == n - 1 then DivModUnique(index + 1, n, 1, 0); r
    else r
  }

  /** `(index - 1) % n` with Python's non-negative remainder: the previous row, wrapping from the first to the last. */
  function PreviousIndex(index: int, n: nat): (r: nat)
    requires n > 0
    ensures r < n
    ensures (r - (index - 1)) % n == 0
    ensures 0 <= index < n ==> r == if index == 0 then n - 1 else index - 1
    ensures index == -1 ==> r == if n == 1 then 0 else n - 2
  {
    var q, r := (index - 1) / n, (index - 1) % n;
    DivModUnique(r - (index - 1), n, -q, 0);
    if 0 < index < n then DivModUnique(index - 1, n, 0, index - 1); r
    else if index == 0 then DivModUnique(-1, n, -1, n - 1); r
    else if index == -1 && n == 1 then DivModUnique(-2, n, -2, 0); r
    else if index == -1 then DivModUnique(-2, n, -1, n - 2); r
    else r
  }

  /** Previous undoes next on every row. */
  lemma PreviousUndoesNext(i: int, n: nat)
    requires 0 <= i < n
    ensures PreviousIndex(NextIndex(i, n), n) == i
  {
  }

  /** Next undoes previous on every row. */
  lemma NextUndoesPrevious(i: int, n: nat)
    requires 0 <= i < n
    ensures NextIndex(PreviousIndex(i, n), n) == i
  {
  }

  /** On a one-song playlist both directions land on that song, whatever the index was. */
  lemma SingleSongWraps(i: int)
    ensures NextIndex(i, 1) == 0 && PreviousIndex(i, 1) == 0
  {
  }

  /** `format_time`: a millisecond position as whole minutes and remaining whole seconds, each a `02d` field. */
  function FormatTime(ms: int): (s: string)
    ensures |s| >= 5 && s[|s| - 3] == ':' && Format.AllDigits(s[|s| - 2..])
  {
    var seconds := ms / 1000;
    var minutes := seconds / 60;
    Format.ClockSecondsField(minutes, seconds % 60);
    Format.Clock(minutes, seconds % 60)
  }

  /** Floor division by 1000 and then by 60 is floor division by 60000. */
  lemma DivDiv(ms: int)
    ensures ms / 1000 / 60 == ms / 60000
  {
    var s := ms / 1000;
    var m := s / 60;
    assert ms == 1000 * s + ms % 1000;
    assert s == 60 * m + s % 60;
    assert ms == 60000 * m + (1000 * (s % 60) + ms % 1000);
    assert 0 <= 1000 * (s % 60) + ms % 1000 < 60000;
  }

  /** For a non-negative position the text reads back as `ms div 60000` minutes and `(ms div 1000) mod 60` seconds. */
  lemma FormatTimeRoundTrip(ms: int)
    requires ms >= 0
    ensures Format.ParseClock(FormatTime(ms)) == Some((ms / 60000, (ms / 1000) % 60))
  {
    DivDiv(ms);
    Format.ClockRoundTrip(ms / 60000, (ms / 1000) % 60);
  }

  /** For every position, negative included, the text ends in ':' and two digits below sixty. */
  lemma FormatTimeSeconds(ms: int)
    ensures var s := FormatTime(ms);
      && |s| >= 5 && s[|s| - 3] == ':' && Format.AllDigits(s[|s| - 2..])
      && Format.ParseDigits(s[|s| - 2..]) == (ms / 1000) % 60 < 60
  {
    Format.ClockSecondsField(ms / 1000 / 60, (ms / 1000) % 60);
  }

  /**
   * `MusicPlayer`: the playlist, the index of the current song (-1 for none)
   * and the two collaborators the window owns, the list model shown in the
   * song list and the media player.
   */
  class MusicPlayer {
    var currentSongIndex: int
    var playlistSongs: seq<Song>
    const songListModel: SongListModel
    const mediaPlayer: MediaPlayer

    /** The index names no song or a song of the playlist. */
    ghost predicate IndexValid()
      reads this
    {
      currentSongIndex == -1 || 0 <= currentSongIndex < |playlistSongs|
    }

    /** The media player plays or holds a song only while the index names a song of the playlist. */
    ghost predicate Consistent()
      reads this, mediaPlayer
    {
      mediaPlayer.state != Stopped ==> 0 <= currentSongIndex < |playlistSongs|
    }

    /** The list view shows exactly the playlist. */
    ghost predicate InSync()
      reads this, songListModel
    {
      songListModel.songs == playlistSongs
    }

    /**
     * Song `k` of the playlist is current and was started: its file set as
     * the source and play issued, after the commands of `before`.
     */
    ghost predicate Started(k: int, before: seq<Command>)
      reads this, mediaPlayer
    {
      && 0 <= k < |playlistSongs|
      && currentSongIndex == k
      && mediaPlayer.log == before + [SetSource(playlistSongs[k].filePath), Play]
      && mediaPlayer.state == Playing
    }

    /**
     * `__init__`: no song selected, a fresh list model and media player, and
     * the start-up scan of `walk` (the walk of the default music folder).
     */
    constructor (walk: seq<WalkEntry>, readMetadata: string -> Metadata)
      ensures fresh(songListModel) && fresh(mediaPlayer)
      ensures currentSongIndex == -1
      ensures playlistSongs == LibraryOf(walk, readMetadata) && InSync()
      ensures mediaPlayer.state == Stopped && mediaPlayer.log == []
      ensures IndexValid() && Consistent()
    {
      currentSongIndex := -1;
      playlistSongs := [];
      songListModel := new SongListModel(None);
      mediaPlayer := new MediaPlayer();
      new;
      ScanMusicDirectory(walk, readMetadata);
    }

    /**
     * `scan_music_directory`: both lists are cleared, then every file of the
     * walk whose name has a supported extension is read and appended to
     * both, in walk order. The current index is left as it was.
     */
    method ScanMusicDirectory(walk: seq<WalkEntry>, readMetadata: string -> Metadata)
      modifies this`playlistSongs, songListModel
      ensures playlistSongs == LibraryOf(walk, readMetadata)
      ensures InSync()
    {
      playlistSongs := [];
      songListModel.songs := [];
      for i := 0 to |walk|
        invariant playlistSongs == SongsFor(Matching(Entries(walk[..i])), readMetadata)
        invariant InSync()
      {
        var root, files := walk[i].root, walk[i].files;
        EntriesSnoc(walk, i);
        assert Entries(walk[..i]) + Pairs(root, files[..0]) == Entries(walk[..i]);
        for j := 0 to |files|
          invariant playlistSongs
                 == SongsFor(Matching(Entries(walk[..i]) + Pairs(root, files[..j])), readMetadata)
          invariant InSync()
        {
          var file := files[j];
          PairsSnoc(root, files, j);
          assert Entries(walk[..i]) + Pairs(root, files[..j + 1])
              == (Entries(walk[..i]) + Pairs(root, files[..j])) + [(root, file)];
          MatchingSnoc(Entries(walk[..i]) + Pairs(root, files[..j]), (root, file));
          if IsSupported(file) {
            var filePath := PosixPath.Join(root, file);
            var m := readMetadata(filePath);
            var song := NewSong(filePath, m.title, m.artist, m.album, m.durationSeconds, m.albumArtBytes);
            SongsForSnoc(Matching(Entries(walk[..i]) + Pairs(root, files[..j])), (root, file), readMetadata);
            playlistSongs := playlistSongs + [song];
            songListModel.AddSong(song);
          }
        }
        assert files[..|files|] == files;
      }
      assert walk[..|walk|] == walk;
    }

    /** `play_selected_song`: the clicked row becomes current and is played if it names a song. */
    method PlaySelectedSong(index: ModelIndex)
      modifies this`currentSongIndex, mediaPlayer
      ensures currentSongIndex == index.Row()
      ensures 0 <= index.Row() < |playlistSongs| ==> Started(index.Row(), old(mediaPlayer.log))
      ensures !(0 <= index.Row() < |playlistSongs|) ==>
        mediaPlayer.log == old(mediaPlayer.log) + [Stop] && mediaPlayer.state == Stopped
      ensures Consistent()
    {
      currentSongIndex := index.Row();
      PlayCurrentSong();
    }

    /**
     * `play_current_song`: the current song is loaded and played when the
     * index names one; otherwise playback is stopped. The index is not touched.
     */
    method PlayCurrentSong()
      modifies mediaPlayer
      ensures 0 <= currentSongIndex < |playlistSongs| ==> Started(currentSongIndex, old(mediaPlayer.log))
      ensures !(0 <= currentSongIndex < |playlistSongs|) ==>
        mediaPlayer.log == old(mediaPlayer.log) + [Stop] && mediaPlayer.state == Stopped
      ensures Consistent()
    {
      if 0 <= currentSongIndex < |playlistSongs| {
        var song := playlistSongs[currentSongIndex];
        mediaPlayer.SetSource(song.filePath);
        mediaPlayer.Play();
      } else {
        mediaPlayer.Stop();
      }
    }

    /**
     * `play_pause_song`: pause while playing, resume while paused; when
     * stopped, resume the selected song, or start the first song when none
     * is selected, or do nothing on an empty playlist.
     */
    method PlayPauseSong()
      modifies this`currentSongIndex, mediaPlayer
      ensures old(mediaPlayer.state) == Playing ==>
        currentSongIndex == old(currentSongIndex)
        && mediaPlayer.log == old(mediaPlayer.log) + [Pause] && mediaPlayer.state == Paused
      ensures old(mediaPlayer.state) == Paused ==>
        currentSongIndex == old(currentSongIndex)
        && mediaPlayer.log == old(mediaPlayer.log) + [Play] && mediaPlayer.state == Playing
      ensures old(mediaPlayer.state) == Stopped && old(currentSongIndex) != -1 ==>
        currentSongIndex == old(currentSongIndex)
        && mediaPlayer.log == old(mediaPlayer.log) + [Play] && mediaPlayer.state == Playing
      ensures old(mediaPlayer.state) == Stopped && old(currentSongIndex) == -1 && |playlistSongs| > 0 ==>
        Started(0, old(mediaPlayer.log))
      ensures old(mediaPlayer.state) == Stopped && old(currentSongIndex) == -1 && |playlistSongs| == 0 ==>
        currentSongIndex == -1 && unchanged(mediaPlayer)
      ensures old(IndexValid() && Consistent()) ==> IndexValid() && Consistent()
    {
      if mediaPlayer.state == Playing {
        mediaPlayer.Pause();
      } else if mediaPlayer.state == Paused {
        mediaPlayer.Play();
      } else if mediaPlayer.state == Stopped {
        if currentSongIndex != -1 {
          mediaPlayer.Play();
        } else if |playlistSongs| > 0 {
          currentSongIndex := 0;
          PlayCurrentSong();
        }
      }
    }

    /** `stop_song`: playback is stopped; the index stays. */
    method StopSong()
      modifies mediaPlayer
      ensures mediaPlayer.log == old(mediaPlayer.log) + [Stop] && mediaPlayer.state == Stopped
      ensures Consistent()
    {
      mediaPlayer.Stop();
    }

    /** `play_previous_song`: on a non-empty playlist, step back one row with wrap-around and play it. */
    method PlayPreviousSong()
      modifies this`currentSongIndex, mediaPlayer
      ensures |playlistSongs| > 0 ==>
        Started(PreviousIndex(old(currentSongIndex), |playlistSongs|), old(mediaPlayer.log))
      ensures |playlistSongs| == 0 ==>
        currentSongIndex == old(currentSongIndex) && unchanged(mediaPlayer)
      ensures old(Consistent()) ==> Consistent()
    {
      if |playlistSongs| > 0 {
        currentSongIndex := PreviousIndex(currentSongIndex, |playlistSongs|);
        PlayCurrentSong();
      }
    }

    /** `play_next_song`: on a non-empty playlist, step forward one row with wrap-around and play it. */
    method PlayNextSong()
      modifies this`currentSongIndex, mediaPlayer
      ensures |playlistSongs| > 0 ==>
        Started(NextIndex(old(currentSongIndex), |playlistSongs|), old(mediaPlayer.log))
      ensures |playlistSongs| == 0 ==>
        currentSongIndex == old(currentSongIndex) && unchanged(mediaPlayer)
      ensures old(Consistent()) ==> Consistent()
    {
      if |playlistSongs| > 0 {
        currentSongIndex := NextIndex(currentSongIndex, |playlistSongs|);
        PlayCurrentSong();
      }
    }

    /**
     * `handle_playback_state_changed`: a report that the media player
     * stopped, for whatever reason, advances to the next song exactly as
     * "Next" does when a song is selected and the playlist is not empty;
     * every other report changes nothing here.
     */
    method HandlePlaybackStateChanged(state: PlaybackState)
      modifies this`currentSongIndex, mediaPlayer
      ensures state == Stopped && old(currentSongIndex) != -1 && |playlistSongs| > 0 ==>
        Started(NextIndex(old(currentSongIndex), |playlistSongs|), old(mediaPlayer.log))
      ensures !(state == Stopped && old(currentSongIndex) != -1 && |playlistSongs| > 0) ==>
        currentSongIndex == old(currentSongIndex) && unchanged(mediaPlayer)
      ensures old(Consistent()) ==> Consistent()
    {
      if state == Stopped {
        if currentSongIndex != -1 && |playlistSongs| > 0 {
          PlayNextSong();
        }
      }
    }
  }

  /**
   * Rescanning does not reset the index or the media player: after the
   * first song of a fresh window's playlist was started with Play, a scan
   * that finds nothing leaves the media player playing with an index past
   * the end of the empty playlist.
   */
  method StaleIndexAfterRescan(walk: seq<WalkEntry>, readMetadata: string -> Metadata)
    returns (player: MusicPlayer)
    requires |LibraryOf(walk, readMetadata)| > 0
    ensures player.playlistSongs == [] && player.currentSongIndex == 0
    ensures player.mediaPlayer.state == Playing
    ensures !player.Consistent() && !player.IndexValid()
  {
    player := new MusicPlayer(walk, readMetadata);
    player.PlayPauseSong();
    assert player.currentSongIndex == 0 && player.mediaPlayer.state == Playing;
    assert LibraryOf([], readMetadata) == [];
    player.ScanMusicDirectory([], readMetadata);
  }

  /**
   * Pressing Stop does not end playback for good: the media player's report
   * that it stopped reaches the same handler as the end of a song, which
   * starts the next one (here, with three songs selected at row 1, row 2).
   */
  method StopThenReportPlaysNext(player: MusicPlayer)
    requires |player.playlistSongs| == 3 && player.currentSongIndex == 1
    modifies player`currentSongIndex, player.mediaPlayer
    ensures player.currentSongIndex == 2 && player.mediaPlayer.state == Playing
    ensures player.mediaPlayer.log == old(player.mediaPlayer.log)
      + [Stop, SetSource(player.playlistSongs[2].filePath), Play]
  {
    player.StopSong();
    player.HandlePlaybackStateChanged(Stopped);
  }
}
