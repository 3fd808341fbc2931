# A verified model of a desktop music player's library scan and playback sequencer

The player (PyQt, `main.py` and `models.py`) scans a directory tree for audio
files, turns each into a `Song` record, shows them in a list, and drives a
media player through play, pause, stop, next and previous, moving on to the
next song whenever the media player reports that it stopped. This project
models the parts of that program that do not depend on the widgets:

- `optional.dfy`: `Option`, for Python's `None`.
- `format.dfy` (module `Format`): Python's `f"{n:02d}"` field, the
  "minutes:seconds" clock text both time formatters produce, and a parser of
  that text, which is the formatters' inverse.
- `posix_path.dfy` (module `PosixPath`): `os.path.basename` and the
  two-argument `os.path.join`.
- `models.dfy` (module `Models`, models.py): the `Song` record with its
  defaults and duration text; `SongListModel` as a class whose `songs` field
  is the list the Qt model wraps.
- `library.dfy` (module `Library`, the scan part of main.py): what a scan
  produces, as functions of the directory walk and of the tag reader; the
  case-insensitive extension filter.
- `player.dfy` (module `Player`, the rest of main.py): the media player as a
  black box (`MediaPlayer`: the state it reports and the log of commands it
  received), wrap-around next/previous arithmetic, `format_time`, and the
  `MusicPlayer` class with the fields `currentSongIndex` and
  `playlistSongs`, the scan loop and every playback operation.

Inputs that cannot be seen are parameters. The directory walk is a
`seq<WalkEntry>`: the (directory, file names) steps `os.walk` yields, in its
order. The tag reader is a function `string -> Metadata` from a file path to
the optional title, artist and album, the duration and the cover art.
Qt's signal connections become explicit calls: a report from the media
player that its state changed is a call of
`MusicPlayer.HandlePlaybackStateChanged`.

Python's `//` and `%` round toward minus infinity. For a positive divisor
this is exactly Dafny's Euclidean `/` and `%`, so `(index - 1) % n` is
written as it stands and is proved to land in `[0, n)` for every index,
including -1 and indexes left stale by a rescan.

The `MusicPlayer` methods do not assume that the current index lies in the
playlist. Only `PlayCurrentSong`'s own range test protects playback. The
predicates `IndexValid` (the index is -1 or names a song) and `Consistent`
(the media player is stopped unless the index names a song) are proved
as follows: `PlaySelectedSong`, `PlayCurrentSong` and `StopSong` establish
`Consistent` whatever the state before; `PlayPreviousSong`, `PlayNextSong`
and `HandlePlaybackStateChanged` keep `Consistent`; `PlayPauseSong` keeps
`IndexValid` and `Consistent` together; `ScanMusicDirectory` keeps neither
(`Player.StaleIndexAfterRescan`). `Started(k, before)` says that song
`k` is current and that the media player received its file followed by
`play`.

## Behaviour worth knowing

- `scan_music_directory` clears both song lists but leaves
  `current_song_index` and the media player as they were (main.py:124-127).
  The player can therefore keep playing with an index outside an empty
  playlist: `Player.StaleIndexAfterRescan` builds such a state.
- `play_current_song` accepts any index and issues `stop` when the index
  names no song (main.py:185-197); `play_selected_song` passes it any row,
  -1 for an invalid index (main.py:181-183).
- The comment at main.py:256 says auto-play happens when the current song
  finishes. In fact any Stopped report with a selected song and a non-empty
  playlist runs "Next" (main.py:255-258), including the report that a
  user's Stop causes: `Player.StopThenReportPlaysNext` shows Stop followed by
  that report starting the next song.

## Model

| member | source | states |
|---|---|---|
| `Format.Pad2` | main.py:252 | the `02d` field is at least two characters wide, all digits for a non-negative number, with no leading zero from 10 up, and a minus sign followed by a non-zero digit for a negative number; its read-back is `Format.Pad2RoundTrip`, its negative form `Format.Pad2Negative` |
| `Format.Clock` | models.py:17 | the "minutes:seconds" text is the two `02d` fields joined by a single ':'; its inverse is `Format.ParseClock`, proved in `Format.ClockRoundTrip` |
| `PosixPath.Join` | main.py:134 | an absolute name is the whole result; otherwise the joined path is the directory, then at most one inserted '/' (none when the directory is empty or already ends in '/'), then the file name; `PosixPath.BasenameOfJoin` recovers the name |
| `Models.Song.DurationString` | models.py:14-17 | the duration text parses back to `d div 60` minutes and `d mod 60` seconds; `Models.DurationStringRoundTrip` recombines them to `d` |
| `Library.IsSupported` | main.py:129-133 | every accepted name is at least four characters long; the extension set is spelled out in `Library.SupportedExactly`, case-insensitivity in `Library.SupportIgnoresCase` |
| `Library.SongFor` | main.py:134-136 | the song of a file is stored under its path with the duration and cover art the tag reader gives; the title, artist and album defaults are those of `Models.NewSong` |
| `Library.LibraryOf` | main.py:131-137 | a scan's library has one song per kept (directory, name) pair of the walk, in walk order, never more than the walk lists; the name of each is supported and the song is stored under its joined path; membership both ways is in `Library.MatchingMembers` and `Library.EntriesMembers` |
| `Player.FormatTime` | main.py:248-252 | the position text always ends in ':' and two digits; the fields it shows are proved in `Player.FormatTimeRoundTrip` and `Player.FormatTimeSeconds` |
| `Format.Pad2RoundTrip` | main.py:252 | a `02d` field of a non-negative number is all digits, exactly two wide below 10 (one padding zero) and otherwise the number's digits with no leading zero, and reads back as the number |
| `Format.Pad2Negative` | main.py:252 | a `02d` field of a negative number is a minus sign followed by exactly the digits of its magnitude, with no leading zero |
| `Format.ClockRoundTrip` | models.py:17 | the "MM:SS" text of two non-negative fields (seconds below 100) parses back to exactly those two fields |
| `Format.ClockSecondsField` | main.py:252 | whatever the minutes field, the clock text ends in ':' and two digits that denote the seconds field |
| `PosixPath.Basename` | models.py:8 | the base name is the slash-free suffix of the path that starts right after its last '/' (or at its start) |
| `PosixPath.BasenameOfJoin` | main.py:134 | joining a slash-free file name onto any directory gives a path whose base name is that file name |
| `Models.NewSong` | models.py:6-12 | path, duration and cover art are stored as given; a missing or empty title becomes the base name, a missing or empty artist/album "Unknown Artist"/"Unknown Album"; given non-empty values are kept verbatim; artist and album are never empty |
| `Models.UntitledSongShowsFileName` | models.py:8 | a song of a scanned file without a title tag (absent or empty) is titled by its file name |
| `Models.DurationStringRoundTrip` | models.py:14-17 | the duration text parses back to a seconds field below 60 and a minutes field that recombine to `d` |
| `Models.SongListModel.constructor` | models.py:20-22 | the model starts with the given song list, or empty when none is given |
| `Models.SongListModel.AddSong` | models.py:42-45 | the song becomes the new last row, `RowCount` (models.py:39-40) grows by exactly one, and earlier rows are unchanged |
| `Models.SongListModel.GetSongAtIndex` | models.py:47-50 | a song is returned exactly when the index is valid and its row lies in `[0, rowCount)`, and it is the song in that row; otherwise `None` |
| `Library.SupportedExactly` | main.py:129-133 | a file name is accepted exactly when its lower-cased form ends in `.mp3`, `.flac`, `.ogg` or `.wav` |
| `Library.SupportIgnoresCase` | main.py:133 | a name and its lower-cased form are accepted alike |
| `Library.UpperCaseExtensionSupported` | main.py:133 | an upper-case extension such as `.MP3` is accepted |
| `Library.MatchingKeepsSupported` | main.py:133-138 | every entry the filter keeps has a supported name |
| `Library.MatchingMembers` | main.py:132-133 | an entry is kept by the filter exactly when the walk lists it and its name is accepted |
| `Library.MatchingShrinks` | main.py:132-133 | the filter never yields more entries than the walk lists |
| `Library.EntriesMembers` | main.py:131-132 | a (directory, name) pair is walked exactly when some walk step lists that name under that directory |
| `Library.LibrarySongsComeFromSupportedFiles` | main.py:131-137 | song `k` of a scan comes from the `k`-th accepted file of the walk, which some walk step lists, and is built from that file's joined path and its tags; for slash-free names its title, artist and album are non-empty |
| `Library.SingleFileLibrary` | main.py:124-138 | a walk of one directory with one accepted file yields a library of exactly that one song |
| `Library.UnreadableFileDefaults` | main.py:145-155 | a file the tag reader cannot read is listed under its joined path, titled by its file name, with "Unknown Artist", "Unknown Album", duration 0 and no cover art |
| `Player.NextIndex` | main.py:230 | the next index lies in `[0, n)` and is congruent to `index + 1` modulo `n`; from a valid row it is the following row, or row 0 after the last |
| `Player.PreviousIndex` | main.py:225 | the previous index lies in `[0, n)` and is congruent to `index - 1` modulo `n`; from a valid row it is the preceding row, or the last after row 0; from -1 it is `n - 2` (0 when `n` is 1) |
| `Player.PreviousUndoesNext` | main.py:223-231 | for every row `i` of a non-empty playlist, previous after next returns to `i` |
| `Player.NextUndoesPrevious` | main.py:223-231 | for every row `i` of a non-empty playlist, next after previous returns to `i` |
| `Player.SingleSongWraps` | main.py:223-231 | on a one-song playlist next and previous both land on row 0, from any index |
| `Player.DivDiv` | main.py:249-250 | taking whole seconds and then whole minutes is the same as taking whole minutes of the milliseconds |
| `Player.FormatTimeRoundTrip` | main.py:248-252 | for `ms >= 0` the position text parses back to `ms div 60000` minutes and `(ms div 1000) mod 60` seconds, each field at least two digits |
| `Player.FormatTimeSeconds` | main.py:248-252 | for every position, negative included, the seconds field is two digits below 60 after a ':' |
| `Player.MusicPlayer.constructor` | main.py:21-36 | a new window has no song selected, a stopped media player with no commands, and the playlist and list model both holding the library of the start-up scan |
| `Player.MusicPlayer.ScanMusicDirectory` | main.py:124-138 | after a scan the playlist is exactly the library of the walk (earlier contents discarded), the list model holds the same songs in the same order, and the index and media player are untouched |
| `Player.MusicPlayer.PlaySelectedSong` | main.py:181-183 | the clicked row becomes the index; it is started if it names a song, otherwise `stop` is issued |
| `Player.MusicPlayer.PlayCurrentSong` | main.py:185-197 | within range the current song's file is set as the source and `play` issued; otherwise only `stop`; the index never changes and afterwards the media player plays only an in-range index |
| `Player.MusicPlayer.PlayPauseSong` | main.py:199-213 | playing: `pause`; paused: `play`; stopped with a selection: `play`; stopped without one: song 0 is started on a non-empty playlist and nothing happens on an empty one; both invariants are kept |
| `Player.MusicPlayer.StopSong` | main.py:215-216 | `stop` is issued, the media player is stopped and the index stays |
| `Player.MusicPlayer.PlayPreviousSong` | main.py:223-226 | on a non-empty playlist the previous index (with wrap-around) is started; on an empty one nothing changes |
| `Player.MusicPlayer.PlayNextSong` | main.py:228-231 | on a non-empty playlist the next index (with wrap-around) is started; on an empty one nothing changes |
| `Player.MusicPlayer.HandlePlaybackStateChanged` | main.py:254-262 | a stopped report with a selected song and a non-empty playlist starts the next song exactly as "Next" does; any other report changes neither the index nor the media player |
| `Player.StaleIndexAfterRescan` | main.py:124-127 | for any start-up library that is not empty, Play followed by a rescan that finds nothing leaves the media player playing with index 0 outside the now empty playlist |
| `Player.StopThenReportPlaysNext` | main.py:254-258 | Stop at row 1 of 3 followed by the stopped report issues `stop`, then the source and `play` for row 2 |

## Left out

- Widget construction, layout, label and button text, slider updates and the list view's selection (main.py:38-104 and every `setText`, `setValue` and `setCurrentIndex` call): they are display side effects.
- `select_and_scan_music_directory` (main.py:106-122): a file dialog.
- The file system and `os.walk`: the walk is an input sequence.
- `read_metadata` (main.py:144-179): a wrapper around the tag library, whose behaviour cannot be seen; it is the input function `readMetadata`, and only its failure result (`Library.NoMetadata`) is fixed.
- `set_volume`, `set_position`, `update_position`, `update_duration` (main.py:233-246): passthroughs to the audio output, the media player and the slider; the `format_time` they call is modelled.
- `SongListModel.data` (models.py:24-37) and delegates.py: display text and painting for the list view.
- The `layoutChanged` and row-insertion notifications, and the asynchronous delivery of Qt signals: they carry no state; events are explicit calls.
- The console messages printed by the scan and by `read_metadata`.
- `Player.MediaPlayer`: the real media player's behaviour is not visible; the model assumes `play`, `pause` and `stop` move it to the state of that name and that setting a source leaves its state alone, and it never changes state on its own.
- `Models.DurationStringRoundTrip`: durations are whole seconds; the tag library reports fractional seconds, which `get_duration_string` truncates with `int`.
- `Library.SupportedExactly`: lower-casing is modelled for ASCII letters only.
