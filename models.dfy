/**
 * The song record and the list model that backs the song list view
 * (models.py). Qt's row-insertion notifications carry no state of their own
 * and are not modelled.
 */
module Models {
  import opened Optional
  import Format
  import PosixPath

  type Bytes = seq<bv8>

  const UnknownArtist: string := "Unknown Artist"
  const UnknownAlbum: string := "Unknown Album"

  /** One audio file of the library; its fields never change after construction. */
  datatype Song = Song(
    filePath: string,
    title: string,
    artist: string,
    album: string,
    durationSeconds: nat,
    albumArtBytes: Option<Bytes>)
  {
    /** `get_duration_string`: whole minutes and the remaining seconds, each as a `02d` field. */
    function DurationString(): (s: string)
      ensures Format.ParseClock(s) == Some((durationSeconds / 60, durationSeconds % 60))
    {
      Format.ClockRoundTrip(durationSeconds / 60, durationSeconds % 60);
      Format.Clock(durationSeconds / 60, durationSeconds % 60)
    }
  }

  /** Python truthiness of an optional string: present and non-empty. */
  predicate Given(s: Option<string>) { s.Some? && s.value != [] }

  /** `value if value else default`. */
  function OrDefault(s: Option<string>, default: string): string
  {
    if Given(s) then s.value else default
  }

  /**
   * `Song.__init__`: an absent or empty title becomes the file's base name,
   * an absent or empty artist or album the fixed placeholder; every other
   * argument is stored as it is.
   */
  function NewSong(
    filePath: string, title: Option<string>, artist: Option<string>,
    album: Option<string>, durationSeconds: nat, albumArtBytes: Option<Bytes>): (song: Song)
    ensures song.filePath == filePath
    ensures song.durationSeconds == durationSeconds && song.albumArtBytes == albumArtBytes
    ensures Given(title) ==> song.title == title.value
    ensures !Given(title) ==> song.title == PosixPath.Basename(filePath)
    ensures Given(artist) ==> song.artist == artist.value
    ensures !Given(artist) ==> song.artist == UnknownArtist
    ensures Given(album) ==> song.album == album.value
    ensures !Given(album) ==> song.album == UnknownAlbum
    ensures song.artist != [] && song.album != []
  {
    Song(filePath,
         OrDefault(title, PosixPath.Basename(filePath)),
         OrDefault(artist, UnknownArtist),
         OrDefault(album, UnknownAlbum),
         durationSeconds,
         albumArtBytes)
  }

  /** A song built from a file name joined onto its directory, without a title tag, is titled by that file name. */
  lemma UntitledSongShowsFileName(root: string, name: string, artist: Option<string>,
                                  album: Option<string>, d: nat, art: Option<Bytes>)
    requires '/' !in name
    ensures NewSong(PosixPath.Join(root, name), None, artist, album, d, art).title == name
    ensures NewSong(PosixPath.Join(root, name), Some(""), artist, album, d, art).title == name
  {
    PosixPath.BasenameOfJoin(root, name);
  }

  /** The duration text reads back as minutes and seconds below sixty that recombine to the duration. */
  lemma DurationStringRoundTrip(song: Song)
    ensures var p := Format.ParseClock(song.DurationString());
      p.Some? && p.value.1 < 60 && p.value.0 * 60 + p.value.1 == song.durationSeconds
  {
  }

  /** A `QModelIndex` as far as this model uses it: invalid, or valid for a row. */
  datatype ModelIndex = Invalid | At(row: nat)
  {
    predicate IsValid() { At? }

    /** `index.row()`: Qt reports -1 for an invalid index. */
    function Row(): int { if At? then row else -1 }
  }

  /** `SongListModel`: the ordered songs behind the song list view. */
  class SongListModel {
    var songs: seq<Song>

    /** `songs if songs is not None else []`. */
    constructor (initial: Option<seq<Song>>)
      ensures initial.Some? ==> songs == initial.value
      ensures initial.None? ==> songs == []
    {
      songs := if initial.Some? then initial.value else [];
    }

    /** `rowCount`: one row per stored song. */
    function RowCount(): nat
      reads this
    {
      |songs|
    }

    /** `add_song`: the song becomes the new last row; the rows before it stay as they were. */
    method AddSong(song: Song)
      modifies this
      ensures songs == old(songs) + [song]
      ensures RowCount() == old(RowCount()) + 1 && songs[RowCount() - 1] == song
    {
      songs := songs + [song];
    }

    /** `get_song_at_index`: the song in that row when the index is valid and in range, `None` otherwise. */
    function GetSongAtIndex(index: ModelIndex): (r: Option<Song>)
      reads this
      ensures r.Some? <==> index.IsValid() && 0 <= index.Row() < RowCount()
      ensures r.Some? ==> r.value == songs[index.Row()]
    {
      if index.IsValid() && 0 <= index.Row() < |songs| then Some(songs[index.Row()]) else None
    }
  }
}
