/**
 * What a scan of a music directory produces (main.py, `scan_music_directory`
 * and the metadata it is fed). The directory walk is an input: the sequence
 * of (directory, file names) steps `os.walk` yields, in its order. The tag
 * reader is an input too: a function from a file path to the optional fields
 * it found.
 */
module Library {
  import opened Optional
  import opened Models
  import PosixPath

  /** One step of `os.walk`: a directory and the names of the files directly in it. */
  datatype WalkEntry = WalkEntry(root: string, files: seq<string>)

  /** What `read_metadata` returns for one file. */
  datatype Metadata = Metadata(
    title: Option<string>,
    artist: Option<string>,
    album: Option<string>,
    durationSeconds: nat,
    albumArtBytes: Option<Bytes>)

  /** What `read_metadata` returns when the tag library cannot read the file or raises. */
  const NoMetadata: Metadata := Metadata(None, None, None, 0, None)

  const SupportedExtensions: seq<string> := [".mp3", ".flac", ".ogg", ".wav"]

  function LowerChar(c: char): char
  {
    if 'A' <= c <= 'Z' then (c as int - 'A' as int + 'a' as int) as char else c
  }

  /** `str.lower`, for the ASCII letters. */
  function ToLower(s: string): (r: string)
    ensures |r| == |s|
    ensures forall i :: 0 <= i < |s| ==> r[i] == LowerChar(s[i])
  {
    seq(|s|, i requires 0 <= i < |s| => LowerChar(s[i]))
  }

  predicate EndsWith(s: string, suffix: string)
  {
    |suffix| <= |s| && s[|s| - |suffix|..] == suffix
  }

  /** `s.endswith(suffixes)` for a tuple of suffixes: any one of them. */
  predicate EndsWithAny(s: string, suffixes: seq<string>)
    ensures EndsWithAny(s, suffixes) ==> exists k :: 0 <= k < |suffixes| && EndsWith(s, suffixes[k])
  {
    suffixes != [] && (EndsWith(s, suffixes[0]) || EndsWithAny(s, suffixes[1..]))
  }

  /** `name.lower().endswith(('.mp3', '.flac', '.ogg', '.wav'))`. */
  predicate IsSupported(name: string)
    ensures IsSupported(name) ==> |name| >= 4
  {
    EndsWithAny(ToLower(name), SupportedExtensions)
  }

  /** The song recorded for one matching file: its tags read, then the defaults of `Song` applied. */
  function SongFor(path: string, readMetadata: string -> Metadata): (song: Song)
    ensures song.filePath == path
    ensures song.durationSeconds == readMetadata(path).durationSeconds
    ensures song.albumArtBytes == readMetadata(path).albumArtBytes
  {
    var m := readMetadata(path);
    NewSong(path, m.title, m.artist, m.album, m.durationSeconds, m.albumArtBytes)
  }

  /** The (directory, file name) pairs of one walk step, in listing order. */
  function Pairs(root: string, files: seq<string>): (ps: seq<(string, string)>)
    ensures |ps| == |files|
    ensures forall j :: 0 <= j < |files| ==> ps[j] == (root, files[j])
  {
    seq(|files|, j requires 0 <= j < |files| => (root, files[j]))
  }

  /** Every file of the walk as a (directory, file name) pair, in walk order. */
  function Entries(walk: seq<WalkEntry>): seq<(string, string)>
  {
    if walk == [] then []
    else Entries(walk[..|walk| - 1]) + Pairs(walk[|walk| - 1].root, walk[|walk| - 1].files)
  }

  /** The entries whose file name has a supported extension, in their original order. */
  function Matching(entries: seq<(string, string)>): seq<(string, string)>
  {
    if entries == [] then []
    else
      var last := entries[|entries| - 1];
      Matching(entries[..|entries| - 1]) + (if IsSupported(last.1) then [last] else [])
  }

  /** One song per entry, in the same order. */
  function SongsFor(entries: seq<(string, string)>, readMetadata: string -> Metadata): (songs: seq<Song>)
    ensures |songs| == |entries|
    ensures forall k :: 0 <= k < |entries| ==>
      songs[k] == SongFor(PosixPath.Join(entries[k].0, entries[k].1), readMetadata)
  {
    seq(|entries|, k requires 0 <= k < |entries| =>
      SongFor(PosixPath.Join(entries[k].0, entries[k].1), readMetadata))
  }

  /** The library a scan of `walk` builds: one song per supported file, in walk order. */
  function LibraryOf(walk: seq<WalkEntry>, readMetadata: string -> Metadata): (songs: seq<Song>)
    ensures |songs| == |Matching(Entries(walk))| <= |Entries(walk)|
    ensures forall k :: 0 <= k < |songs| ==>
      IsSupported(Matching(Entries(walk))[k].1)
      && songs[k].filePath == PosixPath.Join(Matching(Entries(walk))[k].0, Matching(Entries(walk))[k].1)
  {
    MatchingShrinks(Entries(walk));
    MatchingKeepsSupported(Entries(walk));
    SongsFor(Matching(Entries(walk)), readMetadata)
  }

  /** Every kept entry has a supported name. */
  lemma {:induction false} MatchingKeepsSupported(entries: seq<(string, string)>)
    ensures forall k :: 0 <= k < |Matching(entries)| ==> IsSupported(Matching(entries)[k].1)
  {
    if entries != [] {
      MatchingKeepsSupported(entries[..|entries| - 1]);
    }
  }

  /** Exactly the supported entries are kept: both directions of membership. */
  lemma {:induction false} MatchingMembers(entries: seq<(string, string)>, e: (string, string))
    ensures e in Matching(entries) <==> e in entries && IsSupported(e.1)
  {
    if entries != [] {
      var init, last := entries[..|entries| - 1], entries[|entries| - 1];
      assert entries == init + [last];
      MatchingMembers(init, e);
    }
  }

  /** No entry is invented: the kept entries never outnumber the walked ones. */
  lemma {:induction false} MatchingShrinks(entries: seq<(string, string)>)
    ensures |Matching(entries)| <= |entries|
  {
    if entries != [] {
      MatchingShrinks(entries[..|entries| - 1]);
    }
  }

  /** A file is in the walk exactly when some step lists it. */
  lemma {:induction false} EntriesMembers(walk: seq<WalkEntry>, root: string, name: string)
    ensures (root, name) in Entries(walk) <==>
      exists i :: 0 <= i < |walk| && walk[i].root == root && name in walk[i].files
  {
    if walk != [] {
      var init, last := walk[..|walk| - 1], walk[|walk| - 1];
      EntriesMembers(init, root, name);
      var ps := Pairs(last.root, last.files);
      assert (root, name) in ps <==> last.root == root && name in last.files by {
        if (root, name) in ps {
          var j :| 0 <= j < |ps| && ps[j] == (root, name);
        }
        if last.root == root && name in last.files {
          var j :| 0 <= j < |last.files| && last.files[j] == name;
          assert ps[j] == (root, name);
        }
      }
      if exists i :: 0 <= i < |walk| && walk[i].root == root && name in walk[i].files {
        var i :| 0 <= i < |walk| && walk[i].root == root && name in walk[i].files;
        if i < |init| { assert init[i] == walk[i]; }
      }
      if exists i :: 0 <= i < |init| && init[i].root == root && name in init[i].files {
        var i :| 0 <= i < |init| && init[i].root == root && name in init[i].files;
        assert walk[i] == init[i];
      }
    }
  }

  /** Walking one more step appends that step's entries. */
  lemma EntriesSnoc(walk: seq<WalkEntry>, i: nat)
    requires i < |walk|
    ensures Entries(walk[..i + 1]) == Entries(walk[..i]) + Pairs(walk[i].root, walk[i].files)
  {
    assert walk[..i + 1][..i] == walk[..i];
  }

  /** Listing one more file of a step appends one pair. */
  lemma PairsSnoc(root: string, files: seq<string>, j: nat)
    requires j < |files|
    ensures Pairs(root, files[..j + 1]) == Pairs(root, files[..j]) + [(root, files[j])]
  {
  }

  /** Filtering one more entry keeps it exactly when its name is supported. */
  lemma MatchingSnoc(entries: seq<(string, string)>, e: (string, string))
    ensures Matching(entries + [e]) == Matching(entries) + (if IsSupported(e.1) then [e] else [])
  {
    assert (entries + [e])[..|entries|] == entries;
  }

  /** Songs for one more entry append one song. */
  lemma SongsForSnoc(entries: seq<(string, string)>, e: (string, string), readMetadata: string -> Metadata)
    ensures SongsFor(entries + [e], readMetadata)
         == SongsFor(entries, readMetadata) + [SongFor(PosixPath.Join(e.0, e.1), readMetadata)]
  {
    var a := SongsFor(entries + [e], readMetadata);
    var b := SongsFor(entries, readMetadata) + [SongFor(PosixPath.Join(e.0, e.1), readMetadata)];
    forall k | 0 <= k < |a| ensures a[k] == b[k] {
      if k < |entries| { assert (entries + [e])[k] == entries[k]; }
    }
  }

  /** Every file name a walk lists has no '/' in it, as `os.walk` guarantees. */
  ghost predicate PlainNames(walk: seq<WalkEntry>)
  {
    forall i, j :: 0 <= i < |walk| && 0 <= j < |walk[i].files| ==> '/' !in walk[i].files[j]
  }

  /**
   * Every song of a scanned library comes from a supported file the walk
   * lists, is stored under that file's joined path, and, for plain file
   * names, shows no empty title, artist or album.
   */
  lemma LibrarySongsComeFromSupportedFiles(walk: seq<WalkEntry>, readMetadata: string -> Metadata, k: nat)
    requires k < |LibraryOf(walk, readMetadata)|
    ensures var e := Matching(Entries(walk))[k];
      var song := LibraryOf(walk, readMetadata)[k];
      && IsSupported(e.1)
      && (exists i :: 0 <= i < |walk| && walk[i].root == e.0 && e.1 in walk[i].files)
      && song == SongFor(PosixPath.Join(e.0, e.1), readMetadata)
      && (PlainNames(walk) ==> song.title != [] && song.artist != [] && song.album != [])
  {
    var e := Matching(Entries(walk))[k];
    MatchingMembers(Entries(walk), e);
    EntriesMembers(walk, e.0, e.1);
    var song := LibraryOf(walk, readMetadata)[k];
    if PlainNames(walk) {
      var i :| 0 <= i < |walk| && walk[i].root == e.0 && e.1 in walk[i].files;
      var j :| 0 <= j < |walk[i].files| && walk[i].files[j] == e.1;
      assert '/' !in e.1;
      PosixPath.BasenameOfJoin(e.0, e.1);
    }
  }

  /** Matching ignores case: a name and its lower-case form are both supported or both not. */
  lemma SupportIgnoresCase(name: string)
    ensures IsSupported(name) <==> IsSupported(ToLower(name))
  {
    assert ToLower(ToLower(name)) == ToLower(name);
  }

  /** The extension set, spelled out. */
  lemma SupportedExactly(name: string)
    ensures IsSupported(name) <==>
      EndsWith(ToLower(name), ".mp3") || EndsWith(ToLower(name), ".flac")
      || EndsWith(ToLower(name), ".ogg") || EndsWith(ToLower(name), ".wav")
  {
    var lower, exts := ToLower(name), SupportedExtensions;
    assert exts[1..][1..][1..][1..] == [];
    assert EndsWithAny(lower, exts) <==> EndsWith(lower, exts[0]) || EndsWithAny(lower, exts[1..]);
    assert EndsWithAny(lower, exts[1..]) <==> EndsWith(lower, exts[1]) || EndsWithAny(lower, exts[1..][1..]);
    assert EndsWithAny(lower, exts[1..][1..]) <==> EndsWith(lower, exts[2]) || EndsWithAny(lower, exts[1..][1..][1..]);
    assert EndsWithAny(lower, exts[1..][1..][1..]) <==> EndsWith(lower, exts[3]);
  }

  /** Upper-case extensions are recognised too. */
  lemma UpperCaseExtensionSupported()
    ensures IsSupported("Track.MP3")
  {
    assert ToLower("Track.MP3") == "track.mp3";
    assert EndsWith("track.mp3", SupportedExtensions[0]);
  }

  /** A walk of one directory holding one supported file yields a one-song library. */
  lemma SingleFileLibrary(root: string, name: string, readMetadata: string -> Metadata)
    requires IsSupported(name)
    ensures LibraryOf([WalkEntry(root, [name])], readMetadata)
         == [SongFor(PosixPath.Join(root, name), readMetadata)]
  {
    var walk := [WalkEntry(root, [name])];
    assert walk[..0] == [];
    assert Entries(walk) == [(root, name)];
    MatchingSnoc([], (root, name));
    assert [] + [(root, name)] == [(root, name)];
  }

  /** An unreadable file is listed under its file name with every default in place. */
  lemma UnreadableFileDefaults(root: string, name: string)
    requires '/' !in name
    ensures var song := SongFor(PosixPath.Join(root, name), _ => NoMetadata);
      && song.filePath == PosixPath.Join(root, name)
      && song.title == name && song.artist == UnknownArtist && song.album == UnknownAlbum
      && song.durationSeconds == 0 && song.albumArtBytes == None
  {
    PosixPath.BasenameOfJoin(root, name);
  }
}
