/**
 * The music screen: the song list, the playlists that refer to songs by id,
 * the song and playlist forms, and the playlist detail view.
 */
module Music {
  import opened Common
  import opened Entities

  /** The song form. `id` is `None` when the form holds no id key at all (a new song). */
  datatype SongDraft = SongDraft(id: Option<string>, title: string, artist: string, rating: int)

  /** The playlist form. `id` is `None` for a new playlist. */
  datatype PlaylistDraft = PlaylistDraft(id: Option<string>, name: string, songIds: seq<string>, coverImage: Option<string>)

  /** The form opened on a song (a copy of it), or on a new song. */
  function OpenSong(s: Option<Song>): (d: SongDraft)
    ensures s.Some? ==> d.id == Some(s.value.id) && d.title == s.value.title && d.artist == s.value.artist && d.rating == s.value.rating
    ensures s.None? ==> d == SongDraft(None, "", "", 0)
  {
    match s
    case Some(song) => SongDraft(Some(song.id), song.title, song.artist, song.rating)
    case None => SongDraft(None, "", "", 0)
  }

  /** The form opened on a playlist, or on a new, empty playlist. */
  function OpenPlaylist(p: Option<Playlist>): (d: PlaylistDraft)
    ensures p.Some? ==> d.id == Some(p.value.id) && d.name == p.value.name && d.songIds == p.value.songIds && d.coverImage == p.value.coverImage
    ensures p.None? ==> d == PlaylistDraft(None, "", [], None)
  {
    match p
    case Some(pl) => PlaylistDraft(Some(pl.id), pl.name, pl.songIds, pl.coverImage)
    case None => PlaylistDraft(None, "", [], None)
  }

  /**
   * The id a new song or playlist gets from `{ id: fresh, ...draft }`: the
   * draft's own id key wins when present, even though it is then empty.
   */
  function NewId(id: Option<string>, freshId: string): (r: string)
    ensures id.None? ==> r == freshId
    ensures id.Some? ==> r == id.value
  {
    match id
    case Some(v) => v
    case None => freshId
  }

  /** The stored song a form describes, under the given id. */
  function SongOf(d: SongDraft, id: string): (r: Song)
    ensures r.id == id && r.title == d.title && r.artist == d.artist && r.rating == d.rating
  {
    Song(id, d.title, d.artist, d.rating)
  }

  /** The stored playlist a form describes, under the given id. */
  function PlaylistOf(d: PlaylistDraft, id: string): (r: Playlist)
    ensures r.id == id && r.name == d.name && r.songIds == d.songIds && r.coverImage == d.coverImage
  {
    Playlist(id, d.name, d.songIds, d.coverImage)
  }

  /** The form opened on a song describes that same song. */
  lemma SongOfOpenSong(s: Song)
    ensures SongOf(OpenSong(Some(s)), s.id) == s
  {
    var d := OpenSong(Some(s));
    assert d.title == s.title && d.artist == s.artist && d.rating == s.rating;
  }

  /** The form opened on a playlist describes that same playlist. */
  lemma PlaylistOfOpenPlaylist(p: Playlist)
    ensures PlaylistOf(OpenPlaylist(Some(p)), p.id) == p
  {
    var d := OpenPlaylist(Some(p));
    assert d.name == p.name && d.songIds == p.songIds && d.coverImage == p.coverImage;
  }

  /**
   * `handleSaveSong`: nothing without a title and an artist. A form with a
   * (non-empty) id replaces every song with that id and never appends; any
   * other form appends a new song.
   */
  function SaveSong(songs: seq<Song>, d: SongDraft, freshId: string): (r: seq<Song>)
    ensures !(d.title != "" && d.artist != "") ==> r == songs
    ensures d.title != "" && d.artist != "" && Truthy(d.id) ==>
      |r| == |songs| && forall i :: 0 <= i < |songs| ==> r[i] == (if songs[i].id == d.id.value then SongOf(d, d.id.value) else songs[i])
    ensures d.title != "" && d.artist != "" && !Truthy(d.id) ==> r == songs + [SongOf(d, NewId(d.id, freshId))]
    ensures forall i :: 0 <= i < |songs| ==> songs[i].id == r[i].id
  {
    if d.title != "" && d.artist != "" then
      if Truthy(d.id) then ReplaceByKey(songs, SongId, SongOf(d, d.id.value))
      else songs + [SongOf(d, NewId(d.id, freshId))]
    else songs
  }

  /** `handleSavePlaylist`: nothing without a name; a form with an id replaces by id, any other appends. */
  function SavePlaylist(playlists: seq<Playlist>, d: PlaylistDraft, freshId: string): (r: seq<Playlist>)
    ensures d.name == "" ==> r == playlists
    ensures d.name != "" && Truthy(d.id) ==>
      |r| == |playlists| && forall i :: 0 <= i < |playlists| ==> r[i] == (if playlists[i].id == d.id.value then PlaylistOf(d, d.id.value) else playlists[i])
    ensures d.name != "" && !Truthy(d.id) ==> r == playlists + [PlaylistOf(d, NewId(d.id, freshId))]
  {
    if d.name != "" then
      if Truthy(d.id) then ReplaceByKey(playlists, PlaylistId, PlaylistOf(d, d.id.value))
      else playlists + [PlaylistOf(d, NewId(d.id, freshId))]
    else playlists
  }

  /** Every playlist with the song id removed from its `songIds`, everything else kept. */
  function StripSong(playlists: seq<Playlist>, id: string): (r: seq<Playlist>)
    ensures |r| == |playlists|
    ensures forall i :: 0 <= i < |playlists| ==>
      && r[i].id == playlists[i].id && r[i].name == playlists[i].name && r[i].coverImage == playlists[i].coverImage
      && id !in r[i].songIds
      && (forall x :: x != id ==> (x in r[i].songIds <==> x in playlists[i].songIds))
  {
    if playlists == [] then []
    else
      var p := playlists[0];
      [p.(songIds := Without(p.songIds, id))] + StripSong(playlists[1..], id)
  }

  /** The songs and the playlists, which the song deletion changes together. */
  datatype Library = Library(songs: seq<Song>, playlists: seq<Playlist>)

  /** `handleDeleteSong`: the song is removed from the song list and from every playlist. */
  function DeleteSong(lib: Library, id: string): (r: Library)
    ensures forall s :: s in r.songs <==> s in lib.songs && s.id != id
    ensures !HasKey(r.songs, SongId, id)
    ensures r.playlists == StripSong(lib.playlists, id)
  {
    Library(RemoveByKey(lib.songs, SongId, id), StripSong(lib.playlists, id))
  }

  /** `handleDeletePlaylist`: the playlists without that id; the songs are untouched. */
  function DeletePlaylist(playlists: seq<Playlist>, id: string): (r: seq<Playlist>)
    ensures forall p :: p in r <==> p in playlists && p.id != id
  {
    RemoveByKey(playlists, PlaylistId, id)
  }

  /** `toggleSongInPlaylist`: with no playlist being edited nothing happens; otherwise the song's membership flips. */
  function ToggleSongInPlaylist(d: Option<PlaylistDraft>, songId: string): (r: Option<PlaylistDraft>)
    ensures d.None? ==> r.None?
    ensures d.Some? ==> r.Some? && r.value == d.value.(songIds := r.value.songIds)
    ensures d.Some? ==> (songId in r.value.songIds <==> songId !in d.value.songIds)
    ensures d.Some? ==> forall x :: x != songId ==> (x in r.value.songIds <==> x in d.value.songIds)
    ensures d.Some? && NoDup(d.value.songIds) ==> NoDup(r.value.songIds)
  {
    match d
    case None => None
    case Some(p) => Some(p.(songIds := Toggle(p.songIds, songId)))
  }

  /** Toggling a song into a playlist and out again restores the form. */
  lemma ToggleSongTwice(d: PlaylistDraft, songId: string)
    requires songId !in d.songIds
    ensures ToggleSongInPlaylist(ToggleSongInPlaylist(Some(d), songId), songId) == Some(d)
  {
    ToggleTwice(d.songIds, songId);
  }

  /** The detail view's `allSongs.filter(song => playlist.songIds.includes(song.id))`. */
  function PlaylistSongs(songs: seq<Song>, songIds: seq<string>): (r: seq<Song>)
    ensures |r| <= |songs|
    ensures forall s :: s in r <==> s in songs && s.id in songIds
  {
    if songs == [] then []
    else
      var rest := PlaylistSongs(songs[1..], songIds);
      assert forall s :: s in songs <==> s == songs[0] || s in songs[1..];
      if songs[0].id in songIds then [songs[0]] + rest else rest
  }

  /** The detail view keeps the song-list order: it distributes over concatenation. */
  lemma {:induction false} PlaylistSongsConcat(a: seq<Song>, b: seq<Song>, songIds: seq<string>)
    ensures PlaylistSongs(a + b, songIds) == PlaylistSongs(a, songIds) + PlaylistSongs(b, songIds)
  {
    if a == [] {
      assert a + b == b;
    } else {
      assert (a + b)[1..] == a[1..] + b;
      PlaylistSongsConcat(a[1..], b, songIds);
    }
  }

  /**
   * After a song is deleted, a playlist's detail view is the old view with
   * that song left out, and nothing else changed.
   */
  lemma {:induction false} DeleteSongFromView(songs: seq<Song>, songIds: seq<string>, id: string)
    ensures PlaylistSongs(RemoveByKey(songs, SongId, id), Without(songIds, id))
         == RemoveByKey(PlaylistSongs(songs, songIds), SongId, id)
  {
    if songs != [] {
      DeleteSongFromView(songs[1..], songIds, id);
      var s := songs[0];
      if s.id != id {
        assert RemoveByKey(songs, SongId, id) == [s] + RemoveByKey(songs[1..], SongId, id);
        assert (s.id in Without(songIds, id)) == (s.id in songIds);
        assert ([s] + RemoveByKey(songs[1..], SongId, id))[1..] == RemoveByKey(songs[1..], SongId, id);
        if s.id in songIds {
          assert PlaylistSongs(songs, songIds) == [s] + PlaylistSongs(songs[1..], songIds);
          assert ([s] + PlaylistSongs(songs[1..], songIds))[1..] == PlaylistSongs(songs[1..], songIds);
        }
      } else {
        assert RemoveByKey(songs, SongId, id) == RemoveByKey(songs[1..], SongId, id);
        if s.id in songIds {
          assert PlaylistSongs(songs, songIds) == [s] + PlaylistSongs(songs[1..], songIds);
          assert ([s] + PlaylistSongs(songs[1..], songIds))[1..] == PlaylistSongs(songs[1..], songIds);
        }
      }
    }
  }

  /** Every song id held by a playlist is the id of a song in the list. */
  predicate Consistent(lib: Library)
  {
    forall i, j :: 0 <= i < |lib.playlists| && 0 <= j < |lib.playlists[i].songIds| ==>
      HasKey(lib.songs, SongId, lib.playlists[i].songIds[j])
  }

  /** Deleting a song leaves no playlist referring to a missing song. */
  lemma DeleteSongConsistent(lib: Library, id: string)
    requires Consistent(lib)
    ensures Consistent(DeleteSong(lib, id))
  {
    var r := DeleteSong(lib, id);
    forall i, j | 0 <= i < |r.playlists| && 0 <= j < |r.playlists[i].songIds|
      ensures HasKey(r.songs, SongId, r.playlists[i].songIds[j])
    {
      var sid := r.playlists[i].songIds[j];
      assert sid != id && sid in lib.playlists[i].songIds;
      var j0 :| 0 <= j0 < |lib.playlists[i].songIds| && lib.playlists[i].songIds[j0] == sid;
      var k :| 0 <= k < |lib.songs| && lib.songs[k].id == sid;
      assert lib.songs[k] in r.songs;
      var k1 :| 0 <= k1 < |r.songs| && r.songs[k1] == lib.songs[k];
      assert SongId(r.songs[k1]) == sid;
    }
  }

  /** Saving a song never drops a song id, so playlists stay consistent. */
  lemma SaveSongConsistent(lib: Library, d: SongDraft, freshId: string)
    requires Consistent(lib)
    ensures Consistent(Library(SaveSong(lib.songs, d, freshId), lib.playlists))
  {
    var songs := SaveSong(lib.songs, d, freshId);
    forall i, j | 0 <= i < |lib.playlists| && 0 <= j < |lib.playlists[i].songIds|
      ensures HasKey(songs, SongId, lib.playlists[i].songIds[j])
    {
      var k :| 0 <= k < |lib.songs| && SongId(lib.songs[k]) == lib.playlists[i].songIds[j];
      assert SongId(songs[k]) == lib.playlists[i].songIds[j];
    }
  }

  /** Saving a playlist whose songs all exist, or deleting a playlist, keeps the library consistent. */
  lemma PlaylistEditsConsistent(lib: Library, d: PlaylistDraft, freshId: string, id: string)
    requires Consistent(lib)
    requires forall x :: x in d.songIds ==> HasKey(lib.songs, SongId, x)
    ensures Consistent(Library(lib.songs, SavePlaylist(lib.playlists, d, freshId)))
    ensures Consistent(Library(lib.songs, DeletePlaylist(lib.playlists, id)))
  {
    var saved := SavePlaylist(lib.playlists, d, freshId);
    forall i, j | 0 <= i < |saved| && 0 <= j < |saved[i].songIds|
      ensures HasKey(lib.songs, SongId, saved[i].songIds[j])
    {
      if i < |lib.playlists| && saved[i] == lib.playlists[i] {
      } else {
        assert saved[i].songIds == d.songIds;
        assert saved[i].songIds[j] in d.songIds;
      }
    }
    var kept := DeletePlaylist(lib.playlists, id);
    forall i, j | 0 <= i < |kept| && 0 <= j < |kept[i].songIds|
      ensures HasKey(lib.songs, SongId, kept[i].songIds[j])
    {
      assert kept[i] in lib.playlists;
      var i0 :| 0 <= i0 < |lib.playlists| && lib.playlists[i0] == kept[i];
      assert lib.playlists[i0].songIds[j] == kept[i].songIds[j];
    }
  }

  /** Editing a stored song and saving it unchanged leaves a song list with unique ids as it was. */
  lemma SaveSongUnchangedIsNoop(songs: seq<Song>, s: Song, freshId: string)
    requires UniqueKeys(songs, SongId) && s in songs
    requires s.id != "" && s.title != "" && s.artist != ""
    ensures SaveSong(songs, OpenSong(Some(s)), freshId) == songs
  {
    assert SongOf(OpenSong(Some(s)), s.id) == s;
    ReplaceByKeyIdentity(songs, SongId, s);
  }
}
