/** A client's favourites album per event, as `user-albums.ts` keeps it in two tables:
    `user_albums`, one row per user and project, and `user_album_photos`, one row per
    album and photo. The tables are an in-memory store; the server picks new album ids and
    timestamps, which are parameters. */
module UserAlbums {
  import opened Strings

  const NotSignedInMessage: string := "You must be signed in."
  const LoadAlbumFailedMessage: string := "Failed to load album."
  const CreateAlbumFailedMessage: string := "Failed to create album."
  const LoadProjectFailedMessage: string := "Failed to load project."
  const LoadAlbumPhotosFailedMessage: string := "Failed to load album photos."
  const AddPhotoFailedMessage: string := "Failed to add photo to album."
  const RemovePhotoFailedMessage: string := "Failed to remove photo from album."
  const DraftStatus: string := "draft"

  datatype Album = Album(id: string, userId: string, projectId: int, status: string,
                         submittedAt: Option<string>, createdAt: string)

  /** The row key of `user_albums`: one album per user and project. */
  type AlbumKey = (string, int)

  /** The photos of one album. */
  function AlbumPhotos(pairs: set<(string, string)>, albumId: string): set<string> {
    set pr | pr in pairs && pr.0 == albumId :: pr.1
  }

  /** `Album is full (max N photos).` */
  function FullMessage(albumSize: nat): string {
    "Album is full (max " + NatToString(albumSize) + " photos)."
  }

  /** `getOrCreateUserAlbum` on the album table: signed out is an error; a failed album read
      (`loadError`, the error of `getUserAlbum`) is an error; an existing album is returned as
      it is; a failed insert (`insertError`) is an error; otherwise a new draft album is stored
      and returned. No error stores anything. */
  function GetOrCreateSpec(albums: map<AlbumKey, Album>, user: Option<string>, projectId: int,
                           loadError: Option<string>, insertError: Option<string>,
                           newId: string, createdAt: string): (out: (map<AlbumKey, Album>, Result<Album>))
    ensures user.None? ==> out == (albums, Err(NotSignedInMessage))
    ensures user.Some? && loadError.Some? ==>
      out == (albums, Err(MessageOr(loadError.value, LoadAlbumFailedMessage)))
    ensures user.Some? && loadError.None? && (user.value, projectId) in albums ==>
      out == (albums, Ok(albums[(user.value, projectId)]))
    ensures user.Some? && loadError.None? && (user.value, projectId) !in albums && insertError.Some? ==>
      out == (albums, Err(MessageOr(insertError.value, CreateAlbumFailedMessage)))
    ensures user.Some? && loadError.None? && (user.value, projectId) !in albums && insertError.None? ==>
      var album := Album(newId, user.value, projectId, DraftStatus, None, createdAt);
      out == (albums[(user.value, projectId) := album], Ok(album))
    ensures out.1.Err? ==> out.0 == albums
  {
    if user.None? then (albums, Err(NotSignedInMessage))
    else if loadError.Some? then (albums, Err(MessageOr(loadError.value, LoadAlbumFailedMessage)))
    else
      var key := (user.value, projectId);
      if key in albums then (albums, Ok(albums[key]))
      else if insertError.Some? then (albums, Err(MessageOr(insertError.value, CreateAlbumFailedMessage)))
      else
        var album := Album(newId, user.value, projectId, DraftStatus, None, createdAt);
        (albums[key := album], Ok(album))
  }

  /** Asking again, with the album read succeeding, stores nothing more and gives back the album
      the first call returned. */
  lemma GetOrCreateIdempotent(albums: map<AlbumKey, Album>, user: Option<string>, projectId: int,
                              load1: Option<string>, insert1: Option<string>, id1: string, at1: string,
                              insert2: Option<string>, id2: string, at2: string)
    ensures var (m1, r1) := GetOrCreateSpec(albums, user, projectId, load1, insert1, id1, at1);
      var (m2, r2) := GetOrCreateSpec(m1, user, projectId, None, insert2, id2, at2);
      r1.Ok? ==> m2 == m1 && r2 == r1
  {
  }

  /** Albums of other users or projects are never touched. */
  lemma GetOrCreateKeepsOthers(albums: map<AlbumKey, Album>, user: Option<string>, projectId: int,
                               loadError: Option<string>, insertError: Option<string>,
                               newId: string, createdAt: string, key: AlbumKey)
    requires key in albums
    ensures var (m, _) := GetOrCreateSpec(albums, user, projectId, loadError, insertError, newId, createdAt);
      key in m && m[key] == albums[key]
  {
  }

  /** The capacity rule of `addPhotoToAlbum`: with a size limit, a photo not yet in an album
      that already holds that many is refused. */
  function CapacityCheck(pairs: set<(string, string)>, albumId: string, photoId: string,
                         albumSize: Option<nat>): (r: Outcome)
    ensures r.Fail? <==> albumSize.Some? && photoId !in AlbumPhotos(pairs, albumId)
                          && |AlbumPhotos(pairs, albumId)| >= albumSize.value
    ensures r.Fail? ==> r.message == FullMessage(albumSize.value)
  {
    if albumSize.Some? && photoId !in AlbumPhotos(pairs, albumId) && |AlbumPhotos(pairs, albumId)| >= albumSize.value
    then Fail(FullMessage(albumSize.value))
    else Pass
  }

  /** The photo rows after `addPhotoToAlbum`, once the album is known: the project lookup may
      fail; with a size limit the read of the album's photo ids (`idsError`) may fail and the
      capacity rule may refuse; else the pair is upserted, unless the upsert fails
      (`upsertError`). A failure leaves the rows as they were. */
  function AddSpec(pairs: set<(string, string)>, albumId: string, photoId: string,
                   albumSize: Result<Option<nat>>, idsError: Option<string>,
                   upsertError: Option<string>): (out: (Outcome, set<(string, string)>))
    ensures albumSize.Err? ==> out == (Fail(MessageOr(albumSize.message, LoadProjectFailedMessage)), pairs)
    ensures albumSize.Ok? && albumSize.value.Some? && idsError.Some? ==>
      out == (Fail(MessageOr(idsError.value, LoadAlbumPhotosFailedMessage)), pairs)
    ensures albumSize.Ok? && (albumSize.value.None? || idsError.None?) ==>
      var check := CapacityCheck(pairs, albumId, photoId, albumSize.value);
      (check.Fail? ==> out == (check, pairs))
      && (check.Pass? && upsertError.Some? ==>
            out == (Fail(MessageOr(upsertError.value, AddPhotoFailedMessage)), pairs))
      && (check.Pass? && upsertError.None? ==> out == (Pass, pairs + {(albumId, photoId)}))
    ensures out.0.Fail? ==> out.1 == pairs
  {
    if albumSize.Err? then (Fail(MessageOr(albumSize.message, LoadProjectFailedMessage)), pairs)
    else if albumSize.value.Some? && idsError.Some? then
      (Fail(MessageOr(idsError.value, LoadAlbumPhotosFailedMessage)), pairs)
    else
      var check := CapacityCheck(pairs, albumId, photoId, albumSize.value);
      if check.Fail? then (check, pairs)
      else if upsertError.Some? then (Fail(MessageOr(upsertError.value, AddPhotoFailedMessage)), pairs)
      else (Pass, pairs + {(albumId, photoId)})
  }

  lemma AlbumPhotosAdd(pairs: set<(string, string)>, albumId: string, photoId: string, other: string)
    ensures AlbumPhotos(pairs + {(albumId, photoId)}, albumId) == AlbumPhotos(pairs, albumId) + {photoId}
    ensures other != albumId ==> AlbumPhotos(pairs + {(albumId, photoId)}, other) == AlbumPhotos(pairs, other)
  {
    var grown := pairs + {(albumId, photoId)};
    var after := AlbumPhotos(grown, albumId);
    forall x ensures x in after <==> x in AlbumPhotos(pairs, albumId) + {photoId} {
      if x == photoId {
        assert (albumId, photoId) in grown;
      } else if x in AlbumPhotos(pairs, albumId) {
        var pr :| pr in pairs && pr.0 == albumId && pr.1 == x;
        assert pr in grown;
      }
    }
    if other != albumId {
      forall x ensures x in AlbumPhotos(grown, other) <==> x in AlbumPhotos(pairs, other) {
        if x in AlbumPhotos(pairs, other) {
          var pr :| pr in pairs && pr.0 == other && pr.1 == x;
          assert pr in grown;
        }
      }
    }
  }

  /** An album within its limit stays within it after any add, failed or not. */
  lemma AddKeepsLimit(pairs: set<(string, string)>, albumId: string, photoId: string, limit: nat,
                      idsError: Option<string>, upsertError: Option<string>)
    requires |AlbumPhotos(pairs, albumId)| <= limit
    ensures |AlbumPhotos(AddSpec(pairs, albumId, photoId, Ok(Some(limit)), idsError, upsertError).1, albumId)| <= limit
  {
    var (check, after) := AddSpec(pairs, albumId, photoId, Ok(Some(limit)), idsError, upsertError);
    if check.Pass? {
      AlbumPhotosAdd(pairs, albumId, photoId, albumId);
      if photoId in AlbumPhotos(pairs, albumId) {
        assert AlbumPhotos(pairs, albumId) + {photoId} == AlbumPhotos(pairs, albumId);
      }
    }
  }

  /** Adding a photo that is already in the album is never refused for capacity and adds no
      row. */
  lemma ReAddIsNoOp(pairs: set<(string, string)>, albumId: string, photoId: string, albumSize: Option<nat>)
    requires (albumId, photoId) in pairs
    ensures AddSpec(pairs, albumId, photoId, Ok(albumSize), None, None) == (Pass, pairs)
  {
    assert photoId in AlbumPhotos(pairs, albumId);
    assert pairs + {(albumId, photoId)} == pairs;
  }

  /** Without a limit the photo ids are not read, and every add whose upsert succeeds goes
      through. */
  lemma UnlimitedAlwaysAdds(pairs: set<(string, string)>, albumId: string, photoId: string, idsError: Option<string>)
    ensures AddSpec(pairs, albumId, photoId, Ok(None), idsError, None) == (Pass, pairs + {(albumId, photoId)})
  {
  }

  /** The two tables. */
  class AlbumStore {
    var albums: map<AlbumKey, Album>
    var pairs: set<(string, string)>

    constructor()
      ensures albums == map[] && pairs == {}
    {
      albums := map[];
      pairs := {};
    }

    /** `getOrCreateUserAlbum`. */
    method GetOrCreate(user: Option<string>, projectId: int, loadError: Option<string>,
                       insertError: Option<string>, newId: string, createdAt: string)
      returns (r: Result<Album>)
      modifies this
      ensures (albums, r) == GetOrCreateSpec(old(albums), user, projectId, loadError, insertError, newId, createdAt)
      ensures pairs == old(pairs)
    {
      if user.None? {
        return Err(NotSignedInMessage);
      }
      if loadError.Some? {
        return Err(MessageOr(loadError.value, LoadAlbumFailedMessage));
      }
      var key := (user.value, projectId);
      if key in albums {
        return Ok(albums[key]);
      }
      if insertError.Some? {
        return Err(MessageOr(insertError.value, CreateAlbumFailedMessage));
      }
      var album := Album(newId, user.value, projectId, DraftStatus, None, createdAt);
      albums := albums[key := album];
      r := Ok(album);
    }

    /** `addPhotoToAlbum`: the album is made first and stays made even when the add then fails;
        `albumSize` is the project lookup, `idsError` the error of reading the album's photo
        ids and `upsertError` that of the upsert. */
    method AddPhoto(user: Option<string>, projectId: int, photoId: string,
                    loadError: Option<string>, insertError: Option<string>,
                    albumSize: Result<Option<nat>>, idsError: Option<string>, upsertError: Option<string>,
                    newId: string, createdAt: string) returns (r: Outcome)
      modifies this
      ensures albums == GetOrCreateSpec(old(albums), user, projectId, loadError, insertError, newId, createdAt).0
      ensures var album := GetOrCreateSpec(old(albums), user, projectId, loadError, insertError, newId, createdAt).1;
        (album.Err? ==> r == Fail(album.message) && pairs == old(pairs))
        && (album.Ok? ==> (r, pairs) == AddSpec(old(pairs), album.value.id, photoId, albumSize, idsError, upsertError))
    {
      var album := GetOrCreate(user, projectId, loadError, insertError, newId, createdAt);
      if album.Err? {
        return Fail(album.message);
      }
      if albumSize.Err? {
        return Fail(MessageOr(albumSize.message, LoadProjectFailedMessage));
      }
      if albumSize.value.Some? {
        if idsError.Some? {
          return Fail(MessageOr(idsError.value, LoadAlbumPhotosFailedMessage));
        }
        var current := AlbumPhotos(pairs, album.value.id);
        if photoId !in current && |current| >= albumSize.value.value {
          return Fail(FullMessage(albumSize.value.value));
        }
      }
      if upsertError.Some? {
        return Fail(MessageOr(upsertError.value, AddPhotoFailedMessage));
      }
      pairs := pairs + {(album.value.id, photoId)};
      r := Pass;
    }

    /** `removePhotoFromAlbum`: deletes that one pair, unless the delete fails
        (`deleteError`), when nothing is removed. */
    method RemovePhoto(albumId: string, photoId: string, deleteError: Option<string>) returns (r: Outcome)
      modifies this
      ensures deleteError.Some? ==>
        r == Fail(MessageOr(deleteError.value, RemovePhotoFailedMessage)) && pairs == old(pairs)
      ensures deleteError.None? ==> r == Pass && pairs == old(pairs) - {(albumId, photoId)}
      ensures albums == old(albums)
    {
      if deleteError.Some? {
        return Fail(MessageOr(deleteError.value, RemovePhotoFailedMessage));
      }
      pairs := pairs - {(albumId, photoId)};
      r := Pass;
    }
  }

  /** Removing leaves every other pair as it was. */
  lemma RemoveKeepsOthers(pairs: set<(string, string)>, albumId: string, photoId: string, other: (string, string))
    requires other in pairs && other != (albumId, photoId)
    ensures other in pairs - {(albumId, photoId)}
    ensures photoId !in AlbumPhotos(pairs - {(albumId, photoId)}, albumId)
  {
  }
}
