/** The bookmarks page's data, as `bookmarks.ts` joins it: the user's albums with the events
    they have opened, one section per album that has an event and photos. The per-album photo
    ids and the per-project photo lists are the answers of their queries, given as functions. */
module Bookmarks {
  import opened Photos
  import UserAlbums
  import EventAccess

  /** What a section takes from the album's event. */
  datatype EventInfo = EventInfo(title: string, token: string)

  datatype Section = Section(projectId: int, eventTitle: string, token: string,
                             album: UserAlbums.Album, photos: seq<Photo>)

  /** `new Map(events.map(...))`: keyed by project id, a later event replacing an earlier one. */
  function EventIndex(events: seq<EventAccess.MyEventItem>): (m: map<int, EventInfo>)
    ensures forall p :: p in m <==> exists i :: 0 <= i < |events| && events[i].projectId == p
  {
    if events == [] then map[]
    else
      var n := |events| - 1;
      assert forall i :: 0 <= i < n ==> events[..n][i] == events[i];
      EventIndex(events[..n])[events[n].projectId := EventInfo(events[n].title, events[n].token)]
  }

  /** A project's entry is its last event's title and token. */
  lemma {:induction false} LastEventWins(events: seq<EventAccess.MyEventItem>, i: nat)
    requires i < |events|
    requires forall j :: i < j < |events| ==> events[j].projectId != events[i].projectId
    ensures events[i].projectId in EventIndex(events)
    ensures EventIndex(events)[events[i].projectId] == EventInfo(events[i].title, events[i].token)
  {
    var n := |events| - 1;
    if i < n {
      var front := events[..n];
      assert forall j :: i < j < n ==> front[j].projectId != front[i].projectId;
      LastEventWins(front, i);
    }
  }

  /** The set `new Set(photoIds)`. */
  function IdSet(ids: seq<string>): (s: set<string>)
    ensures forall x :: x in s <==> x in ids
  {
    set x | x in ids
  }

  /** The section of one album: none when its project has no event or it has no photo ids;
      else its project's photos whose id is in the album. */
  function SectionFor(album: UserAlbums.Album, index: map<int, EventInfo>, ids: seq<string>,
                      projectPhotos: seq<Photo>): (r: seq<Section>)
    ensures |r| <= 1
    ensures r == [] <==> album.projectId !in index || ids == []
  {
    if album.projectId !in index || ids == [] then []
    else
      var info := index[album.projectId];
      [Section(album.projectId, info.title, info.token, album, WithIds(projectPhotos, IdSet(ids)))]
  }

  /** The sections of a list of albums, in album order. */
  function Sections(albums: seq<UserAlbums.Album>, index: map<int, EventInfo>,
                    idsOf: string -> seq<string>, photosOf: int -> seq<Photo>): (r: seq<Section>)
    ensures |r| <= |albums|
  {
    if albums == [] then []
    else
      var last := albums[|albums| - 1];
      Sections(albums[..|albums| - 1], index, idsOf, photosOf)
        + SectionFor(last, index, idsOf(last.id), photosOf(last.projectId))
  }

  /** Every section is that of one of the albums: its project and album come from the album, its
      title and token from the project's event, and its photos are exactly the project's photos
      that are in the album, in the project's order. */
  lemma {:induction false} SectionsCome(albums: seq<UserAlbums.Album>, index: map<int, EventInfo>,
                                        idsOf: string -> seq<string>, photosOf: int -> seq<Photo>, s: Section)
    requires s in Sections(albums, index, idsOf, photosOf)
    ensures s.album in albums && s.projectId == s.album.projectId
    ensures s.projectId in index && (s.eventTitle, s.token) == (index[s.projectId].title, index[s.projectId].token)
    ensures idsOf(s.album.id) != []
    ensures s.photos == WithIds(photosOf(s.projectId), IdSet(idsOf(s.album.id)))
  {
    var n := |albums| - 1;
    var front := Sections(albums[..n], index, idsOf, photosOf);
    if s in front {
      SectionsCome(albums[..n], index, idsOf, photosOf, s);
      assert albums[..n] <= albums;
    } else {
      assert s in SectionFor(albums[n], index, idsOf(albums[n].id), photosOf(albums[n].projectId));
    }
  }

  /** An album without an event or without photo ids adds no section. */
  lemma SkippedAlbum(albums: seq<UserAlbums.Album>, album: UserAlbums.Album, index: map<int, EventInfo>,
                     idsOf: string -> seq<string>, photosOf: int -> seq<Photo>)
    requires album.projectId !in index || idsOf(album.id) == []
    ensures Sections(albums + [album], index, idsOf, photosOf) == Sections(albums, index, idsOf, photosOf)
  {
    assert (albums + [album])[..|albums|] == albums;
  }

  /** Any other album adds its one section at the end. */
  lemma KeptAlbum(albums: seq<UserAlbums.Album>, album: UserAlbums.Album, index: map<int, EventInfo>,
                  idsOf: string -> seq<string>, photosOf: int -> seq<Photo>)
    requires album.projectId in index && idsOf(album.id) != []
    ensures var all := Sections(albums + [album], index, idsOf, photosOf);
      |all| == |Sections(albums, index, idsOf, photosOf)| + 1 && all[|all| - 1].album == album
  {
    assert (albums + [album])[..|albums|] == albums;
  }

  /** `getMyBookmarkedSections`. */
  method GetMyBookmarkedSections(albums: seq<UserAlbums.Album>, events: seq<EventAccess.MyEventItem>,
                                 idsOf: string -> seq<string>, photosOf: int -> seq<Photo>)
    returns (sections: seq<Section>)
    ensures sections == Sections(albums, EventIndex(events), idsOf, photosOf)
  {
    var eventByProjectId := EventIndex(events);
    sections := [];
    for k := 0 to |albums|
      invariant sections == Sections(albums[..k], eventByProjectId, idsOf, photosOf)
    {
      var album := albums[k];
      assert albums[..k + 1][..k] == albums[..k];
      if album.projectId !in eventByProjectId {
        continue;
      }
      var eventInfo := eventByProjectId[album.projectId];
      var photoIds := idsOf(album.id);
      var allPhotos := photosOf(album.projectId);
      if photoIds == [] {
        continue;
      }
      var photos := WithIds(allPhotos, IdSet(photoIds));
      sections := sections + [Section(album.projectId, eventInfo.title, eventInfo.token, album, photos)];
    }
    assert albums[..|albums|] == albums;
  }
}
