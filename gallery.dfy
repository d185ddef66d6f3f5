/** The full-screen photo preview shared by the event gallery and the favourites page
    (`PhotoPreviewModal.tsx`): where it can step to, which keys do what, when the favourite button
    is disabled, which image it shows and the counter. */
module PreviewModal {
  import opened Strings
  import opened Photos

  /** `hasPrev`. */
  predicate HasPrev(index: int) {
    index > 0
  }

  /** `hasNext`. */
  predicate HasNext(index: int, count: nat) {
    0 <= index < count - 1
  }

  /** The previewed photo's position in the list, as the modal computes it. */
  function ModalIndex(photo: Photo, photos: seq<Photo>): (i: int)
    ensures -1 <= i < |photos|
  {
    IndexOf(photos, photo.id)
  }

  /** A photo absent from the list has neither neighbour; a photo of a list with distinct ids has
      a previous one unless it is first and a next one unless it is last. */
  lemma NeighboursOfPhoto(photos: seq<Photo>, photo: Photo)
    ensures photo.id !in Ids(photos) ==>
      !HasPrev(ModalIndex(photo, photos)) && !HasNext(ModalIndex(photo, photos), |photos|)
    ensures forall k :: 0 <= k < |photos| && DistinctIds(photos) && photos[k] == photo ==>
      (HasPrev(ModalIndex(photo, photos)) <==> k > 0)
      && (HasNext(ModalIndex(photo, photos), |photos|) <==> k < |photos| - 1)
  {
    if photo.id !in Ids(photos) {
      assert forall j :: 0 <= j < |photos| ==> Ids(photos)[j] == photos[j].id;
    }
    forall k | 0 <= k < |photos| && DistinctIds(photos) && photos[k] == photo
      ensures ModalIndex(photo, photos) == k
    {
      IndexOfOwnId(photos, k);
    }
  }

  datatype Key = Escape | ArrowLeft | ArrowRight | OtherKey

  datatype Callback = OnClose | OnPrev | OnNext

  /** The callbacks a key press calls (`handleKeyDown`). */
  function KeyCallbacks(key: Key, hasPrev: bool, hasNext: bool): (calls: seq<Callback>)
    ensures key == Escape <==> calls == [OnClose]
    ensures OnPrev in calls <==> key == ArrowLeft && hasPrev
    ensures OnNext in calls <==> key == ArrowRight && hasNext
    ensures |calls| <= 1
  {
    match key
    case Escape => [OnClose]
    case ArrowLeft => if hasPrev then [OnPrev] else []
    case ArrowRight => if hasNext then [OnNext] else []
    case OtherKey => []
  }

  /** The favourite button is disabled while an album submit is pending, on a locked album, and on
      a full album for a photo not in it. */
  predicate BookmarkDisabled(isSubmitting: bool, isAlbumLocked: bool, isAlbumFull: bool, isInAlbum: bool) {
    isSubmitting || isAlbumLocked || (isAlbumFull && !isInAlbum)
  }

  /** A photo already in the album can always be taken out of a full album that is neither locked
      nor being submitted, and a photo not in it cannot be added. */
  lemma FullAlbumStillRemoves(isInAlbum: bool)
    ensures !BookmarkDisabled(false, false, true, true)
    ensures BookmarkDisabled(false, false, true, false)
    ensures BookmarkDisabled(false, false, true, isInAlbum) <==> !isInAlbum
  {
  }

  datatype ImageSource = DirectUrl(url: string) | CloudinaryImage(publicId: string) | FallbackImage

  /** The image shown: the photo's url, else the Cloudinary image of its public id, else the
      fallback component. */
  function ImageSourceFor(photo: Photo, hasCloudinary: bool): (src: ImageSource)
    ensures photo.url != [] <==> src.DirectUrl?
    ensures src.DirectUrl? ==> src.url == photo.url
    ensures src.CloudinaryImage? <==> photo.url == [] && hasCloudinary && photo.publicId.Some? && photo.publicId.value != []
    ensures src.CloudinaryImage? ==> Some(src.publicId) == photo.publicId
  {
    if photo.url != [] then DirectUrl(photo.url)
    else if hasCloudinary && photo.publicId.Some? && photo.publicId.value != [] then CloudinaryImage(photo.publicId.value)
    else FallbackImage
  }

  /** The counter `(index + 1 / count)`, shown whenever the list is not empty. */
  function Counter(index: int, count: nat): (c: Option<(int, nat)>)
    ensures c.Some? <==> count > 0
    ensures c.Some? ==> c.value.1 == count && c.value.0 - 1 == index
  {
    if count > 0 then Some((index + 1, count)) else None
  }

  /** For a photo of the list the counter is between 1 and the count; for one missing from it,
      the counter reads 0. */
  lemma CounterInRange(photo: Photo, photos: seq<Photo>)
    requires photos != []
    ensures var c := Counter(ModalIndex(photo, photos), |photos|).value;
      (photo in photos ==> 1 <= c.0 <= c.1) && (photo.id !in Ids(photos) ==> c.0 == 0)
  {
    if photo in photos {
      var k :| 0 <= k < |photos| && photos[k] == photo;
      assert photos[k].id == photo.id;
    }
    if photo.id !in Ids(photos) {
      assert forall j :: 0 <= j < |photos| ==> Ids(photos)[j] == photos[j].id;
    }
  }
}

/** The state behind the client's event gallery (`useEventGallery`): the token test, the album's
    photo ids as cached, and the photo whose toggle is in flight. The server calls themselves are
    modelled in `UserAlbums`; here their results arrive as method calls. */
module EventGallery {
  import opened Strings
  import opened Photos

  /** `Boolean(token?.trim())`. */
  predicate IsValidToken(token: Option<string>) {
    token.Some? && Trim(token.value) != []
  }

  /** A token is valid exactly when it is present and not all whitespace. */
  lemma ValidTokenIff(token: Option<string>)
    ensures IsValidToken(token) <==> token.Some? && !IsBlank(token.value)
  {
    if token.Some? {
      TrimEmptyIffBlank(token.value);
    }
  }

  /** `isAlbumFull`: a limit is set and the album holds at least that many photos. */
  predicate IsAlbumFull(limit: Option<int>, albumPhotoIds: seq<string>) {
    limit.Some? && |albumPhotoIds| >= limit.value
  }

  /** `prev.filter((id) => id !== photoId)`. */
  function WithoutId(ids: seq<string>, id: string): (r: seq<string>)
    ensures |r| <= |ids|
    ensures forall x :: x in r <==> x in ids && x != id
  {
    if ids == [] then []
    else (if ids[0] != id then [ids[0]] else []) + WithoutId(ids[1..], id)
  }

  /** Taking out an id the list holds once shortens it by exactly one. */
  lemma {:induction false} WithoutOnceHeld(ids: seq<string>, id: string)
    requires multiset(ids)[id] == 1
    ensures |WithoutId(ids, id)| == |ids| - 1
  {
    assert ids == [ids[0]] + ids[1..];
    if ids[0] == id {
      assert multiset(ids[1..])[id] == 0;
      WithoutAbsentId(ids[1..], id);
    } else {
      WithoutOnceHeld(ids[1..], id);
    }
  }

  lemma {:induction false} WithoutAbsentId(ids: seq<string>, id: string)
    requires id !in ids
    ensures WithoutId(ids, id) == ids
  {
    if ids != [] {
      assert ids == [ids[0]] + ids[1..];
      WithoutAbsentId(ids[1..], id);
    }
  }

  /** Removing one photo from a full album whose ids are distinct makes room for exactly one. */
  lemma RemovalFreesOneSlot(ids: seq<string>, id: string, limit: int)
    requires multiset(ids)[id] == 1 && |ids| == limit
    ensures IsAlbumFull(Some(limit), ids) && !IsAlbumFull(Some(limit), WithoutId(ids, id))
  {
    WithoutOnceHeld(ids, id);
  }

  /** Which mutation a toggle starts. */
  datatype Mutation = AddPhoto(photoId: string) | RemovePhoto(photoId: string)

  class GalleryState {
    /** The cached `albumPhotoIds` query; an absent cache reads as `[]`. */
    var albumPhotoIds: seq<string>
    var togglingPhotoId: Option<string>

    constructor(ids: seq<string>)
      ensures albumPhotoIds == ids && togglingPhotoId == None
    {
      albumPhotoIds := ids;
      togglingPhotoId := None;
    }

    /** `isInAlbum`. */
    predicate IsInAlbum(photoId: string)
      reads this
    {
      photoId in albumPhotoIds
    }

    /** `isTogglingPhoto`. */
    predicate IsTogglingPhoto(photoId: string)
      reads this
    {
      togglingPhotoId == Some(photoId)
    }

    /** `toggleAlbumPhoto`: a photo in the album is removed, any other is added; either
        mutation marks the photo as toggling when it starts. */
    method ToggleAlbumPhoto(photo: Photo) returns (m: Mutation)
      modifies this
      ensures m == if photo.id in old(albumPhotoIds) then RemovePhoto(photo.id) else AddPhoto(photo.id)
      ensures togglingPhotoId == Some(photo.id) && albumPhotoIds == old(albumPhotoIds)
    {
      if photo.id in albumPhotoIds {
        m := RemovePhoto(photo.id);
      } else {
        m := AddPhoto(photo.id);
      }
      togglingPhotoId := Some(photo.id);
    }

    /** A successful remove drops that id from the cached list. */
    method RemoveSucceeded(photoId: string)
      modifies this
      ensures albumPhotoIds == WithoutId(old(albumPhotoIds), photoId)
      ensures togglingPhotoId == old(togglingPhotoId)
    {
      albumPhotoIds := WithoutId(albumPhotoIds, photoId);
    }

    /** Either mutation, once settled, clears the toggling photo. */
    method Settled()
      modifies this
      ensures togglingPhotoId == None && albumPhotoIds == old(albumPhotoIds)
    {
      togglingPhotoId := None;
    }
  }

  /** After a successful remove the photo is out of the album, every other id is kept, and the
      next toggle of that photo adds it back. */
  lemma RemoveThenToggleAdds(ids: seq<string>, photo: Photo)
    ensures photo.id !in WithoutId(ids, photo.id)
    ensures forall x :: x in ids && x != photo.id ==> x in WithoutId(ids, photo.id)
  {
  }
}

/** The page of the event gallery (`EventGalleryView.tsx`): the preview it steps through and
    what it passes to the album bar. */
module GalleryView {
  import opened Strings
  import opened Photos
  import opened PreviewModal
  import UserAlbums

  const SubmittedStatus: string := "submitted"

  /** `currentPreviewIndex`: -1 without a preview or without photos. */
  function PreviewIndex(preview: Option<Photo>, photos: seq<Photo>): (i: int)
    ensures -1 <= i < |photos|
    ensures preview.None? || photos == [] ==> i == -1
    ensures preview.Some? && photos != [] ==> i == ModalIndex(preview.value, photos)
  {
    if preview.Some? && |photos| > 0 then IndexOf(photos, preview.value.id) else -1
  }

  /** The grid is locked once the album is submitted. */
  predicate IsAlbumLocked(album: Option<UserAlbums.Album>) {
    album.Some? && album.value.status == SubmittedStatus
  }

  /** `albumPhotoCount`: 0 for a submitted album, else the number of ids. */
  function AlbumPhotoCount(album: Option<UserAlbums.Album>, albumPhotoIds: seq<string>): (n: nat)
    ensures IsAlbumLocked(album) ==> n == 0
    ensures !IsAlbumLocked(album) ==> n == |albumPhotoIds|
  {
    if IsAlbumLocked(album) then 0 else |albumPhotoIds|
  }

  /** The bar's submit only fires when there is an album. */
  predicate SubmitFires(album: Option<UserAlbums.Album>) {
    album.Some?
  }

  class GalleryViewState {
    var previewPhoto: Option<Photo>

    constructor()
      ensures previewPhoto == None
    {
      previewPhoto := None;
    }

    /** `goToPrev`: the previous photo, when there is one. */
    method GoToPrev(photos: seq<Photo>)
      modifies this
      ensures var i := PreviewIndex(old(previewPhoto), photos);
        previewPhoto == if i > 0 then Some(photos[i - 1]) else old(previewPhoto)
    {
      var i := PreviewIndex(previewPhoto, photos);
      if i > 0 {
        previewPhoto := Some(photos[i - 1]);
      }
    }

    /** `goToNext`: the next photo, when there is one. */
    method GoToNext(photos: seq<Photo>)
      modifies this
      ensures var i := PreviewIndex(old(previewPhoto), photos);
        previewPhoto == if 0 <= i < |photos| - 1 then Some(photos[i + 1]) else old(previewPhoto)
    {
      var i := PreviewIndex(previewPhoto, photos);
      if 0 <= i && i < |photos| - 1 {
        previewPhoto := Some(photos[i + 1]);
      }
    }
  }

  /** The page steps exactly when the modal offers the step: its tests on the preview index are
      the modal's `hasPrev` and `hasNext`. */
  lemma StepsMatchModal(photo: Photo, photos: seq<Photo>)
    ensures PreviewIndex(Some(photo), photos) > 0 <==> HasPrev(ModalIndex(photo, photos))
    ensures 0 <= PreviewIndex(Some(photo), photos) < |photos| - 1 <==> HasNext(ModalIndex(photo, photos), |photos|)
  {
  }

  /** With distinct ids, stepping moves the preview by exactly one place, and then stepping back
      returns to it. */
  lemma StepMovesByOne(photos: seq<Photo>, k: nat)
    requires DistinctIds(photos) && k + 1 < |photos|
    ensures PreviewIndex(Some(photos[k]), photos) == k
    ensures PreviewIndex(Some(photos[k + 1]), photos) == k + 1
  {
    IndexOfOwnId(photos, k);
    IndexOfOwnId(photos, k + 1);
  }
}

/** The bar at the bottom of the event gallery (`AlbumBar.tsx`). */
module AlbumBar {
  import opened Strings

  const SubmittedLabel: string := "Album submitted"

  /** `photo` or `photos` by a number. */
  function Photos(n: nat): (w: string)
    ensures n == 1 <==> w == "photo"
  {
    if n != 1 then "photos" else "photo"
  }

  /** The label: fixed once submitted; with a maximum, the count against it pluralised by the
      maximum; without one, the count pluralised by itself. */
  function Label(photoCount: nat, maxSize: Option<nat>, isSubmitted: bool): (s: string)
    ensures isSubmitted ==> s == SubmittedLabel
    ensures !isSubmitted && maxSize.Some? ==>
      s == "My album (" + NatToString(photoCount) + " / " + NatToString(maxSize.value) + " " + Photos(maxSize.value) + ")"
    ensures !isSubmitted && maxSize.None? ==>
      s == "My album (" + NatToString(photoCount) + " " + Photos(photoCount) + ")"
  {
    if isSubmitted then SubmittedLabel
    else if maxSize.Some? then
      "My album (" + NatToString(photoCount) + " / " + NatToString(maxSize.value) + " " + Photos(maxSize.value) + ")"
    else "My album (" + NatToString(photoCount) + " " + Photos(photoCount) + ")"
  }

  /** The label goes plural on the maximum when there is one, else on the count. */
  lemma LabelPlural(photoCount: nat, maxSize: Option<nat>)
    ensures var s := Label(photoCount, maxSize, false);
      |s| >= 2 && (s[|s| - 2] == 's' <==> (if maxSize.Some? then maxSize.value else photoCount) != 1)
  {
    var n := if maxSize.Some? then maxSize.value else photoCount;
    var s := Label(photoCount, maxSize, false);
    var w := Photos(n);
    assert s[|s| - 2] == w[|w| - 1];
  }

  /** The submit button is there only while the album is not submitted. */
  predicate ShowsSubmit(isSubmitted: bool) {
    !isSubmitted
  }

  /** `disabled`: nothing to submit, or a submit in progress. */
  predicate SubmitDisabled(photoCount: nat, isSubmitting: bool) {
    photoCount == 0 || isSubmitting
  }
}

/** How the gallery page feeds the bar. */
module GalleryBar {
  import opened Strings
  import UserAlbums
  import GalleryView
  import AlbumBar

  /** A submitted album shows its fixed label and no button; an album without photos cannot be
      submitted. */
  lemma BarForAlbum(album: Option<UserAlbums.Album>, ids: seq<string>, maxSize: Option<nat>, submitting: bool)
    ensures var count := GalleryView.AlbumPhotoCount(album, ids);
      var locked := GalleryView.IsAlbumLocked(album);
      (locked ==> AlbumBar.Label(count, maxSize, locked) == AlbumBar.SubmittedLabel && !AlbumBar.ShowsSubmit(locked))
      && (ids == [] ==> AlbumBar.SubmitDisabled(count, submitting))
      && (!locked && !submitting ==> (AlbumBar.SubmitDisabled(count, submitting) <==> ids == []))
  {
  }
}

/** The favourites page (`MyBookmarksView.tsx`): the preview over one section, the photo being
    removed, the album being submitted. */
module BookmarksPage {
  import opened Strings
  import opened Photos
  import Bookmarks

  /** The preview: a photo and the section it was opened from. */
  datatype Preview = Preview(photo: Photo, section: Bookmarks.Section)

  /** The index after a removal as the page computes it: the removed photo's old index, capped
      at the last remaining one. */
  function NextIndexAsWritten(currentIndex: int, remaining: nat): (k: int)
    ensures k <= currentIndex && k <= remaining - 1
    ensures k == currentIndex || k == remaining - 1
  {
    if currentIndex < remaining - 1 then currentIndex else remaining - 1
  }

  /** When the removed photo is not in the section the index is -1, which is no photo of the
      remaining list. */
  lemma AbsentPhotoGivesNoIndex()
    ensures var photos := [Photo("a", "u", "a.jpg", None, "", "")];
      var remaining := Without(photos, "b");
      remaining == photos && NextIndexAsWritten(IndexOf(photos, "b"), |remaining|) == -1
  {
    var photos := [Photo("a", "u", "a.jpg", None, "", "")];
    assert photos[1..] == [];
    assert Without(photos, "b") == [photos[0]] + Without([], "b");
  }

  /** The index after a removal, kept inside the remaining photos. */
  function NextIndex(currentIndex: int, remaining: nat): (k: nat)
    requires remaining > 0
    ensures k < remaining
    ensures currentIndex >= 0 ==> k == NextIndexAsWritten(currentIndex, remaining)
  {
    if currentIndex < 0 then 0 else NextIndexAsWritten(currentIndex, remaining)
  }

  /** The preview after a remove succeeds: closed without a preview or when nothing is left;
      else the section without that photo, and the photo now at its place, or the last one. */
  function RemovalPreview(state: Option<Preview>, photoId: string): (r: Option<Preview>)
    ensures state.None? ==> r.None?
    ensures state.Some? ==> (r.None? <==> Without(state.value.section.photos, photoId) == [])
    ensures r.Some? ==>
      r.value.section == state.value.section.(photos := Without(state.value.section.photos, photoId))
      && r.value.photo in r.value.section.photos && r.value.photo.id != photoId
  {
    if state.None? then None
    else
      var photos := state.value.section.photos;
      var remaining := Without(photos, photoId);
      if remaining == [] then None
      else
        var k := NextIndex(IndexOf(photos, photoId), |remaining|);
        Some(Preview(remaining[k], state.value.section.(photos := remaining)))
  }

  /** When the removed photo was in the section, the new photo is the one the page's own index
      picks: the correction only changes the case where that index is -1. */
  lemma RemovalAgreesWhenPresent(state: Preview, photoId: string)
    requires photoId in Ids(state.section.photos)
    requires Without(state.section.photos, photoId) != []
    ensures var photos := state.section.photos;
      var remaining := Without(photos, photoId);
      var k := NextIndexAsWritten(IndexOf(photos, photoId), |remaining|);
      0 <= k < |remaining| && RemovalPreview(Some(state), photoId).value.photo == remaining[k]
  {
    var photos := state.section.photos;
    var i :| 0 <= i < |photos| && Ids(photos)[i] == photoId;
    assert photos[i].id == photoId;
  }

  /** The summary line's total: the photos of every section. */
  function TotalPhotos(sections: seq<Bookmarks.Section>): (n: nat)
  {
    if sections == [] then 0
    else TotalPhotos(sections[..|sections| - 1]) + |sections[|sections| - 1].photos|
  }

  /** Every photo of every section, in order. */
  function AllPhotos(sections: seq<Bookmarks.Section>): seq<Photo> {
    if sections == [] then [] else sections[0].photos + AllPhotos(sections[1..])
  }

  lemma {:induction false} AllPhotosSnoc(sections: seq<Bookmarks.Section>, s: Bookmarks.Section)
    ensures AllPhotos(sections + [s]) == AllPhotos(sections) + s.photos
  {
    if sections == [] {
      assert [s][1..] == [];
    } else {
      assert (sections + [s])[1..] == sections[1..] + [s];
      AllPhotosSnoc(sections[1..], s);
    }
  }

  /** The total is the number of photos listed on the page, and it is 0 exactly when every
      section is empty. */
  lemma {:induction false} TotalIsAllPhotos(sections: seq<Bookmarks.Section>)
    ensures TotalPhotos(sections) == |AllPhotos(sections)|
    ensures TotalPhotos(sections) == 0 <==> forall i :: 0 <= i < |sections| ==> sections[i].photos == []
  {
    if sections != [] {
      var front := sections[..|sections| - 1];
      var last := sections[|sections| - 1];
      TotalIsAllPhotos(front);
      assert sections == front + [last];
      AllPhotosSnoc(front, last);
      assert forall i :: 0 <= i < |front| ==> front[i] == sections[i];
    }
  }

  class BookmarksPageState {
    var preview: Option<Preview>
    var togglingPhotoId: Option<string>
    var submittingAlbumId: Option<string>

    constructor()
      ensures preview == None && togglingPhotoId == None && submittingAlbumId == None
    {
      preview := None;
      togglingPhotoId := None;
      submittingAlbumId := None;
    }

    /** `onPreview`. */
    method OpenPreview(photo: Photo, section: Bookmarks.Section)
      modifies this
      ensures preview == Some(Preview(photo, section))
      ensures togglingPhotoId == old(togglingPhotoId) && submittingAlbumId == old(submittingAlbumId)
    {
      preview := Some(Preview(photo, section));
    }

    method ClosePreview()
      modifies this
      ensures preview == None
      ensures togglingPhotoId == old(togglingPhotoId) && submittingAlbumId == old(submittingAlbumId)
    {
      preview := None;
    }

    /** The remove starts: the photo is marked. */
    method RemoveStarted(photoId: string)
      modifies this
      ensures togglingPhotoId == Some(photoId)
      ensures preview == old(preview) && submittingAlbumId == old(submittingAlbumId)
    {
      togglingPhotoId := Some(photoId);
    }

    /** The remove succeeds; `state` is the preview as it was when the remove was started. */
    method RemoveSucceeded(photoId: string, state: Option<Preview>)
      modifies this
      ensures preview == RemovalPreview(state, photoId)
      ensures togglingPhotoId == old(togglingPhotoId) && submittingAlbumId == old(submittingAlbumId)
    {
      if state.None? {
        preview := None;
        return;
      }
      var remaining := Without(state.value.section.photos, photoId);
      if |remaining| == 0 {
        preview := None;
        return;
      }
      var currentIndex := IndexOf(state.value.section.photos, photoId);
      var nextIndex := NextIndex(currentIndex, |remaining|);
      preview := Some(Preview(remaining[nextIndex], state.value.section.(photos := remaining)));
    }

    /** The remove settles either way: no photo is marked. */
    method RemoveSettled()
      modifies this
      ensures togglingPhotoId == None
      ensures preview == old(preview) && submittingAlbumId == old(submittingAlbumId)
    {
      togglingPhotoId := None;
    }

    method SubmitStarted(albumId: string)
      modifies this
      ensures submittingAlbumId == Some(albumId)
      ensures preview == old(preview) && togglingPhotoId == old(togglingPhotoId)
    {
      submittingAlbumId := Some(albumId);
    }

    /** A settled submit clears the marker only if it is still its own album's: a later submit of
        another album stays marked. */
    method SubmitSettled(albumId: string)
      modifies this
      ensures submittingAlbumId == if old(submittingAlbumId) == Some(albumId) then None else old(submittingAlbumId)
      ensures preview == old(preview) && togglingPhotoId == old(togglingPhotoId)
    {
      if submittingAlbumId == Some(albumId) {
        submittingAlbumId := None;
      }
    }

    /** `goToPrev`: within the section, one photo back when there is one. */
    method GoToPrev()
      modifies this
      ensures old(preview).None? ==> preview == None
      ensures old(preview).Some? ==>
        var p := old(preview).value;
        var i := IndexOf(p.section.photos, p.photo.id);
        preview == if i > 0 then Some(Preview(p.section.photos[i - 1], p.section)) else old(preview)
      ensures togglingPhotoId == old(togglingPhotoId) && submittingAlbumId == old(submittingAlbumId)
    {
      if preview.None? {
        return;
      }
      var p := preview.value;
      var idx := IndexOf(p.section.photos, p.photo.id);
      if idx > 0 {
        preview := Some(Preview(p.section.photos[idx - 1], p.section));
      }
    }

    /** `goToNext`: within the section, one photo on when there is one. */
    method GoToNext()
      modifies this
      ensures old(preview).None? ==> preview == None
      ensures old(preview).Some? ==>
        var p := old(preview).value;
        var i := IndexOf(p.section.photos, p.photo.id);
        preview == if 0 <= i < |p.section.photos| - 1 then Some(Preview(p.section.photos[i + 1], p.section)) else old(preview)
      ensures togglingPhotoId == old(togglingPhotoId) && submittingAlbumId == old(submittingAlbumId)
    {
      if preview.None? {
        return;
      }
      var p := preview.value;
      var idx := IndexOf(p.section.photos, p.photo.id);
      if 0 <= idx && idx < |p.section.photos| - 1 {
        preview := Some(Preview(p.section.photos[idx + 1], p.section));
      }
    }
  }
}
