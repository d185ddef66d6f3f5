/** The photo grid of the upload page: the persisted photos followed by the in-flight uploads
    (`useDisplayPhotos`). */
module DisplayPhotos {
  import opened Strings
  import opened Photos
  import Uploads

  datatype Status = Done | Uploading

  /** `DisplayPhoto`: a photo with its status and, for an upload, its progress. */
  datatype DisplayPhoto = DisplayPhoto(photo: Photo, status: Status, progress: Option<int>)

  /** The grid entry of an in-flight upload: its temporary id, no url, its file name. */
  function UploadingEntry(u: Uploads.UploadingItem): (d: DisplayPhoto)
    ensures d.photo.id == u.tempId && d.photo.url == [] && d.photo.filename == u.filename
    ensures d.status == Uploading && d.progress == Some(u.progress)
  {
    DisplayPhoto(Photo(u.tempId, [], u.filename, None, [], []), Uploading, Some(u.progress))
  }

  function DoneEntries(photos: seq<Photo>): (r: seq<DisplayPhoto>)
    ensures |r| == |photos|
    ensures forall i :: 0 <= i < |photos| ==> r[i] == DisplayPhoto(photos[i], Done, None)
  {
    if photos == [] then [] else [DisplayPhoto(photos[0], Done, None)] + DoneEntries(photos[1..])
  }

  function UploadingEntries(uploading: seq<Uploads.UploadingItem>): (r: seq<DisplayPhoto>)
    ensures |r| == |uploading|
    ensures forall i :: 0 <= i < |uploading| ==> r[i] == UploadingEntry(uploading[i])
  {
    if uploading == [] then [] else [UploadingEntry(uploading[0])] + UploadingEntries(uploading[1..])
  }

  /** `useDisplayPhotos`. */
  function Merge(photos: seq<Photo>, uploading: seq<Uploads.UploadingItem>): (r: seq<DisplayPhoto>)
    ensures |r| == |photos| + |uploading|
  {
    DoneEntries(photos) + UploadingEntries(uploading)
  }

  /** The first entries are the persisted photos in order, marked done; the others are the
      uploads in order, marked uploading with their progress; nothing else is in the grid. */
  lemma MergeShape(photos: seq<Photo>, uploading: seq<Uploads.UploadingItem>)
    ensures var r := Merge(photos, uploading);
      (forall i :: 0 <= i < |photos| ==> r[i].photo == photos[i] && r[i].status == Done)
      && (forall i :: 0 <= i < |uploading| ==>
            r[|photos| + i].photo.id == uploading[i].tempId && r[|photos| + i].photo.url == []
            && r[|photos| + i].status == Uploading && r[|photos| + i].progress == Some(uploading[i].progress))
      && (forall i :: |photos| <= i < |r| ==> r[i].status == Uploading)
  {
  }

  /** With nothing uploading the grid is the persisted photos, marked done. */
  lemma MergeWithoutUploads(photos: seq<Photo>)
    ensures Merge(photos, []) == DoneEntries(photos)
  {
    assert DoneEntries(photos) + [] == DoneEntries(photos);
  }

  /** The entries a user can select: those not uploading. */
  predicate Selectable(d: DisplayPhoto) {
    d.status != Uploading
  }
}

/** The selection of the upload page's grid (`useSelection`). */
module Selection {
  import opened Photos
  import opened DisplayPhotos

  /** The selection after `toggleSelect(id)`. */
  function Toggled(selected: set<string>, id: string): (r: set<string>)
    ensures id in r <==> id !in selected
    ensures forall other :: other != id ==> (other in r <==> other in selected)
  {
    if id in selected then selected - {id} else selected + {id}
  }

  /** Toggling an id twice gives back the selection. */
  lemma ToggleTwice(selected: set<string>, id: string)
    ensures Toggled(Toggled(selected, id), id) == selected
  {
  }

  /** The ids of the selectable entries, as `selectAll` collects them. */
  function SelectableIds(display: seq<DisplayPhoto>): (ids: set<string>)
    ensures forall id :: id in ids <==> exists i :: 0 <= i < |display| && Selectable(display[i]) && display[i].photo.id == id
  {
    set i | 0 <= i < |display| && Selectable(display[i]) :: display[i].photo.id
  }

  /** `selectedPhotos`: the selectable entries whose id is selected, in grid order. */
  function SelectedPhotos(display: seq<DisplayPhoto>, selected: set<string>): (r: seq<DisplayPhoto>)
    ensures |r| <= |display|
    ensures forall d :: d in r <==> d in display && Selectable(d) && d.photo.id in selected
  {
    if display == [] then []
    else
      var d := display[0];
      (if Selectable(d) && d.photo.id in selected then [d] else []) + SelectedPhotos(display[1..], selected)
  }

  /** The selected list keeps the grid's order. */
  lemma {:induction false} SelectedPhotosConcat(a: seq<DisplayPhoto>, b: seq<DisplayPhoto>, selected: set<string>)
    ensures SelectedPhotos(a + b, selected) == SelectedPhotos(a, selected) + SelectedPhotos(b, selected)
  {
    if a == [] {
      assert a + b == b;
    } else {
      assert (a + b)[1..] == a[1..] + b;
      SelectedPhotosConcat(a[1..], b, selected);
    }
  }

  /** Ids that are not in the grid, or only on uploading entries, select nothing. */
  lemma StaleIdsIgnored(display: seq<DisplayPhoto>, selected: set<string>, stale: string)
    requires stale !in SelectableIds(display)
    ensures SelectedPhotos(display, selected + {stale}) == SelectedPhotos(display, selected - {stale})
  {
    if display != [] {
      assert forall i :: 0 <= i < |display[1..]| ==> display[1..][i] == display[i + 1];
      StaleIdsIgnored(display[1..], selected, stale);
    }
  }

  /** `hasSelectablePhotos`. */
  predicate HasSelectablePhotos(display: seq<DisplayPhoto>) {
    exists i :: 0 <= i < |display| && Selectable(display[i])
  }

  /** After `selectAll` every selectable entry is selected, and there is something to select
      exactly when the set is not empty. */
  lemma SelectAllSelectsEverything(display: seq<DisplayPhoto>)
    ensures forall d :: d in display && Selectable(d) ==> d in SelectedPhotos(display, SelectableIds(display))
    ensures HasSelectablePhotos(display) <==> SelectableIds(display) != {}
  {
    forall d | d in display && Selectable(d)
      ensures d.photo.id in SelectableIds(display)
    {
      var i :| 0 <= i < |display| && display[i] == d;
    }
    if HasSelectablePhotos(display) {
      var i :| 0 <= i < |display| && Selectable(display[i]);
      assert display[i].photo.id in SelectableIds(display);
    }
  }

  /** In the upload page's grid, `selectAll` selects exactly the persisted photos. */
  lemma SelectAllIsPersisted(photos: seq<Photo>, uploading: seq<Uploads.UploadingItem>)
    ensures SelectableIds(Merge(photos, uploading)) == set p | p in photos :: p.id
  {
    var grid := Merge(photos, uploading);
    MergeShape(photos, uploading);
    forall id | id in SelectableIds(grid)
      ensures id in set p | p in photos :: p.id
    {
      var i :| 0 <= i < |grid| && Selectable(grid[i]) && grid[i].photo.id == id;
      assert i < |photos|;
      assert photos[i] in photos;
    }
    forall id | id in set p | p in photos :: p.id
      ensures id in SelectableIds(grid)
    {
      var p :| p in photos && p.id == id;
      var i :| 0 <= i < |photos| && photos[i] == p;
      assert Selectable(grid[i]);
    }
  }

  /** The `selectedIds` state. */
  class SelectionState {
    var selectedIds: set<string>

    constructor()
      ensures selectedIds == {}
    {
      selectedIds := {};
    }

    method ToggleSelect(id: string)
      modifies this
      ensures selectedIds == Toggled(old(selectedIds), id)
    {
      var next := selectedIds;
      if id in next {
        next := next - {id};
      } else {
        next := next + {id};
      }
      selectedIds := next;
    }

    method SelectAll(display: seq<DisplayPhoto>)
      modifies this
      ensures selectedIds == SelectableIds(display)
    {
      var doneIds: set<string> := {};
      for k := 0 to |display|
        invariant doneIds == SelectableIds(display[..k])
      {
        assert forall i :: 0 <= i < k ==> display[..k + 1][i] == display[..k][i];
        if display[k].status != Uploading {
          doneIds := doneIds + {display[k].photo.id};
        }
        assert display[..k + 1][k] == display[k];
      }
      assert display[..|display|] == display;
      selectedIds := doneIds;
    }

    method ClearSelection()
      modifies this
      ensures selectedIds == {}
    {
      selectedIds := {};
    }
  }
}

/** Deleting photos from the upload page (`useDeleteFlow`): one photo behind a confirmation, or
    many at once. The photo table is a set of ids; whether each delete succeeds is a parameter. */
module DeleteFlow {
  import opened Strings
  import opened Photos
  import Selection

  const DeletingOneMessage: string := "Deleting photo…"
  const BulkPrefix: string := "Deleting "
  const BulkSuffix: string := " photos…"

  /** The message of a bulk delete. */
  function BulkMessage(count: nat): (m: string)
    ensures count == 1 <==> m == DeletingOneMessage
    ensures count != 1 ==>
      |m| > |BulkPrefix| + |BulkSuffix| && m[..|BulkPrefix|] == BulkPrefix && m[|m| - |BulkSuffix|..] == BulkSuffix
      && AllDigits(m[|BulkPrefix|..|m| - |BulkSuffix|]) && DigitsValue(m[|BulkPrefix|..|m| - |BulkSuffix|]) == count
  {
    if count == 1 then DeletingOneMessage
    else
      var digits := NatToString(count);
      DigitsValueOfNatToString(count);
      var m := BulkPrefix + digits + BulkSuffix;
      assert m[|BulkPrefix|..|m| - |BulkSuffix|] == digits;
      m
  }

  /** What a settled single delete leaves of the message: it clears only its own. */
  function SettledMessage(m: Option<string>): (r: Option<string>)
    ensures m == Some(DeletingOneMessage) ==> r.None?
    ensures m != Some(DeletingOneMessage) ==> r == m
  {
    if m == Some(DeletingOneMessage) then None else m
  }

  /** The ids removed by deletes that succeeded. */
  function Removed(ids: seq<string>, ok: seq<bool>): (r: set<string>)
    requires |ok| == |ids|
    ensures forall id :: id in r <==> exists i :: 0 <= i < |ids| && ids[i] == id && ok[i]
  {
    set i | 0 <= i < |ids| && ok[i] :: ids[i]
  }

  class DeleteState {
    var photoToDelete: Option<Photo>
    var confirmBulkDelete: bool
    var deletingMessage: Option<string>
    /** The ids of the project's stored photos. */
    var stored: set<string>
    /** Every delete request sent, in order. */
    var requests: seq<string>

    constructor(ids: set<string>)
      ensures photoToDelete == None && !confirmBulkDelete && deletingMessage == None
      ensures stored == ids && requests == []
    {
      photoToDelete := None;
      confirmBulkDelete := false;
      deletingMessage := None;
      stored := ids;
      requests := [];
    }

    /** `confirmDelete`: nothing without a pending photo; else the photo is no longer pending,
        the message is shown and its delete is sent. */
    method ConfirmDelete()
      modifies this
      ensures old(photoToDelete).None? ==>
        photoToDelete == old(photoToDelete) && deletingMessage == old(deletingMessage) && requests == old(requests)
      ensures old(photoToDelete).Some? ==>
        photoToDelete == None && deletingMessage == Some(DeletingOneMessage)
        && requests == old(requests) + [old(photoToDelete).value.id]
      ensures stored == old(stored) && confirmBulkDelete == old(confirmBulkDelete)
    {
      if photoToDelete.None? {
        return;
      }
      var id := photoToDelete.value.id;
      photoToDelete := None;
      deletingMessage := Some(DeletingOneMessage);
      requests := requests + [id];
    }

    /** The single delete settles: a success removes the photo; either way the message is
        cleared if it is still the single-delete one. */
    method SettleDelete(id: string, ok: bool)
      modifies this
      ensures stored == if ok then old(stored) - {id} else old(stored)
      ensures deletingMessage == SettledMessage(old(deletingMessage))
      ensures photoToDelete == old(photoToDelete) && confirmBulkDelete == old(confirmBulkDelete)
      ensures requests == old(requests)
    {
      if ok {
        stored := stored - {id};
      }
      deletingMessage := if deletingMessage == Some(DeletingOneMessage) then None else deletingMessage;
    }

    /** `handleBulkDelete`: closes the dialog, clears the selection, shows the message, sends one
        delete per id in order whatever the earlier ones gave, and clears the message at the end.
        `shown` is the message shown while the deletes run. */
    method HandleBulkDelete(idsToDelete: seq<string>, ok: seq<bool>, selection: Selection.SelectionState)
      returns (shown: string)
      modifies this, selection
      requires |ok| == |idsToDelete|
      ensures shown == BulkMessage(|idsToDelete|)
      ensures !confirmBulkDelete && selection.selectedIds == {} && deletingMessage == None
      ensures requests == old(requests) + idsToDelete
      ensures stored == old(stored) - Removed(idsToDelete, ok)
      ensures photoToDelete == old(photoToDelete)
    {
      var count := |idsToDelete|;
      confirmBulkDelete := false;
      selection.ClearSelection();
      deletingMessage := Some(BulkMessage(count));
      shown := deletingMessage.value;
      var before := stored;
      for k := 0 to count
        invariant requests == old(requests) + idsToDelete[..k]
        invariant stored == before - Removed(idsToDelete[..k], ok[..k])
        invariant !confirmBulkDelete && photoToDelete == old(photoToDelete)
        invariant selection.selectedIds == {} && deletingMessage == Some(shown)
      {
        TakeOneMore(idsToDelete, k);
        TakeOneMore(ok, k);
        RemovedStep(idsToDelete[..k], ok[..k], idsToDelete[k], ok[k]);
        requests := requests + [idsToDelete[k]];
        if ok[k] {
          stored := stored - {idsToDelete[k]};
        }
      }
      assert idsToDelete[..count] == idsToDelete && ok[..count] == ok;
      deletingMessage := None;
    }
  }

  /** One more delete removes its id when it succeeds. */
  lemma RemovedStep(ids: seq<string>, ok: seq<bool>, id: string, success: bool)
    requires |ok| == |ids|
    ensures Removed(ids + [id], ok + [success]) == Removed(ids, ok) + (if success then {id} else {})
  {
    var lhs := Removed(ids + [id], ok + [success]);
    var rhs := Removed(ids, ok) + (if success then {id} else {});
    forall x | x in lhs ensures x in rhs {
      var i :| 0 <= i < |ids| + 1 && (ids + [id])[i] == x && (ok + [success])[i];
      if i < |ids| {
        assert ids[i] == x && ok[i];
      }
    }
    forall x | x in rhs ensures x in lhs {
      if x in Removed(ids, ok) {
        var i :| 0 <= i < |ids| && ids[i] == x && ok[i];
        assert (ids + [id])[i] == x && (ok + [success])[i];
      } else {
        assert (ids + [id])[|ids|] == x && (ok + [success])[|ids|];
      }
    }
  }

  /** A failed delete leaves the photo stored, and does not stop the later ones: every id after
      it is still sent. */
  lemma FailedDeleteKeepsPhoto(ids: seq<string>, ok: seq<bool>, stored: set<string>, i: nat)
    requires |ok| == |ids| && i < |ids| && !ok[i] && ids[i] in stored
    requires forall j :: 0 <= j < |ids| && ids[j] == ids[i] ==> !ok[j]
    ensures ids[i] in stored - Removed(ids, ok)
  {
  }
}
