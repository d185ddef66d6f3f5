/** The photo record shared by the gallery, the bookmarks and the upload grid (`Photo` in
    `types.ts`), without the optional fields none of the modelled rules read. */
module Photos {
  import opened Strings

  /** `publicId` is the Cloudinary public id, `None` when absent. */
  datatype Photo = Photo(id: string, url: string, filename: string, publicId: Option<string>,
                         size: string, dimensions: string)

  /** The ids of a list of photos, in order. */
  function Ids(photos: seq<Photo>): (ids: seq<string>)
    ensures |ids| == |photos|
    ensures forall i :: 0 <= i < |photos| ==> ids[i] == photos[i].id
  {
    if photos == [] then [] else [photos[0].id] + Ids(photos[1..])
  }

  /** `photos.filter((p) => ids.has(p.id))`. */
  function WithIds(photos: seq<Photo>, ids: set<string>): (r: seq<Photo>)
    ensures |r| <= |photos|
    ensures forall p :: p in r <==> p in photos && p.id in ids
  {
    if photos == [] then []
    else (if photos[0].id in ids then [photos[0]] else []) + WithIds(photos[1..], ids)
  }

  /** The filter keeps the order of the list: filtering a concatenation is concatenating the
      filtered parts. */
  lemma {:induction false} WithIdsConcat(a: seq<Photo>, b: seq<Photo>, ids: set<string>)
    ensures WithIds(a + b, ids) == WithIds(a, ids) + WithIds(b, ids)
  {
    if a == [] {
      assert a + b == b;
    } else {
      assert (a + b)[1..] == a[1..] + b;
      WithIdsConcat(a[1..], b, ids);
    }
  }

  /** `photos.filter((p) => p.id !== id)`. */
  function Without(photos: seq<Photo>, id: string): (r: seq<Photo>)
    ensures |r| <= |photos|
    ensures forall p :: p in r <==> p in photos && p.id != id
  {
    if photos == [] then []
    else (if photos[0].id != id then [photos[0]] else []) + Without(photos[1..], id)
  }

  /** Removing an id that is present shortens the list. */
  lemma {:induction false} WithoutPresentIsShorter(photos: seq<Photo>, id: string)
    requires id in Ids(photos)
    ensures |Without(photos, id)| < |photos|
  {
    if photos[0].id != id {
      assert id in Ids(photos[1..]) by {
        var k :| 0 <= k < |photos| && Ids(photos)[k] == id;
        assert k != 0;
        assert Ids(photos[1..])[k - 1] == id;
      }
      WithoutPresentIsShorter(photos[1..], id);
    }
  }

  /** Removing an id that is absent changes nothing. */
  lemma {:induction false} WithoutAbsentIsSame(photos: seq<Photo>, id: string)
    requires id !in Ids(photos)
    ensures Without(photos, id) == photos
  {
    if photos != [] {
      assert Ids(photos)[0] == photos[0].id;
      WithoutAbsentIsSame(photos[1..], id);
      assert photos == [photos[0]] + photos[1..];
    }
  }

  /** `photos.findIndex((p) => p.id === id)`: the first index holding the id, -1 when none does. */
  function IndexOf(photos: seq<Photo>, id: string): (i: int)
    ensures -1 <= i < |photos|
    ensures i >= 0 ==> photos[i].id == id && forall j :: 0 <= j < i ==> photos[j].id != id
    ensures i == -1 <==> forall j :: 0 <= j < |photos| ==> photos[j].id != id
  {
    if photos == [] then -1
    else if photos[0].id == id then 0
    else
      var k := IndexOf(photos[1..], id);
      if k == -1 then -1 else k + 1
  }

  /** No two photos of the list share an id. */
  predicate DistinctIds(photos: seq<Photo>) {
    forall i, j :: 0 <= i < j < |photos| ==> photos[i].id != photos[j].id
  }

  /** With distinct ids, looking a photo of the list up gives back its own index. */
  lemma IndexOfOwnId(photos: seq<Photo>, k: nat)
    requires DistinctIds(photos) && k < |photos|
    ensures IndexOf(photos, photos[k].id) == k
  {
  }
}
