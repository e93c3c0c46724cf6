/** The reply composer's attachments (components/reply/useMediaUploads.ts):
    which picked files take one of the four slots, the status each upload
    moves through, removal, and what the composer reads back. Upload ids
    are random in the program and are supplied here; preview object URLs
    are left out. */
module ComposerUploads {
  import opened Wrappers
  import opened Text
  import opened Ordered

  const MaxUploadItems := 4

  datatype Status = Uploading | Processing | Uploaded | Error

  datatype Kind = Image | Video | Unknown

  /** A picked file: its name and MIME type. */
  datatype File = File(name: string, mimeType: string)

  datatype Item = Item(id: string, name: string, mimeType: string, progress: real, status: Status,
                       mediaId: Option<string>, kind: Kind)

  type Items = Dict<Item>

  /** `inferUploadKind`. */
  function InferKind(mimeType: string): (k: Kind)
    ensures k == Image <==> StartsWith(mimeType, "image/")
    ensures k == Video <==> !StartsWith(mimeType, "image/") && StartsWith(mimeType, "video/")
  {
    if StartsWith(mimeType, "image/") then Image
    else if StartsWith(mimeType, "video/") then Video
    else Unknown
  }

  /** The filter `addFiles` applies: the type mentions video or image
      anywhere, which is looser than the kind's prefix test. */
  predicate Accepted(f: File) {
    Contains(f.mimeType, "video") || Contains(f.mimeType, "image")
  }

  /** The free slots: four minus the items held, never negative. */
  function FreeSlots(items: Items): (n: nat)
    ensures n == 0 <==> |items.keys| >= MaxUploadItems
    ensures n > 0 ==> n == MaxUploadItems - |items.keys|
  {
    if |items.keys| >= MaxUploadItems then 0 else MaxUploadItems - |items.keys|
  }

  /** The item a started upload shows at first: uploading, no progress. */
  function NewItem(id: string, f: File): Item {
    var mimeType := if f.mimeType != "" then f.mimeType else "application/octet-stream";
    Item(id, f.name, mimeType, 0.0, Uploading, None, InferKind(mimeType))
  }

  /** One examined file: an accepted file gets an item under its id. */
  function StartOne(items: Items, f: File, id: string): Items {
    if Accepted(f) then items.Put(id, NewItem(id, f)) else items
  }

  /** The upload one examined file starts: itself under its id when it is
      accepted, else none. */
  function StartedOne(f: File, id: string): (r: seq<(string, File)>)
    ensures r == [] <==> !Accepted(f)
  {
    if Accepted(f) then [(id, f)] else []
  }

  /** The loop of `addFiles` over the examined files: an accepted file gets
      an item under its id and an upload; any other file is passed over. */
  function AddEach(items: Items, files: seq<File>, ids: seq<string>): (r: (Items, seq<(string, File)>))
    requires |ids| == |files|
    ensures |r.0.keys| <= |items.keys| + |r.1| && |r.1| <= |files|
    ensures items.Valid() ==> r.0.Valid()
    ensures forall c :: c in r.1 ==> Accepted(c.1) && c.0 in r.0.m && c.0 in ids
    ensures items.m.Keys <= r.0.m.Keys
    decreases |files|
  {
    if files == [] then (items, [])
    else
      var rest := AddEach(StartOne(items, files[0], ids[0]), files[1..], ids[1..]);
      assert forall k :: k in ids[1..] ==> k in ids;
      var started := StartedOne(files[0], ids[0]) + rest.1;
      assert forall c :: c in started ==> c == (ids[0], files[0]) || c in rest.1;
      (rest.0, started)
  }

  /** One turn of the loop. */
  lemma AddEachStep(items: Items, files: seq<File>, ids: seq<string>)
    requires |ids| == |files| && files != []
    ensures AddEach(items, files, ids).0 == AddEach(StartOne(items, files[0], ids[0]), files[1..], ids[1..]).0
    ensures AddEach(items, files, ids).1
            == StartedOne(files[0], ids[0]) + AddEach(StartOne(items, files[0], ids[0]), files[1..], ids[1..]).1
  {
  }

  /** Every accepted file the loop examines starts an upload under its own
      id. */
  lemma {:induction false} AddEachStarts(items: Items, files: seq<File>, ids: seq<string>, i: nat)
    requires |ids| == |files| && i < |files| && Accepted(files[i])
    ensures (ids[i], files[i]) in AddEach(items, files, ids).1
    decreases i
  {
    AddEachStep(items, files, ids);
    if i > 0 {
      assert files[1..][i - 1] == files[i] && ids[1..][i - 1] == ids[i];
      AddEachStarts(StartOne(items, files[0], ids[0]), files[1..], ids[1..], i - 1);
    }
  }

  /** Every upload the loop starts is an accepted examined file under its
      own id. */
  lemma {:induction false} AddEachFrom(items: Items, files: seq<File>, ids: seq<string>, c: (string, File))
    requires |ids| == |files| && c in AddEach(items, files, ids).1
    ensures exists i :: 0 <= i < |files| && Accepted(files[i]) && c == (ids[i], files[i])
    decreases |files|
  {
    AddEachStep(items, files, ids);
    if c !in StartedOne(files[0], ids[0]) {
      AddEachFrom(StartOne(items, files[0], ids[0]), files[1..], ids[1..], c);
      var i :| 0 <= i < |files[1..]| && Accepted(files[1..][i]) && c == (ids[1..][i], files[1..][i]);
      assert files[i + 1] == files[1..][i] && ids[i + 1] == ids[1..][i];
    }
  }

  /** The loop runs file by file: a pick split in two runs as the loop over
      the first part followed by the loop over the second from where the
      first left off. With `AddEachOne`, the uploads start in the order the
      files were picked. */
  lemma {:induction false} AddEachAppend(items: Items, a: seq<File>, b: seq<File>, ia: seq<string>, ib: seq<string>)
    requires |ia| == |a| && |ib| == |b|
    ensures AddEach(items, a + b, ia + ib).0 == AddEach(AddEach(items, a, ia).0, b, ib).0
    ensures AddEach(items, a + b, ia + ib).1 == AddEach(items, a, ia).1 + AddEach(AddEach(items, a, ia).0, b, ib).1
    decreases |a|
  {
    if a == [] {
      assert a + b == b && ia + ib == ib;
      assert AddEach(items, a, ia) == (items, []);
    } else {
      assert (a + b)[0] == a[0] && (a + b)[1..] == a[1..] + b;
      assert (ia + ib)[0] == ia[0] && (ia + ib)[1..] == ia[1..] + ib;
      var next := StartOne(items, a[0], ia[0]);
      AddEachStep(items, a + b, ia + ib);
      AddEachStep(items, a, ia);
      AddEachAppend(next, a[1..], b, ia[1..], ib);
      var first := AddEach(next, a[1..], ia[1..]);
      var second := AddEach(first.0, b, ib);
      assert AddEach(items, a + b, ia + ib).1 == StartedOne(a[0], ia[0]) + (first.1 + second.1);
    }
  }

  /** Later uploads of the same call never touch an item whose id is not
      theirs, so the first started upload's item survives the rest of the
      loop when the ids differ. */
  lemma {:induction false} AddEachKeepsUnrelated(items: Items, files: seq<File>, ids: seq<string>, k: string)
    requires |ids| == |files| && k !in ids
    ensures AddEach(items, files, ids).0.Get(k) == items.Get(k)
    decreases |files|
  {
    if files != [] {
      var next := StartOne(items, files[0], ids[0]);
      assert next.Get(k) == items.Get(k);
      assert k !in ids[1..];
      AddEachKeepsUnrelated(next, files[1..], ids[1..], k);
    }
  }

  /** With different ids, every started upload's item is there afterwards
      as it was created. */
  lemma {:induction false} AddEachCreates(items: Items, files: seq<File>, ids: seq<string>)
    requires |ids| == |files| && NoDup(ids)
    ensures var r := AddEach(items, files, ids);
            forall c :: c in r.1 ==> r.0.Get(c.0) == Some(NewItem(c.0, c.1))
    decreases |files|
  {
    if files != [] {
      var f := files[0];
      var next := StartOne(items, f, ids[0]);
      assert NoDup(ids[1..]) by {
        forall i, j | 0 <= i < j < |ids[1..]| ensures ids[1..][i] != ids[1..][j] {
          assert ids[1..][i] == ids[i + 1] && ids[1..][j] == ids[j + 1];
        }
      }
      AddEachCreates(next, files[1..], ids[1..]);
      if Accepted(f) {
        assert ids[0] !in ids[1..] by {
          forall i | 0 <= i < |ids[1..]| ensures ids[1..][i] != ids[0] {
            assert ids[1..][i] == ids[i + 1];
          }
        }
        AddEachKeepsUnrelated(next, files[1..], ids[1..], ids[0]);
      }
    }
  }

  /** One file gives exactly its own item and upload, or nothing when it is
      not accepted. */
  lemma AddEachOne(items: Items, f: File, id: string)
    ensures AddEach(items, [f], [id]) == (StartOne(items, f, id), StartedOne(f, id))
  {
    AddEachStep(items, [f], [id]);
    assert [f][1..] == [] && [id][1..] == [];
    assert AddEach(StartOne(items, f, id), [], []) == (StartOne(items, f, id), []);
    assert StartedOne(f, id) + [] == StartedOne(f, id);
  }

  /** `addFiles`: nothing for an empty pick or when all four slots are
      taken; otherwise the first `min(files, free slots)` files are
      examined, and a file of another type still uses up its slot. */
  function AddFiles(items: Items, files: seq<File>, ids: seq<string>): (r: (Items, seq<(string, File)>))
    requires |ids| == |files|
    ensures |files| == 0 || FreeSlots(items) == 0 ==> r == (items, [])
    ensures |r.1| <= FreeSlots(items) && |r.1| <= |files|
    ensures |r.0.keys| <= |items.keys| + |r.1|
    ensures items.Valid() ==> r.0.Valid()
    ensures forall c :: c in r.1 ==> Accepted(c.1) && c.0 in r.0.m
  {
    if |files| == 0 || FreeSlots(items) == 0 then (items, [])
    else
      var limit := if |files| < FreeSlots(items) then |files| else FreeSlots(items);
      AddEach(items, files[..limit], ids[..limit])
  }

  /** Every accepted file among the first free-slot-many picked starts an
      upload under its own id. */
  lemma AddFilesStarts(items: Items, files: seq<File>, ids: seq<string>, i: nat)
    requires |ids| == |files| && i < |files| && i < FreeSlots(items) && Accepted(files[i])
    ensures (ids[i], files[i]) in AddFiles(items, files, ids).1
  {
    var limit := if |files| < FreeSlots(items) then |files| else FreeSlots(items);
    assert files[..limit][i] == files[i] && ids[..limit][i] == ids[i];
    AddEachStarts(items, files[..limit], ids[..limit], i);
  }

  /** Only the first free-slot-many picked files are examined: every
      started upload is one of them, accepted, under its own id. */
  lemma AddFilesFrom(items: Items, files: seq<File>, ids: seq<string>, c: (string, File))
    requires |ids| == |files| && c in AddFiles(items, files, ids).1
    ensures exists i :: 0 <= i < |files| && i < FreeSlots(items) && Accepted(files[i]) && c == (ids[i], files[i])
  {
    var limit := if |files| < FreeSlots(items) then |files| else FreeSlots(items);
    AddEachFrom(items, files[..limit], ids[..limit], c);
    var i :| 0 <= i < limit && Accepted(files[..limit][i]) && c == (ids[..limit][i], files[..limit][i]);
    assert files[..limit][i] == files[i] && ids[..limit][i] == ids[i];
  }

  /** However many files are picked, the composer never holds more than
      four items. */
  lemma AtMostFourItems(items: Items, files: seq<File>, ids: seq<string>)
    requires |ids| == |files| && |items.keys| <= MaxUploadItems
    ensures |AddFiles(items, files, ids).0.keys| <= MaxUploadItems
  {
  }

  /** A progress event: the item moves from uploading to processing on the
      finalize phase, keeps any other status, and takes the new progress.
      Events for a removed item are ignored. */
  function OnProgress(items: Items, id: string, phase: string, progress: real): (r: Items)
    ensures id !in items.m ==> r == items
    ensures items.Valid() && id in items.m ==> r.keys == items.keys
    ensures id in items.m ==>
              id in r.m && r.m == items.m[id := r.m[id]]
              && r.m[id].progress == progress
              && r.m[id].status == (if items.m[id].status == Uploading && phase == "finalize" then Processing else items.m[id].status)
              && r.m[id].mediaId == items.m[id].mediaId
    ensures items.Valid() ==> r.Valid()
  {
    match items.Get(id)
    case None => items
    case Some(existing) =>
      var status := if existing.status == Uploading && phase == "finalize" then Processing else existing.status;
      items.Put(id, existing.(status := status, progress := progress))
  }

  /** The upload resolved: the item is uploaded with its media id. */
  function OnSuccess(items: Items, id: string, mediaId: string): (r: Items)
    ensures id !in items.m ==> r == items
    ensures items.Valid() && id in items.m ==> r.keys == items.keys
    ensures id in items.m ==> r.m == items.m[id := items.m[id].(status := Uploaded, mediaId := Some(mediaId))]
    ensures items.Valid() ==> r.Valid()
  {
    match items.Get(id)
    case None => items
    case Some(existing) => items.Put(id, existing.(status := Uploaded, mediaId := Some(mediaId)))
  }

  /** The upload failed: the item shows the error. */
  function OnFailure(items: Items, id: string): (r: Items)
    ensures id !in items.m ==> r == items
    ensures items.Valid() && id in items.m ==> r.keys == items.keys
    ensures id in items.m ==> r.m == items.m[id := items.m[id].(status := Error)]
    ensures items.Valid() ==> r.Valid()
  {
    match items.Get(id)
    case None => items
    case Some(existing) => items.Put(id, existing.(status := Error))
  }

  /** Progress never takes an item back to uploading, and never moves an
      item that has finished or failed. */
  lemma ProgressOnlyAdvances(items: Items, id: string, phase: string, progress: real)
    requires id in items.m
    ensures var s := OnProgress(items, id, phase, progress).m[id].status;
            (items.m[id].status != Uploading ==> s == items.m[id].status)
            && (s == Uploading ==> items.m[id].status == Uploading)
  {
  }

  /** `removeItem`: an unknown id changes nothing. */
  function RemoveItem(items: Items, id: string): (r: Items)
    ensures id !in items.m ==> r == items
    ensures id !in r.m && forall k :: k != id ==> r.Get(k) == items.Get(k)
    ensures items.Valid() ==> r.Valid()
  {
    if id !in items.m then items else items.Remove(id)
  }

  /** Once an item is removed, the late outcome of its upload is
      ignored. */
  lemma RemovedItemIgnoresUpdates(items: Items, id: string, mediaId: string, phase: string, progress: real)
    ensures var r := RemoveItem(items, id);
            OnSuccess(r, id, mediaId) == r && OnFailure(r, id) == r && OnProgress(r, id, phase, progress) == r
  {
  }

  /** `clear`. */
  function Clear(): (r: Items)
    ensures r.Valid() && r.m == map[]
  {
    EmptyDict()
  }

  /** `isUploading`: some item is uploading or processing. */
  predicate IsUploading(items: Items) {
    exists k :: k in items.m && (items.m[k].status == Uploading || items.m[k].status == Processing)
  }

  /** `uploadedMediaIds`: the media ids of the uploaded items, in item
      order, for `keys` in that order. */
  function UploadedIds(keys: seq<string>, m: map<string, Item>): (r: seq<string>)
    ensures forall x :: x in r <==> exists j :: 0 <= j < |keys| && keys[j] in m && m[keys[j]].status == Uploaded
                                              && m[keys[j]].mediaId == Some(x) && x != ""
  {
    if keys == [] then []
    else
      var rest := UploadedIds(keys[1..], m);
      assert forall j :: 1 <= j < |keys| ==> keys[j] == keys[1..][j - 1];
      var k := keys[0];
      if k in m && m[k].status == Uploaded && Truthy(m[k].mediaId) then
        assert forall x :: x in [m[k].mediaId.value] + rest <==> x == m[k].mediaId.value || x in rest;
        [m[k].mediaId.value] + rest
      else rest
  }

  function UploadedMediaIds(items: Items): (r: seq<string>)
    ensures items.Valid() ==>
              forall x :: x in r <==> exists k :: k in items.m && items.m[k].status == Uploaded && items.m[k].mediaId == Some(x) && x != ""
  {
    var r := UploadedIds(items.keys, items.m);
    assert items.Valid() ==> forall k :: k in items.m ==> exists j :: 0 <= j < |items.keys| && items.keys[j] == k;
    r
  }

  /** A started upload that succeeds contributes its media id, and the
      composer stops reporting that item as uploading. */
  lemma SucceededUploadIsReported(items: Items, id: string, mediaId: string)
    requires items.Valid() && id in items.m && mediaId != ""
    ensures mediaId in UploadedMediaIds(OnSuccess(items, id, mediaId))
    ensures OnSuccess(items, id, mediaId).m[id].status == Uploaded
  {
    var r := OnSuccess(items, id, mediaId);
    assert r.m[id].status == Uploaded && r.m[id].mediaId == Some(mediaId);
  }

  /** After `clear` nothing is uploading and no media id is reported. */
  lemma ClearedIsIdle()
    ensures !IsUploading(Clear()) && UploadedMediaIds(Clear()) == []
  {
  }
}
