/** The uploader's per-file records and the pure updaters it passes to `setFiles`.

    Every state change of the uploader's `files` array is one of three shapes:
    `prevFiles.map(f => f.file === file ? {...f, ...} : f)` (upload events, keyed by
    the File object), `prevFiles.map(f => f.id === fileId ? {...f, ...} : f)` (delete
    events, keyed by id), `prevFiles.filter(f => f.id !== fileId)`, and the append of
    a new batch. This module gives each shape once, the record-level changes that are
    spread into the matching records, and the facts that make the per-event model
    sound: only matching records change, order and identities are kept, and updates
    for different files commute. */
module UploadRecords {
  import opened Json

  /** A browser File object. `ref` stands for the object's identity: upload events
      find records with `f.file === file`, reference equality. File values are
      canonical: each `ref` has exactly one File value (a File is never mutated),
      so two File values are equal exactly when they are the same object. */
  datatype File = File(ref: nat, name: string, contentType: string, size: nat)

  /** One entry of the uploader's `files` state. `progress` is a plain number: it
      is neither clamped to 0..100 nor kept monotonic. */
  datatype Record = Record(
    id: string,
    file: File,
    uploading: bool,
    progress: int,
    key: Option<string>,
    isDeleting: bool,
    error: bool,
    objectUrl: Option<string>)

  /** The record onDrop creates for an accepted file, with a fresh id and preview URL. */
  function NewRecord(id: string, file: File, objectUrl: string): (r: Record)
    ensures r.id == id && r.file == file && r.objectUrl == Some(objectUrl)
    ensures !r.uploading && !r.isDeleting && !r.error
    ensures r.progress == 0 && r.key.None?
  {
    Record(id, file, false, 0, None, false, false, Some(objectUrl))
  }

  // ---------------------------------------------------------------------------
  // Record-level changes: the object spreads of the source

  function StartUpload(f: Record): Record { f.(uploading := true) }
  function UploadFailed(f: Record): Record { f.(uploading := false, progress := 0, error := true) }
  function Progressed(f: Record, percent: int, key: string): Record { f.(progress := percent, key := Some(key)) }
  function Uploaded(f: Record): Record { f.(progress := 100, uploading := false, error := false) }
  function StartDelete(f: Record): Record { f.(isDeleting := true) }
  function DeleteFailed(f: Record): Record { f.(isDeleting := false, error := true) }

  // ---------------------------------------------------------------------------
  // Collection-level updaters

  /** `prevFiles.map(f => f.file === file ? change(f) : f)`. */
  function UpdateFile(files: seq<Record>, file: File, change: Record -> Record): (r: seq<Record>)
    ensures |r| == |files|
    ensures forall i :: 0 <= i < |files| && files[i].file != file ==> r[i] == files[i]
    ensures forall i :: 0 <= i < |files| && files[i].file == file ==> r[i] == change(files[i])
  {
    seq(|files|, i requires 0 <= i < |files| => if files[i].file == file then change(files[i]) else files[i])
  }

  /** `prevFiles.map(f => f.id === id ? change(f) : f)`. */
  function UpdateId(files: seq<Record>, id: string, change: Record -> Record): (r: seq<Record>)
    ensures |r| == |files|
    ensures forall i :: 0 <= i < |files| && files[i].id != id ==> r[i] == files[i]
    ensures forall i :: 0 <= i < |files| && files[i].id == id ==> r[i] == change(files[i])
  {
    seq(|files|, i requires 0 <= i < |files| => if files[i].id == id then change(files[i]) else files[i])
  }

  /** `prevFiles.filter(f => f.id !== id)`: every record without that id, and no other. */
  function RemoveId(files: seq<Record>, id: string): (r: seq<Record>)
    ensures |r| <= |files|
    ensures forall i :: 0 <= i < |r| ==> r[i].id != id
  {
    if files == [] then []
    else if files[0].id == id then RemoveId(files[1..], id)
    else [files[0]] + RemoveId(files[1..], id)
  }

  /** `[...prevFiles, ...acceptedFiles.map(...)]`, the ids and preview URLs being
      the values uuidv4() and URL.createObjectURL returned, in order. */
  function AppendBatch(files: seq<Record>, accepted: seq<File>, ids: seq<string>, urls: seq<string>): (r: seq<Record>)
    requires |ids| == |accepted| && |urls| == |accepted|
    ensures |r| == |files| + |accepted|
    ensures r[..|files|] == files
    ensures forall j :: 0 <= j < |accepted| ==> r[|files| + j] == NewRecord(ids[j], accepted[j], urls[j])
  {
    files + seq(|accepted|, j requires 0 <= j < |accepted| => NewRecord(ids[j], accepted[j], urls[j]))
  }

  /** `files.find(f => f.id === id)`: the first record with that id. */
  function FindById(files: seq<Record>, id: string): (r: Option<Record>)
    ensures r.None? <==> forall i :: 0 <= i < |files| ==> files[i].id != id
    ensures r.Some? ==> exists i :: 0 <= i < |files| && files[i] == r.value && r.value.id == id
                                    && forall k :: 0 <= k < i ==> files[k].id != id
  {
    if files == [] then None
    else if files[0].id == id then Some(files[0])
    else
      var rest := FindById(files[1..], id);
      assert rest.Some? ==> exists i :: 1 <= i < |files| && files[i] == rest.value && rest.value.id == id
                                        && forall k :: 0 <= k < i ==> files[k].id != id;
      rest
  }

  // ---------------------------------------------------------------------------
  // Progress

  /** An XMLHttpRequest upload progress event. The XMLHttpRequest Standard sets
      `lengthComputable` exactly when the total length is not 0. */
  datatype ProgressEvent = ProgressEvent(loaded: nat, total: nat) {
    predicate LengthComputable() { total != 0 }
  }

  /** `Math.round(loaded / total * 100)` over exact rationals: the nearest integer,
      halves rounded up. */
  function RoundPercent(loaded: nat, total: nat): (p: nat)
    requires total > 0
    ensures total * (2 * p - 1) <= 200 * loaded < total * (2 * p + 1)
  {
    (200 * loaded + total) / (2 * total)
  }

  /** Multiplying by a positive total keeps strict order. */
  lemma MulStrict(total: nat, a: int, b: int)
    requires total > 0 && a < b
    ensures total * a < total * b
  {
    assert total * b - total * a == total * (b - a);
  }

  /** The rounded percentage lies in 0..100 when `loaded` does not exceed `total`,
      is 0 for nothing sent and exactly 100 for everything sent. */
  lemma RoundPercentBounds(loaded: nat, total: nat)
    requires total > 0
    ensures loaded <= total ==> RoundPercent(loaded, total) <= 100
    ensures loaded == total ==> RoundPercent(loaded, total) == 100
    ensures loaded == 0 ==> RoundPercent(loaded, total) == 0
  {
    var p: int := RoundPercent(loaded, total);
    assert total * (2 * p - 1) <= 200 * loaded < total * (2 * p + 1);
    if loaded <= total && p > 100 {
      MulStrict(total, 200, 2 * p - 1);
    }
    if loaded == total && p < 100 {
      MulStrict(total, 2 * p + 1, 200);
    }
    if loaded == 0 && p > 0 {
      MulStrict(total, 0, 2 * p - 1);
    }
  }

  /** The last event that carries a computable length, if any. */
  function LastComputable(events: seq<ProgressEvent>): (r: Option<ProgressEvent>)
    ensures r.Some? ==> exists i :: 0 <= i < |events| && events[i] == r.value && r.value.LengthComputable()
                                    && forall k :: i < k < |events| ==> !events[k].LengthComputable()
    ensures r.None? <==> forall i :: 0 <= i < |events| ==> !events[i].LengthComputable()
  {
    if events == [] then None
    else
      var n := |events| - 1;
      if events[n].LengthComputable() then Some(events[n])
      else
        var r := LastComputable(events[..n]);
        assert forall i :: 0 <= i < n ==> events[..n][i] == events[i];
        r
  }

  /** The `onprogress` handler's change to a record: percent and key, only for a
      computable event. */
  function ProgressChange(key: string, ev: ProgressEvent): Record -> Record {
    if ev.LengthComputable() then (f: Record) => Progressed(f, RoundPercent(ev.loaded, ev.total), key)
    else (f: Record) => f
  }

  /** A record after a run of progress events: the last computable event decides
      the percent and stores the key; nothing else counts, so a later event with
      a smaller `loaded` lowers the percent. */
  function AfterProgress(f: Record, key: string, events: seq<ProgressEvent>): Record {
    match LastComputable(events)
    case None => f
    case Some(ev) => Progressed(f, RoundPercent(ev.loaded, ev.total), key)
  }

  /** The collection after the upload's `onprogress` handler has run once per event,
      in order. */
  function ApplyProgressEvents(files: seq<Record>, file: File, key: string, events: seq<ProgressEvent>): (r: seq<Record>)
    ensures |r| == |files|
    ensures forall i :: 0 <= i < |files| && files[i].file != file ==> r[i] == files[i]
    ensures forall i :: 0 <= i < |files| && files[i].file == file ==> r[i] == AfterProgress(files[i], key, events)
  {
    if events == [] then files
    else
      var n := |events| - 1;
      var before := ApplyProgressEvents(files, file, key, events[..n]);
      UpdateFile(before, file, ProgressChange(key, events[n]))
  }

  // ---------------------------------------------------------------------------
  // Invariants and properties

  /** No two records share an id. */
  ghost predicate UniqueIds(files: seq<Record>) {
    forall i, j :: 0 <= i < j < |files| ==> files[i].id != files[j].id
  }

  /** Every record's progress is a percentage. */
  ghost predicate ProgressInRange(files: seq<Record>) {
    forall i :: 0 <= i < |files| ==> 0 <= files[i].progress <= 100
  }

  /** A change that keeps a record's id and File. */
  ghost predicate KeepsIdentity(change: Record -> Record) {
    forall f :: change(f).id == f.id && change(f).file == f.file
  }

  lemma SourceChangesKeepIdentity(key: string, ev: ProgressEvent)
    ensures KeepsIdentity(StartUpload) && KeepsIdentity(UploadFailed) && KeepsIdentity(Uploaded)
    ensures KeepsIdentity(StartDelete) && KeepsIdentity(DeleteFailed) && KeepsIdentity(ProgressChange(key, ev))
  {
  }

  /** Updates for two different files commute, so the order in which concurrent
      uploads deliver their events does not change the resulting collection. */
  lemma {:induction false} DistinctFileUpdatesCommute(files: seq<Record>, f1: File, c1: Record -> Record,
                                                      f2: File, c2: Record -> Record)
    requires f1 != f2
    requires KeepsIdentity(c1) && KeepsIdentity(c2)
    ensures UpdateFile(UpdateFile(files, f1, c1), f2, c2) == UpdateFile(UpdateFile(files, f2, c2), f1, c1)
  {
    var a := UpdateFile(UpdateFile(files, f1, c1), f2, c2);
    var b := UpdateFile(UpdateFile(files, f2, c2), f1, c1);
    assert |a| == |b|;
    forall i | 0 <= i < |a| ensures a[i] == b[i] {
      assert c1(files[i]).file == files[i].file && c2(files[i]).file == files[i].file;
    }
  }

  /** An update by File keeps the ids, so it keeps them unique. */
  lemma UpdateFileKeepsUniqueIds(files: seq<Record>, file: File, change: Record -> Record)
    requires UniqueIds(files) && KeepsIdentity(change)
    ensures UniqueIds(UpdateFile(files, file, change))
  {
    var r := UpdateFile(files, file, change);
    forall i | 0 <= i < |files| ensures r[i].id == files[i].id {
      assert change(files[i]).id == files[i].id;
    }
  }

  /** An update by id keeps the ids, so it keeps them unique. */
  lemma UpdateIdKeepsUniqueIds(files: seq<Record>, id: string, change: Record -> Record)
    requires UniqueIds(files) && KeepsIdentity(change)
    ensures UniqueIds(UpdateId(files, id, change))
  {
    var r := UpdateId(files, id, change);
    forall i | 0 <= i < |files| ensures r[i].id == files[i].id {
      assert change(files[i]).id == files[i].id;
    }
  }

  /** The filter keeps every record without the id, and no other record. */
  lemma {:induction false} RemoveIdMembers(files: seq<Record>, id: string)
    ensures forall f :: f in RemoveId(files, id) <==> f in files && f.id != id
  {
    if files != [] {
      RemoveIdMembers(files[1..], id);
      assert forall f :: f in files <==> f == files[0] || f in files[1..];
    }
  }

  /** Filtering out one id, when ids are unique, removes exactly the record at its
      position and keeps the others in their original order. */
  lemma {:induction false} RemoveIdDropsExactlyOne(files: seq<Record>, id: string, j: int)
    requires UniqueIds(files)
    requires 0 <= j < |files| && files[j].id == id
    ensures RemoveId(files, id) == files[..j] + files[j + 1..]
  {
    var tail := files[1..];
    if j == 0 {
      UniqueHeadAbsentFromTail(files);
      RemoveIdAbsent(tail, id);
      assert files[..0] + files[1..] == tail;
    } else {
      UniqueIdsTail(files);
      assert files[0].id != id && tail[j - 1] == files[j];
      RemoveIdDropsExactlyOne(tail, id, j - 1);
      assert files[..j] + files[j + 1..] == [files[0]] + (tail[..j - 1] + tail[j..]);
    }
  }

  /** With unique ids, the first record's id occurs nowhere after it. */
  lemma UniqueHeadAbsentFromTail(files: seq<Record>)
    requires UniqueIds(files) && files != []
    ensures forall i :: 0 <= i < |files| - 1 ==> files[1..][i].id != files[0].id
  {
    forall i | 0 <= i < |files| - 1 ensures files[1..][i].id != files[0].id {
      assert files[1..][i] == files[i + 1];
    }
  }

  /** The records after the first still have unique ids. */
  lemma UniqueIdsTail(files: seq<Record>)
    requires UniqueIds(files) && files != []
    ensures UniqueIds(files[1..])
  {
    var tail := files[1..];
    forall a, b | 0 <= a < b < |tail| ensures tail[a].id != tail[b].id {
      assert tail[a] == files[a + 1] && tail[b] == files[b + 1];
    }
  }

  /** Filtering out an id that no record has changes nothing. */
  lemma {:induction false} RemoveIdAbsent(files: seq<Record>, id: string)
    requires forall i :: 0 <= i < |files| ==> files[i].id != id
    ensures RemoveId(files, id) == files
  {
    if files != [] {
      RemoveIdAbsent(files[1..], id);
      assert [files[0]] + files[1..] == files;
    }
  }

  /** Removing by id keeps the remaining ids unique. */
  lemma {:induction false} RemoveIdKeepsUniqueIds(files: seq<Record>, id: string)
    requires UniqueIds(files)
    ensures UniqueIds(RemoveId(files, id))
  {
    if exists j :: 0 <= j < |files| && files[j].id == id {
      var j :| 0 <= j < |files| && files[j].id == id;
      RemoveIdDropsExactlyOne(files, id, j);
      var r := files[..j] + files[j + 1..];
      forall a, b | 0 <= a < b < |r| ensures r[a].id != r[b].id {
        var a' := if a < j then a else a + 1;
        var b' := if b < j then b else b + 1;
        assert r[a] == files[a'] && r[b] == files[b'];
      }
    } else {
      RemoveIdAbsent(files, id);
    }
  }

  /** Appending a batch whose ids are fresh and pairwise distinct keeps ids unique. */
  lemma AppendBatchKeepsUniqueIds(files: seq<Record>, accepted: seq<File>, ids: seq<string>, urls: seq<string>)
    requires |ids| == |accepted| && |urls| == |accepted|
    requires UniqueIds(files)
    requires forall a, b :: 0 <= a < b < |ids| ==> ids[a] != ids[b]
    requires forall a, i :: 0 <= a < |ids| && 0 <= i < |files| ==> ids[a] != files[i].id
    ensures UniqueIds(AppendBatch(files, accepted, ids, urls))
  {
    var r := AppendBatch(files, accepted, ids, urls);
    forall i, j | 0 <= i < j < |r| ensures r[i].id != r[j].id {
      if i < |files| {
        assert r[i] == files[i];
        if j >= |files| { assert r[j].id == ids[j - |files|]; }
      } else {
        assert r[i].id == ids[i - |files|] && r[j].id == ids[j - |files|];
      }
    }
  }

  /** With every event's `loaded` at most its `total`, progress events keep every
      percentage in 0..100. */
  lemma ProgressEventsKeepRange(files: seq<Record>, file: File, key: string, events: seq<ProgressEvent>)
    requires ProgressInRange(files)
    requires forall e :: e in events ==> e.loaded <= e.total
    ensures ProgressInRange(ApplyProgressEvents(files, file, key, events))
  {
    var r := ApplyProgressEvents(files, file, key, events);
    var last := LastComputable(events);
    if last.Some? {
      RoundPercentBounds(last.value.loaded, last.value.total);
    }
  }

  /** There is no clamp: a computable event with a smaller `loaded` after a larger
      one leaves the smaller percentage. */
  lemma ProgressCanDecrease(files: seq<Record>, file: File, key: string, i: int)
    requires 0 <= i < |files| && files[i].file == file
    ensures ApplyProgressEvents(files, file, key, [ProgressEvent(90, 100), ProgressEvent(10, 100)])[i].progress == 10
  {
    var events := [ProgressEvent(90, 100), ProgressEvent(10, 100)];
    assert LastComputable(events) == Some(ProgressEvent(10, 100));
  }

  /** An event with no computable length changes nothing, key included. */
  lemma NonComputableProgressIgnored(files: seq<Record>, file: File, key: string, loaded: nat)
    ensures ApplyProgressEvents(files, file, key, [ProgressEvent(loaded, 0)]) == files
  {
    var events := [ProgressEvent(loaded, 0)];
    assert LastComputable(events[..0]) == None;
    var r := ApplyProgressEvents(files, file, key, events);
    assert forall i :: 0 <= i < |files| ==> r[i] == files[i];
  }
}
