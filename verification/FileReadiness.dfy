/** File uploads: the sync of upload rows with the object bucket and the upload check. */
module FileReadiness {
  import opened Options
  import opened Sets

  datatype UploadStatus = Uploaded | Pending | Uploading | Removed | Failed

  /** A row of the upload table; an empty bucket name stands for the service's own bucket. */
  datatype Upload = Upload(bucket: string, objectKey: string, status: UploadStatus)

  type Uploads = map<nat, Upload>

  /** Bucket and key of every stored object. */
  type Objects = set<(string, string)>

  function Location(u: Upload, ownBucket: string): (string, string) {
    (if u.bucket == "" then ownBucket else u.bucket, u.objectKey)
  }

  predicate Stored(uploads: Uploads, objects: Objects, ownBucket: string, id: nat)
    requires id in uploads
  {
    Location(uploads[id], ownBucket) in objects
  }

  /** The rows after `syncAndCheckMissingFiles`: a row whose object is gone becomes REMOVED. */
  function Synced(uploads: Uploads, objects: Objects, ownBucket: string, ids: seq<nat>): Uploads {
    map id | id in uploads ::
      if id in ids && !Stored(uploads, objects, ownBucket, id) then uploads[id].(status := Removed) else uploads[id]
  }

  predicate AnyMissing(uploads: Uploads, objects: Objects, ownBucket: string, ids: seq<nat>) {
    exists id | id in ids :: id in uploads && !Stored(uploads, objects, ownBucket, id)
  }

  /** The UPLOADED rows among the given ids. */
  function UploadedRows(uploads: Uploads, ids: seq<nat>): set<nat> {
    set id | id in ids && id in uploads && uploads[id].status == Uploaded
  }

  /** `areFilesUploaded`: as many rows as ids. */
  predicate FilesUploaded(uploads: Uploads, ids: seq<nat>) {
    |UploadedRows(uploads, ids)| == |ids|
  }

  predicate Distinct(ids: seq<nat>) {
    forall i, j | 0 <= i < j < |ids| :: ids[i] != ids[j]
  }

  function Elements(ids: seq<nat>): set<nat> {
    set id | id in ids
  }

  lemma {:induction false} ElementsCount(ids: seq<nat>)
    ensures |Elements(ids)| <= |ids|
    ensures |Elements(ids)| == |ids| <==> Distinct(ids)
  {
    if ids != [] {
      var n := |ids| - 1;
      var front := ids[..n];
      ElementsCount(front);
      assert ids == front + [ids[n]];
      assert Elements(ids) == Elements(front) + {ids[n]};
      if ids[n] in Elements(front) {
        assert Elements(ids) == Elements(front);
        var i :| 0 <= i < n && front[i] == ids[n];
        assert ids[i] == ids[n];
      } else {
        assert Distinct(front) ==> Distinct(ids) by {
          assert forall i | 0 <= i < n :: front[i] in Elements(front);
        }
        assert Distinct(ids) ==> Distinct(front) by {
          assert forall i | 0 <= i < n :: front[i] == ids[i];
        }
      }
    }
  }

  /** Counting rows is exact: the check passes if and only if the ids are distinct and every one of
      them has an UPLOADED row. */
  lemma FilesUploadedIff(uploads: Uploads, ids: seq<nat>)
    ensures FilesUploaded(uploads, ids) <==> Distinct(ids) && forall id | id in ids ::
              id in uploads && uploads[id].status == Uploaded
  {
    var rows := UploadedRows(uploads, ids);
    assert rows <= Elements(ids);
    SubsetSize(rows, Elements(ids));
    ElementsCount(ids);
    if FilesUploaded(uploads, ids) {
      assert rows == Elements(ids);
      forall id | id in ids ensures id in uploads && uploads[id].status == Uploaded {
        assert id in Elements(ids);
      }
    } else if forall id | id in ids :: id in uploads && uploads[id].status == Uploaded {
      assert rows == Elements(ids);
    }
  }

  datatype ArtifactKind = File | DockerImage | Rpm | Deb

  datatype Artifact = Artifact(kind: ArtifactKind, isInstallation: bool, upload: Option<nat>)

  /** Installation artifacts of one of the kinds. */
  function Installation(artifacts: seq<Artifact>): seq<Artifact> {
    if artifacts == [] then []
    else
      var n := |artifacts| - 1;
      Installation(artifacts[..n]) + (if artifacts[n].isInstallation then [artifacts[n]] else [])
  }

  function FileIds(artifacts: seq<Artifact>): seq<nat> {
    if artifacts == [] then []
    else
      var n, a := |artifacts| - 1, artifacts[|artifacts| - 1];
      FileIds(artifacts[..n]) + (if a.kind == File && a.isInstallation && a.upload.Some? then [a.upload.value] else [])
  }

  predicate HasInstallationFile(artifacts: seq<Artifact>) {
    exists i | 0 <= i < |artifacts| :: artifacts[i].isInstallation && artifacts[i].kind == File
  }

  predicate HasInstallation(artifacts: seq<Artifact>) {
    exists i | 0 <= i < |artifacts| :: artifacts[i].isInstallation
  }

  /** `fileUploaded`: with file artifacts all their uploads must be done, without them docker images
      and packages are always ready. */
  predicate FilesReady(uploads: Uploads, artifacts: seq<Artifact>) {
    HasInstallation(artifacts) && (HasInstallationFile(artifacts) ==> FilesUploaded(uploads, FileIds(artifacts)))
  }

  lemma {:induction false} FileIdsHave(artifacts: seq<Artifact>, i: nat)
    requires i < |artifacts| && artifacts[i].kind == File && artifacts[i].isInstallation && artifacts[i].upload.Some?
    ensures artifacts[i].upload.value in FileIds(artifacts)
  {
    var n := |artifacts| - 1;
    if i < n {
      FileIdsHave(artifacts[..n], i);
    }
  }

  /** When the readiness check passes on synced rows for a release with installation files, every
      upload of one of them is UPLOADED and its object exists. */
  lemma ReadyMeansStored(uploads: Uploads, objects: Objects, ownBucket: string, artifacts: seq<Artifact>, i: nat)
    requires FilesReady(Synced(uploads, objects, ownBucket, FileIds(artifacts)), artifacts)
    requires i < |artifacts| && artifacts[i].kind == File && artifacts[i].isInstallation && artifacts[i].upload.Some?
    ensures var id := artifacts[i].upload.value;
            id in uploads && uploads[id].status == Uploaded && Stored(uploads, objects, ownBucket, id)
  {
    FileIdsHave(artifacts, i);
    FilesUploadedIff(Synced(uploads, objects, ownBucket, FileIds(artifacts)), FileIds(artifacts));
  }

  /** What the sync does: exactly the rows of the given ids whose object is gone become REMOVED, where
      the object of a row without a bucket name is looked for in the service's own bucket. */
  lemma SyncedRow(uploads: Uploads, objects: Objects, ownBucket: string, ids: seq<nat>, id: nat)
    requires id in uploads
    ensures var u := uploads[id];
            var gone := (if u.bucket == "" then ownBucket else u.bucket, u.objectKey) !in objects;
            var synced := Synced(uploads, objects, ownBucket, ids);
            && synced.Keys == uploads.Keys && synced[id].bucket == u.bucket && synced[id].objectKey == u.objectKey
            && synced[id].status == if id in ids && gone then Removed else u.status
  {
  }

  /** Distinct uploads, each UPLOADED with its object in the store. */
  ghost predicate AllStored(uploads: Uploads, objects: Objects, ownBucket: string, ids: seq<nat>) {
    Distinct(ids) && forall id | id in ids ::
      id in uploads && uploads[id].status == Uploaded && Stored(uploads, objects, ownBucket, id)
  }

  /** Exactly when the readiness check passes on synced rows. */
  lemma ReadyIff(uploads: Uploads, objects: Objects, ownBucket: string, artifacts: seq<Artifact>)
    ensures FilesReady(Synced(uploads, objects, ownBucket, FileIds(artifacts)), artifacts)
       <==> HasInstallation(artifacts)
            && (HasInstallationFile(artifacts) ==> AllStored(uploads, objects, ownBucket, FileIds(artifacts)))
  {
    hide Distinct, HasInstallation, HasInstallationFile, FilesUploaded;
    var ids := FileIds(artifacts);
    hide FileIds;
    FilesUploadedIff(Synced(uploads, objects, ownBucket, ids), ids);
  }

  /** Which ids are checked: those of the uploads of installation artifacts that are files. */
  lemma {:induction false} FileIdsIff(artifacts: seq<Artifact>, id: nat)
    ensures id in FileIds(artifacts) <==> Artifact(File, true, Some(id)) in artifacts
  {
    if artifacts != [] {
      var n := |artifacts| - 1;
      FileIdsIff(artifacts[..n], id);
      assert artifacts == artifacts[..n] + [artifacts[n]];
    }
  }

  /** The upload rows as the service's table. */
  class FileUploadService {
    const ownBucket: string
    var uploads: Uploads
    var objects: Objects

    constructor (ownBucket: string)
      ensures this.ownBucket == ownBucket && uploads == map[] && objects == {}
    {
      this.ownBucket := ownBucket;
      uploads, objects := map[], {};
    }

    method SyncAndCheckMissingFiles(ids: seq<nat>) returns (anyMissing: bool)
      modifies this`uploads
      ensures uploads == Synced(old(uploads), objects, ownBucket, ids)
      ensures anyMissing == AnyMissing(old(uploads), objects, ownBucket, ids)
    {
      anyMissing := false;
      var todo := set id | id in ids && id in uploads;
      while todo != {}
        invariant todo <= set id | id in ids && id in old(uploads)
        invariant uploads.Keys == old(uploads).Keys
        invariant forall id | id in uploads ::
                    uploads[id] == if id in ids && id !in todo && !Stored(old(uploads), objects, ownBucket, id)
                                   then old(uploads)[id].(status := Removed) else old(uploads)[id]
        invariant anyMissing <==> exists id | id in ids ::
                    id in old(uploads) && id !in todo && !Stored(old(uploads), objects, ownBucket, id)
        decreases todo
      {
        var id :| id in todo;
        if Location(uploads[id], ownBucket) !in objects {
          anyMissing := true;
          assert id in ids && !Stored(old(uploads), objects, ownBucket, id);
          if uploads[id].status != Removed {
            uploads := uploads[id := uploads[id].(status := Removed)];
          }
        }
        todo := todo - {id};
      }
    }

    method AreFilesUploaded(ids: seq<nat>) returns (all: bool)
      ensures all == FilesUploaded(uploads, ids)
    {
      var uploaded := set id | id in ids && id in uploads && uploads[id].status == Uploaded;
      assert uploaded == UploadedRows(uploads, ids);
      all := |uploaded| == |ids|;
    }
  }
}
