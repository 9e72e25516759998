/** How the Cloudinary service turns the URL of an uploaded image into the
    public id it asks Cloudinary to destroy. The destroy call itself is
    outside the model. */
module Cloudinary {
  import opened Wrappers
  import opened Strings

  predicate IsDigit(c: char) {
    '0' <= c <= '9'
  }

  predicate AllDigits(s: string) {
    forall i :: 0 <= i < |s| ==> IsDigit(s[i])
  }

  /** `/^v\d+$/`: a version segment such as `v1712345678`. */
  predicate IsVersion(part: string) {
    |part| >= 2 && part[0] == 'v' && AllDigits(part[1..])
  }

  /** `/^\d+$/` */
  predicate IsNumber(part: string) {
    |part| >= 1 && AllDigits(part)
  }

  /** The segments the folder path leaves out. */
  predicate Skipped(part: string) {
    IsVersion(part) || IsNumber(part)
  }

  /** `parts.findIndex(part => part === w)`, `None` for -1. */
  function FindIndex(parts: seq<string>, w: string): (r: Option<nat>)
    ensures r.Some? ==> r.value < |parts| && parts[r.value] == w
    ensures r.Some? ==> forall j :: 0 <= j < r.value ==> parts[j] != w
    ensures r.None? <==> w !in parts
    decreases |parts|
  {
    if |parts| == 0 then None
    else if parts[0] == w then Some(0)
    else match FindIndex(parts[1..], w)
      case None => None
      case Some(k) => Some(k + 1)
  }

  /** `parts.filter(part => !part.match(/^v\d+$/) && !part.match(/^\d+$/))` */
  function FolderParts(parts: seq<string>): (r: seq<string>)
    ensures |r| <= |parts|
    ensures forall i :: 0 <= i < |r| ==> !Skipped(r[i]) && r[i] in parts
    ensures forall x :: x in parts && !Skipped(x) ==> x in r
    decreases |parts|
  {
    if |parts| == 0 then []
    else if Skipped(parts[0]) then FolderParts(parts[1..])
    else [parts[0]] + FolderParts(parts[1..])
  }

  /** A folder list with no version or number segment is kept whole. */
  lemma {:induction false} FolderPartsKeepsFolders(parts: seq<string>)
    requires forall i :: 0 <= i < |parts| ==> !Skipped(parts[i])
    ensures FolderParts(parts) == parts
    decreases |parts|
  {
    if |parts| > 0 {
      FolderPartsKeepsFolders(parts[1..]);
    }
  }

  /** A list of version and number segments is dropped whole. */
  lemma {:induction false} FolderPartsDropsSkipped(parts: seq<string>)
    requires forall i :: 0 <= i < |parts| ==> Skipped(parts[i])
    ensures FolderParts(parts) == []
    decreases |parts|
  {
    if |parts| > 0 {
      FolderPartsDropsSkipped(parts[1..]);
    }
  }

  /** The filter works segment by segment: filtering a concatenation is
      concatenating the filtered halves, so the kept segments stay in their
      order. */
  lemma {:induction false} FolderPartsAppend(a: seq<string>, b: seq<string>)
    ensures FolderParts(a + b) == FolderParts(a) + FolderParts(b)
    decreases |a|
  {
    if |a| > 0 {
      assert (a + b)[0] == a[0];
      assert (a + b)[1..] == a[1..] + b;
      FolderPartsAppend(a[1..], b);
    } else {
      assert a + b == b;
    }
  }

  /** The public id built from the segments after `upload`: the folders,
      version and number segments left out, then the file name cut at its
      first `.`; `None` when no segment follows `upload`. */
  function PublicIdOfPath(pathParts: seq<string>): (r: Option<string>)
    ensures r.None? <==> |pathParts| == 0
  {
    if |pathParts| == 0 then None
    else
      var filename := Split(pathParts[|pathParts| - 1], '.')[0];
      var folderPath := Join(FolderParts(pathParts[..|pathParts| - 1]), '/');
      Some(if folderPath != "" then folderPath + "/" + filename else filename)
  }

  /** The public id `deleteImage` destroys, or `None` when it returns early
      (empty or non-http URL, no `upload` segment, nothing after it). */
  function PublicId(imageUrl: string): (r: Option<string>)
    ensures !HasPrefix(imageUrl, "http") ==> r.None?
    ensures "upload" !in Split(imageUrl, '/') ==> r.None?
    ensures r.Some? ==> exists k :: 0 <= k < |Split(imageUrl, '/')| - 1 && Split(imageUrl, '/')[k] == "upload"
  {
    if imageUrl == "" || !HasPrefix(imageUrl, "http") then None
    else
      var urlParts := Split(imageUrl, '/');
      match FindIndex(urlParts, "upload")
      case None => None
      case Some(k) => PublicIdOfPath(urlParts[k + 1..])
  }

  /** `findIndex` finds the first occurrence. */
  lemma FindIndexAt(parts: seq<string>, w: string, n: nat)
    requires n < |parts| && parts[n] == w
    requires forall j :: 0 <= j < n ==> parts[j] != w
    ensures FindIndex(parts, w) == Some(n)
  {
    var k := FindIndex(parts, w);
    assert k.Some? && k.value <= n;
  }

  /** `join` begins with the first part. */
  lemma JoinStartsWithFirst(parts: seq<string>, sep: char)
    requires |parts| >= 1
    ensures |Join(parts, sep)| >= |parts[0]| && Join(parts, sep)[..|parts[0]|] == parts[0]
  {
  }

  /** Slash-free segments, the first starting with `http`, whose first
      `upload` segment is at position `n`. */
  predicate UploadAt(parts: seq<string>, n: nat) {
    && n < |parts| && parts[n] == "upload"
    && (forall j :: 0 <= j < n ==> parts[j] != "upload")
    && HasPrefix(parts[0], "http")
    && (forall i :: 0 <= i < |parts| ==> '/' !in parts[i])
  }

  /** Joined at slashes, such segments form a URL whose public id is built
      from the segments after position `n` alone. */
  lemma {:induction false} PublicIdAfterUpload(parts: seq<string>, n: nat)
    requires UploadAt(parts, n)
    ensures PublicId(Join(parts, '/')) == PublicIdOfPath(parts[n + 1..])
  {
    var url := Join(parts, '/');
    SplitJoin(parts, '/');
    JoinStartsWithFirst(parts, '/');
    assert url[..4] == parts[0][..4];
    FindIndexAt(parts, "upload", n);
  }

  /** After `upload`: a version, folders and `name.ext` give
      `folder/…/name`. */
  lemma {:induction false} PathWithFolders(version: string, folders: seq<string>, name: string, ext: string)
    requires Skipped(version) && |folders| >= 1 && folders[0] != ""
    requires forall i :: 0 <= i < |folders| ==> !Skipped(folders[i])
    requires '.' !in name
    ensures PublicIdOfPath([version] + folders + [name + "." + ext]) == Some(Join(folders, '/') + "/" + name)
  {
    var pathParts := [version] + folders + [name + "." + ext];
    assert pathParts[|pathParts| - 1] == name + ['.'] + ext;
    SplitCons(name, ext, '.');
    assert pathParts[..|pathParts| - 1] == [version] + folders;
    assert ([version] + folders)[1..] == folders;
    FolderPartsKeepsFolders(folders);
    JoinStartsWithFirst(folders, '/');
  }

  /** After `upload`: a version and `name.ext` give `name`. */
  lemma {:induction false} PathWithoutFolder(version: string, name: string, ext: string)
    requires Skipped(version) && '.' !in name
    ensures PublicIdOfPath([version, name + "." + ext]) == Some(name)
  {
    var pathParts := [version, name + "." + ext];
    assert pathParts[1] == name + ['.'] + ext;
    SplitCons(name, ext, '.');
    assert pathParts[..1] == [version];
    assert FolderParts([version]) == [];
  }

  /** The URL Cloudinary hands out for an upload, as segments: scheme and
      host, `upload`, the version, the folders and `name.ext`. */
  predicate UploadUrlParts(head: seq<string>, version: string, folders: seq<string>, name: string, ext: string) {
    && |head| >= 1 && HasPrefix(head[0], "http")
    && (forall i :: 0 <= i < |head| ==> '/' !in head[i] && head[i] != "upload")
    && Skipped(version) && '/' !in version
    && (forall i :: 0 <= i < |folders| ==> '/' !in folders[i] && !Skipped(folders[i]))
    && '/' !in name && '.' !in name && '/' !in ext
  }

  lemma {:induction false} UploadUrlAt(head: seq<string>, version: string, folders: seq<string>, name: string, ext: string)
    requires UploadUrlParts(head, version, folders, name, ext)
    ensures UploadAt(head + ["upload"] + ([version] + folders + [name + "." + ext]), |head|)
  {
    var parts := head + ["upload"] + ([version] + folders + [name + "." + ext]);
    forall i | 0 <= i < |parts|
      ensures '/' !in parts[i]
    {
      if i < |head| {
        assert parts[i] == head[i];
      } else if i == |head| + 1 {
        assert parts[i] == version;
      } else if |head| + 1 < i < |parts| - 1 {
        assert parts[i] == folders[i - |head| - 2];
      }
    }
    assert forall j :: 0 <= j < |head| ==> parts[j] == head[j];
  }

  lemma SegmentsAfterUpload(head: seq<string>, rest: seq<string>)
    ensures (head + ["upload"] + rest)[|head| + 1..] == rest
  {
  }

  /** An upload URL with folders yields `folder/…/name`: the version is
      dropped and the extension cut off. */
  lemma {:induction false} PublicIdWithFolders(head: seq<string>, version: string, folders: seq<string>, name: string, ext: string)
    requires UploadUrlParts(head, version, folders, name, ext)
    requires |folders| >= 1 && folders[0] != ""
    ensures PublicId(Join(head + ["upload"] + ([version] + folders + [name + "." + ext]), '/'))
         == Some(Join(folders, '/') + "/" + name)
  {
    var parts := head + ["upload"] + ([version] + folders + [name + "." + ext]);
    UploadUrlAt(head, version, folders, name, ext);
    PublicIdAfterUpload(parts, |head|);
    SegmentsAfterUpload(head, [version] + folders + [name + "." + ext]);
    PathWithFolders(version, folders, name, ext);
  }

  /** An upload URL with no folder yields the bare file name. */
  lemma {:induction false} PublicIdWithoutFolder(head: seq<string>, version: string, name: string, ext: string)
    requires UploadUrlParts(head, version, [], name, ext)
    ensures PublicId(Join(head + ["upload"] + [version, name + "." + ext], '/')) == Some(name)
  {
    var parts := head + ["upload"] + [version, name + "." + ext];
    UploadUrlAt(head, version, [], name, ext);
    assert [version] + [] + [name + "." + ext] == [version, name + "." + ext];
    PublicIdAfterUpload(parts, |head|);
    SegmentsAfterUpload(head, [version, name + "." + ext]);
    PathWithoutFolder(version, name, ext);
  }

  /** A URL whose only `upload` segment is its last has nothing to delete. */
  lemma {:induction false} NothingAfterUpload(head: seq<string>)
    requires |head| >= 1 && HasPrefix(head[0], "http")
    requires forall i :: 0 <= i < |head| ==> '/' !in head[i] && head[i] != "upload"
    ensures PublicId(Join(head + ["upload"], '/')).None?
  {
    var parts := head + ["upload"];
    assert forall j :: 0 <= j < |head| ==> parts[j] == head[j];
    PublicIdAfterUpload(parts, |head|);
    assert parts[|head| + 1..] == [];
  }
}
