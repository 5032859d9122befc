/**
 * The upload endpoints: a single avatar, and up to nine goods images uploaded one by
 * one, each checked for being an image and for its size before it is stored.
 */
module Upload {
  import opened Common
  import AliOss

  const AVATAR_MAX_BYTES := 2 * 1024 * 1024
  const GOODS_IMAGE_MAX_BYTES := 5 * 1024 * 1024
  const MAX_GOODS_IMAGES := 9

  const NO_FILE_MESSAGE := "请选择要上传的文件"
  const NOT_IMAGE_MESSAGE := "只能上传图片文件"
  const AVATAR_TOO_LARGE_MESSAGE := "头像文件大小不能超过2MB"
  const TOO_MANY_MESSAGE := "最多上传9张图片"
  const IMAGE_TOO_LARGE_MESSAGE := "单张图片大小不能超过5MB"

  /** A multipart file: its client-side name, declared content type and size in bytes. */
  datatype UploadFile = UploadFile(originalFilename: Option<string>, contentType: Option<string>, size: nat)

  predicate IsEmpty(f: UploadFile) {
    f.size == 0
  }

  predicate IsImage(f: UploadFile) {
    f.contentType.Some? && StartsWith(f.contentType.value, "image/")
  }

  /** The endpoint's answer: data, an error message, or an exception thrown by the storage step. */
  datatype Reply<T> = Success(data: T) | Error(message: string) | Thrown

  /** The first avatar check that fails: no file, not an image, larger than 2 MiB. */
  function AvatarRejection(file: Option<UploadFile>): (m: Option<string>)
    ensures m == Some(NO_FILE_MESSAGE) <==> file.None? || IsEmpty(file.value)
    ensures m == Some(NOT_IMAGE_MESSAGE) <==> file.Some? && !IsEmpty(file.value) && !IsImage(file.value)
    ensures m == Some(AVATAR_TOO_LARGE_MESSAGE) <==>
      file.Some? && !IsEmpty(file.value) && IsImage(file.value) && file.value.size > AVATAR_MAX_BYTES
    ensures m.None? <==> file.Some? && !IsEmpty(file.value) && IsImage(file.value) && file.value.size <= AVATAR_MAX_BYTES
  {
    if file.None? || IsEmpty(file.value) then Some(NO_FILE_MESSAGE)
    else if !IsImage(file.value) then Some(NOT_IMAGE_MESSAGE)
    else if file.value.size > AVATAR_MAX_BYTES then Some(AVATAR_TOO_LARGE_MESSAGE)
    else None
  }

  /** `uploadAvatar`: nothing reaches storage unless every check passes. */
  method UploadAvatar(oss: AliOss.OssBucket, file: Option<UploadFile>, uuid: string, storeOk: bool) returns (r: Reply<string>)
    modifies oss
    ensures AvatarRejection(file).Some? ==> r == Error(AvatarRejection(file).value) && oss.objects == old(oss.objects)
    ensures AvatarRejection(file).None? ==>
      var u := AliOss.UploadResult(oss.bucket, oss.endpoint, file.value.originalFilename, AliOss.AVATAR_FOLDER, uuid, storeOk);
      && (u.Stored? ==> r == Success(u.url) && oss.objects == old(oss.objects) + {u.objectName})
      && (!u.Stored? ==> r == Thrown && oss.objects == old(oss.objects))
  {
    var rejection := AvatarRejection(file);
    if rejection.Some? {
      return Error(rejection.value);
    }
    var u := oss.Upload(file.value.originalFilename, AliOss.AVATAR_FOLDER, uuid, storeOk);
    if u.Stored? {
      return Success(u.url);
    }
    return Thrown;
  }

  /** What becomes of one file of a goods-image batch. */
  datatype FileFate = Skipped | NotImage | TooLarge | StoreThrew | Uploaded(url: string, objectName: string)

  predicate Fine(fate: FileFate) {
    fate.Skipped? || fate.Uploaded?
  }

  /** One file's fate: an empty file is skipped, then the type check, then the size check, then storage. */
  function FateOf(bucket: string, endpoint: string, f: UploadFile, uuid: string, storeOk: bool): (fate: FileFate)
    ensures fate.Skipped? <==> IsEmpty(f)
    ensures fate.NotImage? <==> !IsEmpty(f) && !IsImage(f)
    ensures fate.TooLarge? <==> !IsEmpty(f) && IsImage(f) && f.size > GOODS_IMAGE_MAX_BYTES
    ensures fate.Uploaded? <==>
      !IsEmpty(f) && IsImage(f) && f.size <= GOODS_IMAGE_MAX_BYTES && AliOss.Extension(f.originalFilename).Some? && storeOk
    ensures fate.Uploaded? ==>
      StartsWith(fate.objectName, AliOss.GOODS_FOLDER + "/")
      && AliOss.ObjectNameOfUrl(bucket, endpoint, fate.url) == Some(fate.objectName)
  {
    if IsEmpty(f) then Skipped
    else if !IsImage(f) then NotImage
    else if f.size > GOODS_IMAGE_MAX_BYTES then TooLarge
    else
      var u := AliOss.UploadResult(bucket, endpoint, f.originalFilename, AliOss.GOODS_FOLDER, uuid, storeOk);
      if u.Stored? then Uploaded(u.url, u.objectName) else StoreThrew
  }

  function Fates(bucket: string, endpoint: string, files: seq<UploadFile>, uuids: seq<string>, storeOks: seq<bool>): (r: seq<FileFate>)
    requires |uuids| == |files| && |storeOks| == |files|
    ensures |r| == |files| && forall i :: 0 <= i < |files| ==> r[i] == FateOf(bucket, endpoint, files[i], uuids[i], storeOks[i])
  {
    seq(|files|, i requires 0 <= i < |files| => FateOf(bucket, endpoint, files[i], uuids[i], storeOks[i]))
  }

  /** The URLs and object names of the uploaded files, in order. */
  function UploadedUrls(fates: seq<FileFate>): (r: seq<string>)
    decreases |fates|
  {
    if fates == [] then [] else (if fates[0].Uploaded? then [fates[0].url] else []) + UploadedUrls(fates[1..])
  }

  function UploadedNames(fates: seq<FileFate>): (r: seq<string>)
    ensures |r| == |UploadedUrls(fates)|
    decreases |fates|
  {
    if fates == [] then [] else (if fates[0].Uploaded? then [fates[0].objectName] else []) + UploadedNames(fates[1..])
  }

  function CountNonSkipped(fates: seq<FileFate>): nat
    decreases |fates|
  {
    if fates == [] then 0 else (if fates[0].Skipped? then 0 else 1) + CountNonSkipped(fates[1..])
  }

  /**
   * The batch processed file by file: the reply, and the objects stored along the
   * way. The batch stops at the first file that fails a check or whose storage throws.
   */
  function Batch(fates: seq<FileFate>): (r: (Reply<seq<string>>, seq<string>))
    decreases |fates|
  {
    if fates == [] then (Success([]), [])
    else match fates[0]
      case Skipped => Batch(fates[1..])
      case NotImage => (Error(NOT_IMAGE_MESSAGE), [])
      case TooLarge => (Error(IMAGE_TOO_LARGE_MESSAGE), [])
      case StoreThrew => (Thrown, [])
      case Uploaded(url, name) =>
        var rest := Batch(fates[1..]);
        (if rest.0.Success? then Success([url] + rest.0.data) else rest.0, [name] + rest.1)
  }

  /** A batch succeeds exactly when every file is skipped or uploaded. */
  lemma {:induction false} BatchSucceeds(fates: seq<FileFate>)
    ensures Batch(fates).0.Success? <==> forall i :: 0 <= i < |fates| ==> Fine(fates[i])
    decreases |fates|
  {
    if fates != [] {
      BatchSucceeds(fates[1..]);
      assert forall i :: 1 <= i < |fates| ==> fates[i] == fates[1..][i - 1];
    }
  }

  /** A successful batch returns one URL per non-empty file, in input order, and stores exactly those objects. */
  lemma {:induction false} BatchSuccessLists(fates: seq<FileFate>)
    requires Batch(fates).0.Success?
    ensures Batch(fates).0.data == UploadedUrls(fates) && Batch(fates).1 == UploadedNames(fates)
    ensures |Batch(fates).0.data| == CountNonSkipped(fates)
    decreases |fates|
  {
    if fates != [] {
      BatchSuccessLists(fates[1..]);
    }
  }

  /**
   * A failing batch stops at the first file that is not skipped or uploaded: that
   * file's check decides the reply, and every file before it stays stored.
   */
  lemma {:induction false} BatchStopsAtFirstFailure(fates: seq<FileFate>)
    requires !Batch(fates).0.Success?
    ensures exists j ::
      && 0 <= j < |fates| && !Fine(fates[j]) && (forall i :: 0 <= i < j ==> Fine(fates[i]))
      && Batch(fates).1 == UploadedNames(fates[..j])
      && Batch(fates).0 == FailureReply(fates[j])
    decreases |fates|
  {
    var rest := fates[1..];
    if !Fine(fates[0]) {
      assert fates[..0] == [];
      assert !Fine(fates[0]) && Batch(fates).1 == UploadedNames(fates[..0]);
    } else {
      BatchStopsAtFirstFailure(rest);
      var j :| 0 <= j < |rest| && !Fine(rest[j]) && (forall i :: 0 <= i < j ==> Fine(rest[i]))
        && Batch(rest).1 == UploadedNames(rest[..j]) && Batch(rest).0 == FailureReply(rest[j]);
      assert fates[..j + 1][1..] == rest[..j];
      assert fates[..j + 1][0] == fates[0];
      assert rest[j] == fates[j + 1];
      assert forall i :: 0 <= i < j + 1 ==> Fine(fates[i]) by {
        forall i | 1 <= i < j + 1 ensures Fine(fates[i]) {
          assert fates[i] == rest[i - 1];
        }
      }
    }
  }

  /** The reply of a batch stopped by this file. */
  function FailureReply(fate: FileFate): Reply<seq<string>> {
    match fate
    case NotImage => Error(NOT_IMAGE_MESSAGE)
    case TooLarge => Error(IMAGE_TOO_LARGE_MESSAGE)
    case _ => Thrown
  }

  /** The reply and the stored objects so far, followed by what the rest of the batch does. */
  function Continue(urls: seq<string>, stored: seq<string>, rest: (Reply<seq<string>>, seq<string>)): (Reply<seq<string>>, seq<string>) {
    (if rest.0.Success? then Success(urls + rest.0.data) else rest.0, stored + rest.1)
  }

  lemma ContinueStep(fates: seq<FileFate>, i: nat, urls: seq<string>, stored: seq<string>)
    requires i < |fates|
    ensures fates[i].Skipped? ==> Continue(urls, stored, Batch(fates[i..])) == Continue(urls, stored, Batch(fates[i + 1..]))
    ensures fates[i].Uploaded? ==>
      Continue(urls, stored, Batch(fates[i..])) == Continue(urls + [fates[i].url], stored + [fates[i].objectName], Batch(fates[i + 1..]))
  {
    assert fates[i..][1..] == fates[i + 1..];
    if fates[i].Uploaded? {
      var rest := Batch(fates[i + 1..]);
      if rest.0.Success? {
        assert (urls + [fates[i].url]) + rest.0.data == urls + ([fates[i].url] + rest.0.data);
      }
      assert (stored + [fates[i].objectName]) + rest.1 == stored + ([fates[i].objectName] + rest.1);
    }
  }

  /**
   * `uploadGoodsImages`: no files, or more than nine, is an error; otherwise the files
   * are processed in order as `Batch` describes, storing objects as it goes.
   */
  method UploadGoodsImages(oss: AliOss.OssBucket, files: Option<seq<UploadFile>>, uuids: seq<string>, storeOks: seq<bool>)
    returns (r: Reply<seq<string>>)
    requires files.Some? ==> |uuids| == |files.value| && |storeOks| == |files.value|
    modifies oss
    ensures files.None? || |files.value| == 0 ==> r == Error(NO_FILE_MESSAGE) && oss.objects == old(oss.objects)
    ensures files.Some? && |files.value| > MAX_GOODS_IMAGES ==> r == Error(TOO_MANY_MESSAGE) && oss.objects == old(oss.objects)
    ensures files.Some? && 0 < |files.value| <= MAX_GOODS_IMAGES ==>
      var b := Batch(Fates(oss.bucket, oss.endpoint, files.value, uuids, storeOks));
      r == b.0 && oss.objects == old(oss.objects) + set n | n in b.1
  {
    if files.None? || |files.value| == 0 {
      return Error(NO_FILE_MESSAGE);
    }
    if |files.value| > MAX_GOODS_IMAGES {
      return Error(TOO_MANY_MESSAGE);
    }
    var fs := files.value;
    ghost var fates := Fates(oss.bucket, oss.endpoint, fs, uuids, storeOks);
    var urls: seq<string> := [];
    ghost var stored: seq<string> := [];
    var i := 0;
    assert fates[0..] == fates;
    assert Batch(fates).0.Success? ==> [] + Batch(fates).0.data == Batch(fates).0.data;
    assert [] + Batch(fates).1 == Batch(fates).1;
    while i < |fs|
      invariant 0 <= i <= |fs|
      invariant Batch(fates) == Continue(urls, stored, Batch(fates[i..]))
      invariant oss.objects == old(oss.objects) + set n | n in stored
    {
      var f := fs[i];
      ContinueStep(fates, i, urls, stored);
      if IsEmpty(f) {
        i := i + 1;
        continue;
      }
      if !IsImage(f) {
        return Error(NOT_IMAGE_MESSAGE);
      }
      if f.size > GOODS_IMAGE_MAX_BYTES {
        return Error(IMAGE_TOO_LARGE_MESSAGE);
      }
      var u := oss.Upload(f.originalFilename, AliOss.GOODS_FOLDER, uuids[i], storeOks[i]);
      if !u.Stored? {
        return Thrown;
      }
      urls := urls + [u.url];
      stored := stored + [u.objectName];
      i := i + 1;
    }
    assert fates[|fs|..] == [];
    assert urls + [] == urls && stored + [] == stored;
    return Success(urls);
  }
}
