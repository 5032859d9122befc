/**
 * Object storage naming: the object name an upload stores a file under, the public
 * URL it returns, and the object name a delete recovers from such a URL. The storage
 * bucket is a set of object names; whether a storage call succeeds is an input.
 */
module AliOss {
  import opened Common

  const AVATAR_FOLDER := "avatar"
  const GOODS_FOLDER := "goods"
  const CHAT_FOLDER := "chat"
  /** The extension of a file uploaded without an original file name. */
  const DEFAULT_EXTENSION := ".jpg"

  /** `String.lastIndexOf(".")`: -1 when there is no dot. */
  function LastDot(s: string): (r: int)
    ensures -1 <= r < |s|
    ensures r == -1 <==> forall j :: 0 <= j < |s| ==> s[j] != '.'
    ensures r >= 0 ==> s[r] == '.' && forall j :: r < j < |s| ==> s[j] != '.'
    decreases |s|
  {
    if s == [] then -1
    else if s[|s| - 1] == '.' then |s| - 1
    else
      var r := LastDot(s[..|s| - 1]);
      assert forall j :: 0 <= j < |s| - 1 ==> s[..|s| - 1][j] == s[j];
      r
  }

  /**
   * The extension kept from the original file name: from its last dot on, or ".jpg"
   * without a name. A name without a dot makes the substring call throw: `None`.
   */
  function Extension(originalFilename: Option<string>): (ext: Option<string>)
    ensures originalFilename.None? ==> ext == Some(DEFAULT_EXTENSION)
    ensures originalFilename.Some? ==>
      (ext.None? <==> forall j :: 0 <= j < |originalFilename.value| ==> originalFilename.value[j] != '.')
    ensures ext.Some? ==> |ext.value| >= 1 && ext.value[0] == '.' && forall j :: 1 <= j < |ext.value| ==> ext.value[j] != '.'
    ensures ext.Some? && originalFilename.Some? ==>
      exists k :: 0 <= k <= |originalFilename.value| && originalFilename.value[k..] == ext.value
  {
    if originalFilename.None? then Some(DEFAULT_EXTENSION)
    else
      var dot := LastDot(originalFilename.value);
      if dot == -1 then None else Some(originalFilename.value[dot..])
  }

  /** `String.replace("-", "")`. */
  function WithoutDashes(s: string): (r: string)
    ensures |r| <= |s| && forall j :: 0 <= j < |r| ==> r[j] != '-'
    decreases |s|
  {
    if s == [] then []
    else (if s[0] == '-' then [] else [s[0]]) + WithoutDashes(s[1..])
  }

  /** folder + "/" + the dash-free random id + the extension. */
  function ObjectName(folder: string, uuid: string, ext: string): (name: string)
    ensures StartsWith(name, folder + "/")
    ensures |ext| <= |name| && name[|name| - |ext|..] == ext
  {
    var name := folder + "/" + WithoutDashes(uuid) + ext;
    assert name[..|folder| + 1] == folder + "/";
    name
  }

  /** "https://" + bucket + "." + endpoint + "/": every URL the bucket hands out starts with it. */
  function UrlPrefix(bucket: string, endpoint: string): string {
    "https://" + bucket + "." + endpoint + "/"
  }

  function UrlOf(bucket: string, endpoint: string, objectName: string): string {
    UrlPrefix(bucket, endpoint) + objectName
  }

  /** The object a delete targets: the URL past the prefix, or nothing for a URL without it. */
  function ObjectNameOfUrl(bucket: string, endpoint: string, url: string): (r: Option<string>)
    ensures r.None? <==> !StartsWith(url, UrlPrefix(bucket, endpoint))
  {
    var prefix := UrlPrefix(bucket, endpoint);
    if StartsWith(url, prefix) then Some(url[|prefix|..]) else None
  }

  /** Deleting by an uploaded file's URL targets exactly the object stored, and only such URLs target an object. */
  lemma UrlRoundTrip(bucket: string, endpoint: string, objectName: string, url: string)
    ensures ObjectNameOfUrl(bucket, endpoint, UrlOf(bucket, endpoint, objectName)) == Some(objectName)
    ensures ObjectNameOfUrl(bucket, endpoint, url) == Some(objectName) ==> url == UrlOf(bucket, endpoint, objectName)
  {
    var prefix := UrlPrefix(bucket, endpoint);
    var u := prefix + objectName;
    assert u[..|prefix|] == prefix && u[|prefix|..] == objectName;
    if ObjectNameOfUrl(bucket, endpoint, url) == Some(objectName) {
      assert url == url[..|prefix|] + url[|prefix|..];
    }
  }

  datatype UploadOutcome = Stored(url: string, objectName: string) | NoExtension | StoreFailed

  /** What `upload` answers: the URL and object name, or the way it failed. */
  function UploadResult(bucket: string, endpoint: string, originalFilename: Option<string>, folder: string, uuid: string,
                        storeOk: bool): (r: UploadOutcome)
    ensures r.Stored? <==> Extension(originalFilename).Some? && storeOk
    ensures r == NoExtension <==> Extension(originalFilename).None?
    ensures r.Stored? ==>
      && r.objectName == ObjectName(folder, uuid, Extension(originalFilename).value)
      && StartsWith(r.objectName, folder + "/")
      && ObjectNameOfUrl(bucket, endpoint, r.url) == Some(r.objectName)
  {
    var ext := Extension(originalFilename);
    if ext.None? then NoExtension
    else if !storeOk then StoreFailed
    else
      var name := ObjectName(folder, uuid, ext.value);
      UrlRoundTrip(bucket, endpoint, name, "");
      Stored(UrlOf(bucket, endpoint, name), name)
  }

  /** The bucket's stored objects. */
  class OssBucket {
    const bucket: string
    const endpoint: string
    var objects: set<string>

    constructor(bucket: string, endpoint: string)
      ensures this.bucket == bucket && this.endpoint == endpoint && objects == {}
    {
      this.bucket := bucket;
      this.endpoint := endpoint;
      objects := {};
    }

    /**
     * `upload`: the file is stored under a fresh object name in `folder` and its URL
     * returned. A name without a dot fails before storage is contacted; a failing
     * storage call (`storeOk` false) stores nothing.
     */
    method Upload(originalFilename: Option<string>, folder: string, uuid: string, storeOk: bool) returns (r: UploadOutcome)
      modifies this
      ensures r == UploadResult(bucket, endpoint, originalFilename, folder, uuid, storeOk)
      ensures r.Stored? ==> objects == old(objects) + {r.objectName} && ObjectNameOfUrl(bucket, endpoint, r.url) == Some(r.objectName)
      ensures !r.Stored? ==> objects == old(objects)
    {
      var ext := Extension(originalFilename);
      if ext.None? {
        return NoExtension;
      }
      var name := ObjectName(folder, uuid, ext.value);
      if !storeOk {
        return StoreFailed;
      }
      objects := objects + {name};
      return Stored(UrlOf(bucket, endpoint, name), name);
    }

    /**
     * `delete`: a URL without the bucket's prefix is ignored; otherwise the object
     * named by the rest of the URL is removed. A failing storage call is swallowed.
     */
    method Delete(url: string, storeOk: bool)
      modifies this
      ensures ObjectNameOfUrl(bucket, endpoint, url).Some? && storeOk ==>
        objects == old(objects) - {ObjectNameOfUrl(bucket, endpoint, url).value}
      ensures ObjectNameOfUrl(bucket, endpoint, url).None? || !storeOk ==> objects == old(objects)
    {
      var prefix := UrlPrefix(bucket, endpoint);
      if !StartsWith(url, prefix) {
        return;
      }
      var name := url[|prefix|..];
      if storeOk {
        objects := objects - {name};
      }
    }
  }

  /** `uploadAvatar`, `uploadGoodsImage`, `uploadChatImage`: the three folders. */
  method UploadTo(oss: OssBucket, kind: FileKind, originalFilename: Option<string>, uuid: string, storeOk: bool)
    returns (r: UploadOutcome)
    modifies oss
    ensures r.Stored? ==> StartsWith(r.objectName, FolderOf(kind) + "/") && oss.objects == old(oss.objects) + {r.objectName}
    ensures !r.Stored? ==> oss.objects == old(oss.objects)
    ensures Extension(originalFilename).Some? && storeOk <==> r.Stored?
  {
    r := oss.Upload(originalFilename, FolderOf(kind), uuid, storeOk);
  }

  datatype FileKind = Avatar | GoodsImage | ChatImage

  function FolderOf(kind: FileKind): (folder: string)
    ensures folder in {AVATAR_FOLDER, GOODS_FOLDER, CHAT_FOLDER}
  {
    match kind
    case Avatar => AVATAR_FOLDER
    case GoodsImage => GOODS_FOLDER
    case ChatImage => CHAT_FOLDER
  }

  /** Files of different kinds never share an object name. */
  lemma FoldersSeparate(k1: FileKind, k2: FileKind, name: string)
    requires k1 != k2
    ensures !(StartsWith(name, FolderOf(k1) + "/") && StartsWith(name, FolderOf(k2) + "/"))
  {
    var a, b := FolderOf(k1) + "/", FolderOf(k2) + "/";
    assert a[0] != b[0];
    assert StartsWith(name, a) ==> name[..|a|][0] == a[0];
    assert StartsWith(name, b) ==> name[..|b|][0] == b[0];
  }
}
