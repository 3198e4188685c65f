/**
 * ImageService: the storage gateway. Upload tries the remote image API when it
 * is fully configured and falls back to a local save; resolve turns an
 * identifier into a URL; delete fans out to both backends; placeholders are
 * provisioned at start-up.
 *
 * The HTTP calls are outcomes passed in by the caller (what the remote API
 * answered), uuid4() is the `freshId` parameter, and the local store is a
 * FileSystem object that the methods change in place. Each method is proved
 * against a function that states its result and its new state; the lemmas at
 * the end of each part state the gateway's promises about those functions.
 */
module ImageService {
  import opened Wrappers
  import opened Text
  import opened Config
  import opened LocalDisk
  import Sniffer

  /* ---------------------------------------------------------------------- */
  /* allowed_file                                                            */

  /** The client's filename has an extension, and its lower-cased text after the last '.' is allowed. */
  predicate AllowedFile(filename: string, allowed: seq<string>)
  {
    '.' in filename && Lower(LastField(filename, '.')) in allowed
  }

  /** allowed_file holds exactly when some '.' is followed by no other '.' and by an allowed extension. */
  lemma AllowedFileIff(filename: string, allowed: seq<string>)
    ensures AllowedFile(filename, allowed) <==>
      exists k :: 0 <= k < |filename| && filename[k] == '.' && '.' !in filename[k + 1..] &&
        Lower(filename[k + 1..]) in allowed
  {
    var last := LastIndexOf(filename, '.');
    if last.Some? {
      var k := last.value;
      assert filename == filename[..k] + ['.'] + filename[k + 1..];
      LastFieldAfter(filename[..k], '.', filename[k + 1..]);
    }
  }

  /* ---------------------------------------------------------------------- */
  /* upload_image                                                            */

  /** What upload returns: the identifier to keep and the URL to serve. */
  datatype Stored = Stored(id: string, url: string)

  /** The image after base64 decoding; `Undecodable` when b64decode raised. */
  datatype Payload = Decoded(data: Bytes) | Undecodable

  /** The remote API's answer to the upload POST: a 200 with success and an id, or anything else. */
  datatype RemoteUpload = Uploaded(remoteId: string) | UploadFailed

  function DeliveryUrl(cfg: RemoteConfig, id: string): string
  {
    cfg.deliveryUrl + "/" + id + "/public"
  }

  function LocalUrl(folder: string, name: string): string
  {
    ImagesUrl + folder + "/" + name
  }

  datatype UploadOutcome = UploadOutcome(stored: Option<Stored>, dirs: Dirs)

  /**
   * upload_image, as a function of the store before the call. `written` says
   * whether open(...).write succeeded; when it fails the folder has already
   * been created.
   */
  function Upload(cfg: RemoteConfig, dirs: Dirs, payload: Payload, folder: string, freshId: string,
                  remote: RemoteUpload, written: bool): (o: UploadOutcome)
    ensures WellFormedDirs(dirs) ==> WellFormedDirs(o.dirs)
  {
    match payload
    case Undecodable => UploadOutcome(None, dirs)
    case Decoded(data) =>
      if RemoteConfigured(cfg) && remote.Uploaded? then
        UploadOutcome(Some(Stored(remote.remoteId, DeliveryUrl(cfg, remote.remoteId))), dirs)
      else if data == [] then
        UploadOutcome(None, dirs)
      else
        var made := MakeDirs(dirs, folder);
        if !written then UploadOutcome(None, made)
        else
          var name := freshId + Sniffer.Extension(data);
          UploadOutcome(Some(Stored(freshId, LocalUrl(folder, name))),
                        made[folder := Written(made[folder], name, data)])
  }

  method UploadImage(fs: FileSystem, cfg: RemoteConfig, payload: Payload, folder: string, freshId: string,
                     remote: RemoteUpload, written: bool) returns (stored: Option<Stored>)
    requires fs.Valid()
    modifies fs
    ensures fs.Valid()
    ensures stored == Upload(cfg, old(fs.dirs), payload, folder, freshId, remote, written).stored
    ensures fs.dirs == Upload(cfg, old(fs.dirs), payload, folder, freshId, remote, written).dirs
  {
    if payload.Undecodable? {
      return None;
    }
    var data := payload.data;
    if RemoteConfigured(cfg) {
      if remote.Uploaded? {
        return Some(Stored(remote.remoteId, DeliveryUrl(cfg, remote.remoteId)));
      }
    }
    if data != [] {
      fs.MakeFolder(folder);
      var extension := Sniffer.Extension(data);
      var name := freshId + extension;
      if written {
        fs.WriteFile(folder, name, data);
        return Some(Stored(freshId, LocalUrl(folder, name)));
      }
    }
    return None;
  }

  /** With any of the three remote fields empty the remote answer is never consulted. */
  lemma UploadUnconfiguredIsLocal(cfg: RemoteConfig, dirs: Dirs, payload: Payload, folder: string,
                                  freshId: string, r1: RemoteUpload, r2: RemoteUpload, written: bool)
    requires !RemoteConfigured(cfg)
    ensures Upload(cfg, dirs, payload, folder, freshId, r1, written) ==
            Upload(cfg, dirs, payload, folder, freshId, r2, written)
    ensures Upload(cfg, dirs, payload, folder, freshId, r1, written).stored.Some? ==>
            Upload(cfg, dirs, payload, folder, freshId, r1, written).stored.value.id == freshId
  {
  }

  /** A confirmed remote upload returns the remote id and its delivery URL and touches no file. */
  lemma UploadRemote(cfg: RemoteConfig, dirs: Dirs, data: Bytes, folder: string, freshId: string,
                     remoteId: string, written: bool)
    requires RemoteConfigured(cfg)
    ensures Upload(cfg, dirs, Decoded(data), folder, freshId, Uploaded(remoteId), written) ==
            UploadOutcome(Some(Stored(remoteId, cfg.deliveryUrl + "/" + remoteId + "/public")), dirs)
  {
  }

  /**
   * The local save (remote unconfigured or failed): the fresh id, the URL
   * /static/images/{folder}/{id}{ext}, a file holding exactly the input bytes
   * appended to the listing, and nothing else changed.
   */
  lemma UploadLocal(cfg: RemoteConfig, dirs: Dirs, data: Bytes, folder: string, freshId: string,
                    remote: RemoteUpload)
    requires !RemoteConfigured(cfg) || remote.UploadFailed?
    requires data != []
    requires folder in dirs ==> freshId + Sniffer.Extension(data) !in dirs[folder].names
    ensures var o := Upload(cfg, dirs, Decoded(data), folder, freshId, remote, true);
            var name := freshId + Sniffer.Extension(data);
            var before := if folder in dirs then dirs[folder].names else [];
            && o.stored == Some(Stored(freshId, "/static/images/" + folder + "/" + name))
            && folder in o.dirs && o.dirs[folder].names == before + [name]
            && name in o.dirs[folder].contents && o.dirs[folder].contents[name] == data
            && (forall n :: n in o.dirs[folder].contents && n != name ==>
                  folder in dirs && n in dirs[folder].contents && o.dirs[folder].contents[n] == dirs[folder].contents[n])
            && (forall f :: f in dirs && f != folder ==> f in o.dirs && o.dirs[f] == dirs[f])
  {
  }

  /** Upload yields nothing exactly when decoding failed, or the remote did not serve it and the data is empty or the write failed. */
  lemma UploadNothing(cfg: RemoteConfig, dirs: Dirs, payload: Payload, folder: string, freshId: string,
                      remote: RemoteUpload, written: bool)
    ensures Upload(cfg, dirs, payload, folder, freshId, remote, written).stored.None? <==>
      (payload.Undecodable? ||
       (!(RemoteConfigured(cfg) && remote.Uploaded?) && (payload.data == [] || !written)))
  {
  }

  /** A ten-byte JPEG uploaded to `products` with no remote configured is saved as {id}.jpg with those bytes. */
  lemma UploadJpegScenario(dirs: Dirs, freshId: string, remote: RemoteUpload)
    requires "products" in dirs ==> freshId + ".jpg" !in dirs["products"].names
    ensures var data: Bytes := [0xFF, 0xD8, 0xFF, 0xE0, 0, 0x10, 0x4A, 0x46, 0x49, 0x46];
            var o := Upload(RemoteConfig("", "", ""), dirs, Decoded(data), "products", freshId, remote, true);
            && o.stored == Some(Stored(freshId, "/static/images/products/" + freshId + ".jpg"))
            && freshId + ".jpg" in o.dirs["products"].contents
            && o.dirs["products"].contents[freshId + ".jpg"] == data
  {
    var data: Bytes := [0xFF, 0xD8, 0xFF, 0xE0, 0, 0x10, 0x4A, 0x46, 0x49, 0x46];
    assert Sniffer.JpegMagic <= data;
    assert Sniffer.Extension(data) == ".jpg";
    assert LocalUrl("products", freshId + ".jpg") == "/static/images/products/" + freshId + ".jpg";
  }

  /* ---------------------------------------------------------------------- */
  /* get_image_url                                                           */

  /** Absolute URLs and rooted paths are already resolved. */
  predicate IsAbsolute(id: string)
  {
    "http://" <= id || "https://" <= id || "/" <= id
  }

  /** The local match rule: `{id}.` begins the filename, or (for delete) the filename is `id` itself. */
  predicate MatchesId(name: string, id: string, exactToo: bool)
  {
    (id + ".") <= name || (exactToo && name == id)
  }

  /** Index of the first listed name that matches `id`. */
  function FirstMatch(names: seq<string>, id: string, exactToo: bool): (k: Option<nat>)
    ensures k.Some? ==> k.value < |names| && MatchesId(names[k.value], id, exactToo)
    ensures k.Some? ==> forall j :: 0 <= j < k.value ==> !MatchesId(names[j], id, exactToo)
    ensures k.None? ==> forall j :: 0 <= j < |names| ==> !MatchesId(names[j], id, exactToo)
  {
    if names == [] then None
    else if MatchesId(names[0], id, exactToo) then Some(0)
    else
      match FirstMatch(names[1..], id, exactToo)
      case None => None
      case Some(k) => Some(k + 1)
  }

  /** The local scan of get_image_url: first `{id}.*`, else a file named `id`, else the default. */
  function LocalLookup(dirs: Dirs, id: string, default: Option<string>, folder: string): Option<string>
  {
    if folder !in dirs then default
    else
      var names := dirs[folder].names;
      match FirstMatch(names, id, false)
      case Some(k) => Some(LocalUrl(folder, names[k]))
      case None => if id in names then Some(LocalUrl(folder, id)) else default
  }

  /**
   * get_image_url. With the remote configured the delivery URL is returned
   * whether or not the HEAD probe confirms it, so the probe is not an input.
   */
  function ImageUrl(cfg: RemoteConfig, dirs: Dirs, id: string, default: Option<string>, folder: string): (url: Option<string>)
    ensures default.Some? && default.value != "" ==> url.Some? && url.value != ""
  {
    if id == "" then default
    else if IsAbsolute(id) then Some(id)
    else if RemoteConfigured(cfg) then Some(DeliveryUrl(cfg, id))
    else LocalLookup(dirs, id, default, folder)
  }

  method GetImageUrl(fs: FileSystem, cfg: RemoteConfig, id: string, default: Option<string>, folder: string)
    returns (url: Option<string>)
    ensures url == ImageUrl(cfg, fs.dirs, id, default, folder)
  {
    if id == "" {
      return default;
    }
    if IsAbsolute(id) {
      return Some(id);
    }
    if RemoteConfigured(cfg) {
      return Some(DeliveryUrl(cfg, id));
    }
    if folder !in fs.dirs {
      return default;
    }
    var names := fs.dirs[folder].names;
    for i := 0 to |names|
      invariant forall j :: 0 <= j < i ==> !((id + ".") <= names[j])
    {
      if (id + ".") <= names[i] {
        return Some(LocalUrl(folder, names[i]));
      }
    }
    if id in names {
      return Some(LocalUrl(folder, id));
    }
    return default;
  }

  /**
   * Records the three rules applied before any lookup: empty id, pass-through,
   * remote delivery URL. What a local id resolves to is stated by `ImageUrlLocal`.
   */
  lemma ImageUrlEarlyRules(cfg: RemoteConfig, dirs: Dirs, id: string, default: Option<string>, folder: string)
    ensures id == "" ==> ImageUrl(cfg, dirs, id, default, folder) == default
    ensures id != "" && IsAbsolute(id) ==> ImageUrl(cfg, dirs, id, default, folder) == Some(id)
    ensures id != "" && !IsAbsolute(id) && RemoteConfigured(cfg) ==>
            ImageUrl(cfg, dirs, id, default, folder) == Some(cfg.deliveryUrl + "/" + id + "/public")
  {
  }

  /**
   * The local branch: the URL of the first listed `{id}.*`; otherwise the file
   * named exactly `id`; otherwise (folder missing included) the default.
   */
  lemma ImageUrlLocal(cfg: RemoteConfig, dirs: Dirs, id: string, default: Option<string>, folder: string)
    requires id != "" && !IsAbsolute(id) && !RemoteConfigured(cfg)
    ensures folder !in dirs ==> ImageUrl(cfg, dirs, id, default, folder) == default
    ensures folder in dirs ==>
      var names := dirs[folder].names;
      var url := ImageUrl(cfg, dirs, id, default, folder);
      (forall k :: 0 <= k < |names| && (id + ".") <= names[k] &&
                   (forall j :: 0 <= j < k ==> !((id + ".") <= names[j])) ==>
          url == Some("/static/images/" + folder + "/" + names[k])) &&
      ((forall j :: 0 <= j < |names| ==> !((id + ".") <= names[j])) ==>
          url == if id in names then Some("/static/images/" + folder + "/" + id) else default)
  {
    if folder in dirs {
      var names := dirs[folder].names;
      var m := FirstMatch(names, id, false);
      forall k | 0 <= k < |names| && (id + ".") <= names[k] && (forall j :: 0 <= j < k ==> !((id + ".") <= names[j]))
        ensures m == Some(k)
      {
        assert MatchesId(names[k], id, false);
      }
    }
  }

  /** An id is fresh in a folder when no listed name begins with it (a new uuid4). */
  ghost predicate FreshIn(dirs: Dirs, folder: string, id: string)
  {
    folder in dirs ==> forall n :: n in dirs[folder].names ==> !(id <= n)
  }

  /** No name of a listing that is fresh for `freshId` matches an id extending `freshId`. */
  lemma NoMatchAmongFresh(before: seq<string>, freshId: string, id: string, exactToo: bool)
    requires freshId <= id
    requires forall n :: n in before ==> !(freshId <= n)
    ensures forall j :: 0 <= j < |before| ==> !MatchesId(before[j], id, exactToo)
  {
    forall j | 0 <= j < |before| ensures !MatchesId(before[j], id, exactToo) {
      var n := before[j];
      assert n in before;
    }
  }

  /** When only the appended name matches, the first match is at the end. */
  lemma FirstMatchAtEnd(before: seq<string>, name: string, id: string, exactToo: bool)
    requires forall j :: 0 <= j < |before| ==> !MatchesId(before[j], id, exactToo)
    requires MatchesId(name, id, exactToo)
    ensures FirstMatch(before + [name], id, exactToo) == Some(|before|)
  {
    var names := before + [name];
    assert names[|before|] == name;
    assert forall j :: 0 <= j < |before| ==> names[j] == before[j];
  }

  /** `{id}{ext}` with ext starting with '.' begins with `{id}.`. */
  lemma NameMatchesFreshId(freshId: string, ext: string)
    requires |ext| >= 1 && ext[0] == '.'
    ensures MatchesId(freshId + ext, freshId, false)
  {
    assert (freshId + ext)[..|freshId| + 1] == freshId + ".";
  }

  /** A name built on a fresh id is not yet listed. */
  lemma FreshNameIsNew(before: seq<string>, freshId: string, ext: string)
    requires forall n :: n in before ==> !(freshId <= n)
    ensures freshId + ext !in before
  {
    assert freshId <= freshId + ext;
  }

  /**
   * Round trip: resolving the id an upload returned gives back the URL it
   * returned, when the backend that served the upload is the one resolve
   * consults, i.e. the remote is unconfigured or the remote upload succeeded.
   */
  lemma {:induction false} UploadResolveRoundTrip(cfg: RemoteConfig, dirs: Dirs, data: Bytes, folder: string,
                                                 freshId: string, remote: RemoteUpload, default: Option<string>)
    requires WellFormedDirs(dirs)
    requires freshId != "" && !IsAbsolute(freshId) && FreshIn(dirs, folder, freshId)
    requires remote.Uploaded? ==> remote.remoteId != "" && !IsAbsolute(remote.remoteId)
    requires !RemoteConfigured(cfg) || remote.Uploaded?
    requires Upload(cfg, dirs, Decoded(data), folder, freshId, remote, true).stored.Some?
    ensures var o := Upload(cfg, dirs, Decoded(data), folder, freshId, remote, true);
            ImageUrl(cfg, o.dirs, o.stored.value.id, default, folder) == Some(o.stored.value.url)
  {
    if !RemoteConfigured(cfg) {
      var ext := Sniffer.Extension(data);
      var name := freshId + ext;
      Sniffer.ExtensionShape(data);
      var before := if folder in dirs then dirs[folder].names else [];
      FreshNameIsNew(before, freshId, ext);
      UploadLocal(cfg, dirs, data, folder, freshId, remote);
      NameMatchesFreshId(freshId, ext);
      NoMatchAmongFresh(before, freshId, freshId, false);
      FirstMatchAtEnd(before, name, freshId, false);
    }
  }

  /**
   * The remote fallback is invisible to resolve: with the remote configured, an
   * image saved locally after a failed remote upload resolves to the remote
   * delivery URL, not to the local URL the upload returned.
   */
  lemma LocalFallbackResolvesRemote(cfg: RemoteConfig, dirs: Dirs, data: Bytes, folder: string,
                                    freshId: string, default: Option<string>)
    requires RemoteConfigured(cfg) && data != []
    requires freshId != "" && !IsAbsolute(freshId)
    ensures var o := Upload(cfg, dirs, Decoded(data), folder, freshId, UploadFailed, true);
            && o.stored.Some? && o.stored.value.id == freshId
            && ImageUrl(cfg, o.dirs, freshId, default, folder) == Some(DeliveryUrl(cfg, freshId))
            && DeliveryUrl(cfg, freshId) != o.stored.value.url
  {
    var ext := Sniffer.Extension(data);
    var name := freshId + ext;
    assert name[|name| - 1] == ext[|ext| - 1];
    DeliveryIsNotLocal(cfg, freshId, folder, name);
  }

  /** A delivery URL ends in "/public", a local URL in a sniffed extension, so they never coincide. */
  lemma DeliveryIsNotLocal(cfg: RemoteConfig, id: string, folder: string, name: string)
    requires |name| >= 1 && name[|name| - 1] in {'g', 'f', 'p'}
    ensures DeliveryUrl(cfg, id) != LocalUrl(folder, name)
  {
    var d := DeliveryUrl(cfg, id);
    var u := LocalUrl(folder, name);
    assert d[|d| - 1] == 'c';
    assert u[|u| - 1] == name[|name| - 1];
  }

  /* ---------------------------------------------------------------------- */
  /* delete_image                                                            */

  /**
   * The identifier a delete_image argument stands for: a URL-form argument is
   * cut to its last '/' segment, or the one before it when the last is "public".
   */
  function ExtractId(imageId: string): (id: string)
    ensures !IsAbsolute(imageId) ==> id == imageId
    ensures IsAbsolute(imageId) ==> '/' !in id
  {
    if IsAbsolute(imageId) then
      assert '/' in imageId by {
        if "/" <= imageId { assert imageId[0] == '/'; }
        else if "http://" <= imageId { assert imageId[5] == '/'; }
        else { assert imageId[6] == '/'; }
      }
      var parts := Split(imageId, '/');
      var last := parts[|parts| - 1];
      if last == "public" then parts[|parts| - 2] else last
    else imageId
  }

  /** Delete by the delivery URL that a remote upload returned targets the uploaded id. */
  lemma ExtractIdOfDeliveryUrl(cfg: RemoteConfig, id: string)
    requires IsAbsolute(cfg.deliveryUrl) && '/' !in id
    ensures ExtractId(DeliveryUrl(cfg, id)) == id
  {
    var d := DeliveryUrl(cfg, id);
    AbsolutePrefix(cfg.deliveryUrl, d);
    assert d == cfg.deliveryUrl + ['/'] + id + ['/'] + "public";
    SplitAppend(cfg.deliveryUrl, '/', id);
    SplitAppend(cfg.deliveryUrl + ['/'] + id, '/', "public");
  }

  /** A string that begins with an absolute URL or rooted path is one too. */
  lemma AbsolutePrefix(a: string, b: string)
    requires IsAbsolute(a) && a <= b
    ensures IsAbsolute(b)
  {
    if "/" <= a {
      assert b[0] == a[0];
    } else if "http://" <= a {
      assert b[..7] == a[..7];
    } else {
      assert b[..8] == a[..8];
    }
  }

  /** Delete by the local URL that a local upload returned targets the stored filename. */
  lemma ExtractIdOfLocalUrl(folder: string, name: string)
    requires '/' !in name && name != "public"
    ensures ExtractId(LocalUrl(folder, name)) == name
  {
    var u := LocalUrl(folder, name);
    assert u == ("/static/images/" + folder) + ['/'] + name;
    assert u[0] == '/';
    LastFieldAfter("/static/images/" + folder, '/', name);
  }

  datatype DeleteOutcome = DeleteOutcome(deleted: bool, dirs: Dirs)

  /**
   * delete_image, as a function of the store before the call. `remoteOk` is
   * whether the remote DELETE answered 200 with success.
   */
  function Delete(cfg: RemoteConfig, dirs: Dirs, imageId: string, folder: string, remoteOk: bool): (o: DeleteOutcome)
    ensures WellFormedDirs(dirs) ==> WellFormedDirs(o.dirs)
  {
    var id := ExtractId(imageId);
    var remote := DeleteGate(cfg) && remoteOk;
    if folder !in dirs then DeleteOutcome(remote, dirs)
    else
      match FirstMatch(dirs[folder].names, id, true)
      case None => DeleteOutcome(remote, dirs)
      case Some(k) => DeleteOutcome(true, dirs[folder := Removed(dirs[folder], k)])
  }

  method DeleteImage(fs: FileSystem, cfg: RemoteConfig, imageId: string, folder: string, remoteOk: bool)
    returns (success: bool)
    requires fs.Valid()
    modifies fs
    ensures fs.Valid()
    ensures success == Delete(cfg, old(fs.dirs), imageId, folder, remoteOk).deleted
    ensures fs.dirs == Delete(cfg, old(fs.dirs), imageId, folder, remoteOk).dirs
  {
    success := false;
    var id := ExtractId(imageId);
    if DeleteGate(cfg) && remoteOk {
      success := true;
    }
    if folder in fs.dirs {
      var names := fs.dirs[folder].names;
      var i := 0;
      while i < |names|
        invariant i <= |names|
        invariant fs.dirs == old(fs.dirs) && fs.Valid()
        invariant forall j :: 0 <= j < i ==> !MatchesId(names[j], id, true)
      {
        if (id + ".") <= names[i] || names[i] == id {
          FirstMatchAt(names, id, true, i);
          fs.RemoveFile(folder, i);
          success := true;
          break;
        }
        i := i + 1;
      }
    }
  }

  /** A matching index with no match before it is the one FirstMatch finds. */
  lemma FirstMatchAt(names: seq<string>, id: string, exactToo: bool, i: nat)
    requires i < |names| && MatchesId(names[i], id, exactToo)
    requires forall j :: 0 <= j < i ==> !MatchesId(names[j], id, exactToo)
    ensures FirstMatch(names, id, exactToo) == Some(i)
  {
  }

  /** The result is the remote confirmation OR the local removal; at most one local file goes. */
  lemma DeleteOutcomes(cfg: RemoteConfig, dirs: Dirs, imageId: string, folder: string, remoteOk: bool)
    requires WellFormedDirs(dirs)
    ensures var o := Delete(cfg, dirs, imageId, folder, remoteOk);
            var id := ExtractId(imageId);
            var local := folder in dirs && exists n :: n in dirs[folder].names && MatchesId(n, id, true);
            && o.deleted == ((DeleteGate(cfg) && remoteOk) || local)
            && o.dirs.Keys == dirs.Keys
            && (forall f :: f in dirs && f != folder ==> o.dirs[f] == dirs[f])
            && (local ==> |o.dirs[folder].names| == |dirs[folder].names| - 1)
            && (local ==>
                  var names := dirs[folder].names;
                  var k := FirstMatch(names, id, true).value;
                  && o.dirs[folder].names == names[..k] + names[k + 1..]
                  && o.dirs[folder].contents == dirs[folder].contents - {names[k]})
            && (!local ==> o.dirs == dirs)
  {
    var id := ExtractId(imageId);
    if folder in dirs {
      var names := dirs[folder].names;
      match FirstMatch(names, id, true)
      case Some(k) =>
        assert names[k] in names;
        var c := Delete(cfg, dirs, imageId, folder, remoteOk).dirs[folder].contents;
        assert c == dirs[folder].contents - {names[k]};
      case None =>
    }
  }

  /**
   * Deleting twice: when at most one listed file matches, the second delete
   * finds nothing locally, so it reports only what the remote API confirms.
   */
  lemma {:induction false} DeleteTwice(cfg: RemoteConfig, dirs: Dirs, imageId: string, folder: string,
                                      remote1: bool, remote2: bool)
    requires WellFormedDirs(dirs)
    requires folder in dirs ==>
      forall i, j :: 0 <= i < j < |dirs[folder].names| ==>
        !(MatchesId(dirs[folder].names[i], ExtractId(imageId), true) &&
          MatchesId(dirs[folder].names[j], ExtractId(imageId), true))
    ensures var o1 := Delete(cfg, dirs, imageId, folder, remote1);
            Delete(cfg, o1.dirs, imageId, folder, remote2) == DeleteOutcome(DeleteGate(cfg) && remote2, o1.dirs)
  {
    var id := ExtractId(imageId);
    if folder in dirs {
      var names := dirs[folder].names;
      var m := FirstMatch(names, id, true);
      if m.Some? {
        var k := m.value;
        var o1 := Delete(cfg, dirs, imageId, folder, remote1);
        var rest := o1.dirs[folder].names;
        assert rest == names[..k] + names[k + 1..];
        forall j | 0 <= j < |rest| ensures !MatchesId(rest[j], id, true) {
          if j >= k {
            assert rest[j] == names[j + 1];
          }
        }
        assert FirstMatch(rest, id, true).None?;
      }
    }
  }

  /**
   * Deleting (remote off) by a URL whose id is the last listed name, when no
   * earlier name matches it: the first delete removes exactly that file, a
   * second one finds nothing.
   */
  lemma DeleteLastMatch(cfg: RemoteConfig, d: Dirs, url: string, folder: string, before: seq<string>, name: string)
    requires WellFormedDirs(d) && !DeleteGate(cfg)
    requires folder in d && d[folder].names == before + [name] && ExtractId(url) == name
    requires forall j :: 0 <= j < |before| ==> !MatchesId(before[j], name, true)
    ensures var d1 := Delete(cfg, d, url, folder, false);
            && d1.deleted
            && folder in d1.dirs && d1.dirs[folder].names == before
            && d1.dirs[folder].contents == d[folder].contents - {name}
            && d1.dirs == d[folder := Folder(before, d[folder].contents - {name})]
            && !Delete(cfg, d1.dirs, url, folder, false).deleted
  {
    assert MatchesId(name, name, true);
    FirstMatchAtEnd(before, name, name, true);
    var names := before + [name];
    assert names[..|before|] + names[|before| + 1..] == before;
    var m := FirstMatch(before, name, true);
    if m.Some? {
      assert false;
    }
  }

  /** A local upload under a fresh id appends one new file and keeps the others as they were. */
  lemma UploadLocalFresh(cfg: RemoteConfig, dirs: Dirs, data: Bytes, folder: string, freshId: string,
                         remote: RemoteUpload)
    requires WellFormedDirs(dirs) && (!RemoteConfigured(cfg) || remote.UploadFailed?)
    requires data != [] && FreshIn(dirs, folder, freshId)
    ensures var o := Upload(cfg, dirs, Decoded(data), folder, freshId, remote, true);
            var name := freshId + Sniffer.Extension(data);
            var before := if folder in dirs then dirs[folder].names else [];
            var c0: map<string, Bytes> := if folder in dirs then dirs[folder].contents else map[];
            && o.stored == Some(Stored(freshId, LocalUrl(folder, name)))
            && WellFormedDirs(o.dirs) && folder in o.dirs
            && o.dirs[folder].names == before + [name]
            && o.dirs[folder].contents - {name} == c0
            && o.dirs == MakeDirs(dirs, folder)[folder := o.dirs[folder]]
  {
    var ext := Sniffer.Extension(data);
    var name := freshId + ext;
    var before := if folder in dirs then dirs[folder].names else [];
    FreshNameIsNew(before, freshId, ext);
    var made := MakeDirs(dirs, folder);
    assert made[folder] == if folder in dirs then dirs[folder] else EmptyFolder;
    WrittenNew(made[folder], name, data);
  }


  /**
   * Upload, then delete by the returned URL, then delete again (upload and
   * resolve stay local, fresh id; the remote DELETE answers `r1`, then `r2`):
   * the first delete removes exactly the stored file and reports true, leaving
   * the store as makedirs left it; the second finds nothing locally, so it
   * reports only what the remote API says.
   */
  lemma UploadDeleteDelete(cfg: RemoteConfig, dirs: Dirs, data: Bytes, folder: string,
                           freshId: string, remote: RemoteUpload, r1: bool, r2: bool)
    requires WellFormedDirs(dirs) && !RemoteConfigured(cfg)
    requires data != [] && '/' !in freshId && FreshIn(dirs, folder, freshId)
    ensures var up := Upload(cfg, dirs, Decoded(data), folder, freshId, remote, true);
            var d1 := Delete(cfg, up.dirs, up.stored.value.url, folder, r1);
            var d2 := Delete(cfg, d1.dirs, up.stored.value.url, folder, r2);
            && up.stored.Some?
            && d1.deleted
            && d1.dirs == MakeDirs(dirs, folder)
            && d2.deleted == (DeleteGate(cfg) && r2)
  {
    var ext := Sniffer.Extension(data);
    var name := freshId + ext;
    Sniffer.ExtensionShape(data);
    var before := if folder in dirs then dirs[folder].names else [];
    UploadLocalFresh(cfg, dirs, data, folder, freshId, remote);
    var up := Upload(cfg, dirs, Decoded(data), folder, freshId, remote, true);
    var url := up.stored.value.url;
    LocalNameIsItsOwnId(folder, freshId, ext);
    NoMatchAmongFresh(before, freshId, name, true);
    var quiet := cfg.(accountId := "", apiToken := "");
    DeleteLastMatch(quiet, up.dirs, url, folder, before, name);
    var d1 := Delete(cfg, up.dirs, url, folder, r1);
    DeleteLocalHalf(cfg, quiet, up.dirs, url, folder, r1);
    var made := MakeDirs(dirs, folder);
    assert made[folder] == Folder(before, if folder in dirs then dirs[folder].contents else map[]);
    PutBack(made, folder, up.dirs[folder]);
    DeleteLocalHalf(cfg, quiet, d1.dirs, url, folder, r2);
  }

  /** The local half of delete_image reads neither the remote gate nor the remote's answer. */
  lemma DeleteLocalHalf(cfg: RemoteConfig, quiet: RemoteConfig, dirs: Dirs, imageId: string, folder: string, remoteOk: bool)
    requires !DeleteGate(quiet)
    ensures Delete(cfg, dirs, imageId, folder, remoteOk).dirs == Delete(quiet, dirs, imageId, folder, false).dirs
    ensures Delete(cfg, dirs, imageId, folder, remoteOk).deleted ==
            ((DeleteGate(cfg) && remoteOk) || Delete(quiet, dirs, imageId, folder, false).deleted)
  {
  }

  /** Replacing a folder and then putting its old value back gives the store unchanged. */
  lemma PutBack(dirs: Dirs, folder: string, changed: Folder)
    requires folder in dirs
    ensures dirs[folder := changed][folder := dirs[folder]] == dirs
  {
  }

  /** The local URL of `{id}{ext}` names the file itself for delete_image, and only that file matches it. */
  lemma LocalNameIsItsOwnId(folder: string, freshId: string, ext: string)
    requires |ext| >= 4 && ext[0] == '.' && '/' !in ext && '/' !in freshId
    ensures ExtractId(LocalUrl(folder, freshId + ext)) == freshId + ext
  {
    var name := freshId + ext;
    assert '/' !in name by {
      forall i | 0 <= i < |name| ensures name[i] != '/' {
        if i >= |freshId| { assert name[i] == ext[i - |freshId|]; }
      }
    }
    assert name[|freshId|] == '.';
    ExtractIdOfLocalUrl(folder, name);
  }

  /* ---------------------------------------------------------------------- */
  /* create_placeholder_images                                               */

  const ImageFolders: seq<string> := ["products", "users", "uploads", "placeholders", "categories"]

  /** A default asset: a filename and the folder it lives in. */
  datatype Placeholder = Placeholder(name: string, folder: string)

  const Placeholders: seq<Placeholder> := [
    Placeholder("default-avatar.png", "users"),
    Placeholder("product-placeholder.jpg", "products"),
    Placeholder("no-image.png", "placeholders"),
    Placeholder("logo.png", Root)
  ]

  /** os.makedirs for each folder in turn. */
  function MakeAllDirs(dirs: Dirs, folders: seq<string>): (r: Dirs)
    ensures r.Keys == dirs.Keys + (set f | f in folders) + (if folders == [] then {} else {Root})
    ensures forall f :: f in dirs ==> r[f] == dirs[f]
    ensures forall f :: f in r && f !in dirs ==> r[f] == EmptyFolder
    ensures WellFormedDirs(dirs) ==> WellFormedDirs(r)
  {
    if folders == [] then dirs
    else MakeDirs(MakeAllDirs(dirs, folders[..|folders| - 1]), folders[|folders| - 1])
  }

  /** `name` in `folder` is one of the placeholders. */
  predicate IsPlaceholder(ps: seq<Placeholder>, name: string, folder: string)
  {
    Placeholder(name, folder) in ps
  }

  /** What a placeholder file holds when created: PIL's image, or b'' when PIL failed. */
  function Fallback(rendered: map<string, Bytes>, name: string): Bytes
  {
    if name in rendered then rendered[name] else []
  }

  /** One placeholder: written (the rendered image, or b'' when rendering failed) only if absent. */
  function Place(dirs: Dirs, p: Placeholder, rendered: map<string, Bytes>): (r: Dirs)
    requires p.folder in dirs
    ensures r.Keys == dirs.Keys
    ensures WellFormedDirs(dirs) ==> WellFormedDirs(r)
    ensures p.name in dirs[p.folder].names ==> r == dirs
    ensures forall f :: f in dirs && f != p.folder ==> r[f] == dirs[f]
    ensures p.name !in dirs[p.folder].names ==>
              && r[p.folder].names == dirs[p.folder].names + [p.name]
              && p.name in r[p.folder].contents
              && r[p.folder].contents[p.name] == Fallback(rendered, p.name)
    ensures WellFormedDirs(dirs) && p.name !in dirs[p.folder].names ==>
              r[p.folder].contents - {p.name} == dirs[p.folder].contents
  {
    if p.name in dirs[p.folder].names then dirs
    else
      var d := dirs[p.folder];
      assert WellFormedDirs(dirs) ==> WellFormed(d);
      dirs[p.folder := Written(d, p.name, Fallback(rendered, p.name))]
  }

  ghost predicate FoldersPresent(dirs: Dirs, ps: seq<Placeholder>)
  {
    forall i :: 0 <= i < |ps| ==> ps[i].folder in dirs
  }

  function PlaceAll(dirs: Dirs, ps: seq<Placeholder>, rendered: map<string, Bytes>): (r: Dirs)
    requires FoldersPresent(dirs, ps)
    ensures r.Keys == dirs.Keys
    ensures WellFormedDirs(dirs) ==> WellFormedDirs(r)
  {
    if ps == [] then dirs
    else Place(PlaceAll(dirs, ps[..|ps| - 1], rendered), ps[|ps| - 1], rendered)
  }

  /** Every placeholder lives in the images root or in one of the folders made at start-up. */
  lemma PlaceholderFoldersListed()
    ensures forall i :: 0 <= i < |Placeholders| ==> Placeholders[i].folder in ImageFolders || Placeholders[i].folder == Root
  {
    assert ImageFolders[1] == "users" && ImageFolders[0] == "products" && ImageFolders[3] == "placeholders";
  }

  /** The folders of the four placeholders are among those just made. */
  lemma PlaceholderFoldersMade(dirs: Dirs)
    ensures FoldersPresent(MakeAllDirs(dirs, ImageFolders), Placeholders)
  {
    PlaceholderFoldersListed();
    var made := MakeAllDirs(dirs, ImageFolders);
    assert Root in made;
    forall i | 0 <= i < |Placeholders| ensures Placeholders[i].folder in made {
    }
  }

  /** create_placeholder_images as a function of the store; `rendered` is what PIL produced per filename. */
  function Provision(dirs: Dirs, rendered: map<string, Bytes>): (r: Dirs)
    ensures WellFormedDirs(dirs) ==> WellFormedDirs(r)
  {
    PlaceholderFoldersMade(dirs);
    PlaceAll(MakeAllDirs(dirs, ImageFolders), Placeholders, rendered)
  }

  /** The makedirs loop of create_placeholder_images. */
  method MakeFolders(fs: FileSystem, folders: seq<string>)
    requires fs.Valid()
    modifies fs
    ensures fs.Valid() && fs.dirs == MakeAllDirs(old(fs.dirs), folders)
  {
    ghost var start := fs.dirs;
    for i := 0 to |folders|
      invariant fs.Valid()
      invariant fs.dirs == MakeAllDirs(start, folders[..i])
    {
      ghost var prefix := folders[..i + 1];
      assert prefix[..i] == folders[..i] && prefix[i] == folders[i];
      assert MakeAllDirs(start, prefix) == MakeDirs(fs.dirs, folders[i]);
      fs.MakeFolder(folders[i]);
    }
    assert folders[..|folders|] == folders;
  }

  /** One step of the placeholder loop: write the file only when it is not there yet. */
  method PlaceOne(fs: FileSystem, p: Placeholder, rendered: map<string, Bytes>)
    requires fs.Valid() && p.folder in fs.dirs
    modifies fs
    ensures fs.Valid() && fs.dirs == Place(old(fs.dirs), p, rendered)
  {
    if p.name !in fs.dirs[p.folder].names {
      var content := if p.name in rendered then rendered[p.name] else [];
      fs.WriteFile(p.folder, p.name, content);
    }
  }

  /** The write-if-absent loop of create_placeholder_images. */
  method PlacePlaceholders(fs: FileSystem, ps: seq<Placeholder>, rendered: map<string, Bytes>)
    requires fs.Valid() && FoldersPresent(fs.dirs, ps)
    modifies fs
    ensures fs.Valid() && fs.dirs == PlaceAll(old(fs.dirs), ps, rendered)
  {
    for i := 0 to |ps|
      invariant fs.Valid() && fs.dirs.Keys == old(fs.dirs).Keys
      invariant fs.dirs == PlaceAll(old(fs.dirs), ps[..i], rendered)
    {
      assert ps[..i + 1][..i] == ps[..i];
      PlaceOne(fs, ps[i], rendered);
    }
    assert ps[..|ps|] == ps;
  }

  method CreatePlaceholderImages(fs: FileSystem, rendered: map<string, Bytes>)
    requires fs.Valid()
    modifies fs
    ensures fs.Valid()
    ensures fs.dirs == Provision(old(fs.dirs), rendered)
  {
    MakeFolders(fs, ImageFolders);
    PlaceholderFoldersMade(old(fs.dirs));
    PlacePlaceholders(fs, Placeholders, rendered);
  }

  /** Placing never drops a listed name, and leaves every placed name listed. */
  lemma {:induction false} PlaceAllListed(dirs: Dirs, ps: seq<Placeholder>, rendered: map<string, Bytes>)
    requires FoldersPresent(dirs, ps)
    ensures var r := PlaceAll(dirs, ps, rendered);
            && (forall f :: f in dirs ==> dirs[f].names <= r[f].names)
            && (forall i :: 0 <= i < |ps| ==> ps[i].name in r[ps[i].folder].names)
    decreases |ps|
  {
    if ps != [] {
      var init := ps[..|ps| - 1];
      assert FoldersPresent(dirs, init);
      PlaceAllListed(dirs, init, rendered);
      var r := PlaceAll(dirs, ps, rendered);
      forall i | 0 <= i < |ps| ensures ps[i].name in r[ps[i].folder].names {
        if i < |ps| - 1 {
          assert ps[i] == init[i];
        }
      }
    }
  }

  /** On a well-formed store, one placeholder step never rewrites or drops an existing file. */
  lemma PlaceKeepsFiles(dirs: Dirs, p: Placeholder, rendered: map<string, Bytes>)
    requires WellFormedDirs(dirs) && p.folder in dirs
    ensures var r := Place(dirs, p, rendered);
            forall f, n :: f in dirs && n in dirs[f].contents ==>
              n in r[f].contents && r[f].contents[n] == dirs[f].contents[n]
  {
    assert WellFormed(dirs[p.folder]);
  }

  /** On a well-formed store, placing never rewrites or drops an existing file. */
  lemma {:induction false} PlaceAllKeepsFiles(dirs: Dirs, ps: seq<Placeholder>, rendered: map<string, Bytes>)
    requires WellFormedDirs(dirs) && FoldersPresent(dirs, ps)
    ensures var r := PlaceAll(dirs, ps, rendered);
            forall f, n :: f in dirs && n in dirs[f].contents ==>
              n in r[f].contents && r[f].contents[n] == dirs[f].contents[n]
    decreases |ps|
  {
    if ps != [] {
      var init := ps[..|ps| - 1];
      assert FoldersPresent(dirs, init);
      PlaceAllKeepsFiles(dirs, init, rendered);
      PlaceKeepsFiles(PlaceAll(dirs, init, rendered), ps[|ps| - 1], rendered);
    }
  }

  /**
   * Every file placing creates is one of the placeholders, in its own folder,
   * holding what PIL rendered for it or b''.
   */
  lemma {:induction false} PlaceAllAddsOnlyPlaceholders(dirs: Dirs, ps: seq<Placeholder>, rendered: map<string, Bytes>)
    requires WellFormedDirs(dirs) && FoldersPresent(dirs, ps)
    ensures var r := PlaceAll(dirs, ps, rendered);
            forall f, n :: f in r && n in r[f].contents && n !in dirs[f].contents ==>
              IsPlaceholder(ps, n, f) && r[f].contents[n] == Fallback(rendered, n)
    decreases |ps|
  {
    if ps != [] {
      var init := ps[..|ps| - 1];
      var last := ps[|ps| - 1];
      assert FoldersPresent(dirs, init);
      PlaceAllAddsOnlyPlaceholders(dirs, init, rendered);
      var mid := PlaceAll(dirs, init, rendered);
      PlaceKeepsFiles(mid, last, rendered);
      var r := Place(mid, last, rendered);
      forall f, n | f in r && n in r[f].contents && n !in dirs[f].contents
        ensures IsPlaceholder(ps, n, f) && r[f].contents[n] == Fallback(rendered, n)
      {
        if n in mid[f].contents {
          assert IsPlaceholder(init, n, f);
        } else {
          assert f == last.folder && n == last.name;
        }
      }
    }
  }

  /** On a store where every placeholder is present, placing changes nothing. */
  lemma {:induction false} PlaceAllNoop(dirs: Dirs, ps: seq<Placeholder>, rendered: map<string, Bytes>)
    requires forall i :: 0 <= i < |ps| ==> ps[i].folder in dirs && ps[i].name in dirs[ps[i].folder].names
    ensures PlaceAll(dirs, ps, rendered) == dirs
    decreases |ps|
  {
    if ps != [] {
      PlaceAllNoop(dirs, ps[..|ps| - 1], rendered);
    }
  }

  /** On a store that has every folder and the root, making the folders changes nothing. */
  lemma {:induction false} MakeAllDirsNoop(dirs: Dirs, folders: seq<string>)
    requires Root in dirs && forall f :: f in folders ==> f in dirs
    ensures MakeAllDirs(dirs, folders) == dirs
    decreases |folders|
  {
    if folders != [] {
      MakeAllDirsNoop(dirs, folders[..|folders| - 1]);
    }
  }

  /** Making folders and then placing files: what the two loops guarantee, for any lists. */
  lemma MakeThenPlace(dirs: Dirs, folders: seq<string>, ps: seq<Placeholder>, rendered: map<string, Bytes>)
    requires WellFormedDirs(dirs) && FoldersPresent(MakeAllDirs(dirs, folders), ps)
    ensures var r := PlaceAll(MakeAllDirs(dirs, folders), ps, rendered);
            && (forall f :: f in folders ==> f in r)
            && (forall i :: 0 <= i < |ps| ==> ps[i].name in r[ps[i].folder].names)
            && (forall f, n :: f in dirs && n in dirs[f].contents ==>
                  n in r[f].contents && r[f].contents[n] == dirs[f].contents[n])
  {
    var made := MakeAllDirs(dirs, folders);
    PlaceAllListed(made, ps, rendered);
    PlaceAllKeepsFiles(made, ps, rendered);
  }

  /** After provisioning, the five image folders exist. */
  lemma ProvisionMakesFolders(dirs: Dirs, rendered: map<string, Bytes>)
    requires WellFormedDirs(dirs)
    ensures forall f :: f in ImageFolders ==> f in Provision(dirs, rendered)
  {
    PlaceholderFoldersMade(dirs);
    MakeThenPlace(dirs, ImageFolders, Placeholders, rendered);
  }

  /** After provisioning, every placeholder is listed in its folder. */
  lemma ProvisionPlacesDefaults(dirs: Dirs, rendered: map<string, Bytes>)
    requires WellFormedDirs(dirs)
    ensures forall p :: p in Placeholders ==>
              p.folder in Provision(dirs, rendered) && p.name in Provision(dirs, rendered)[p.folder].names
  {
    PlaceholderFoldersMade(dirs);
    MakeThenPlace(dirs, ImageFolders, Placeholders, rendered);
    ListedByMembership(Placeholders, Provision(dirs, rendered));
  }

  /** The index form of "every placeholder is listed" gives the membership form. */
  lemma ListedByMembership(ps: seq<Placeholder>, r: Dirs)
    requires forall i :: 0 <= i < |ps| ==> ps[i].folder in r && ps[i].name in r[ps[i].folder].names
    ensures forall p :: p in ps ==> p.folder in r && p.name in r[p.folder].names
  {
  }

  /** Provisioning never rewrites or drops a file that already existed. */
  lemma ProvisionKeepsFiles(dirs: Dirs, rendered: map<string, Bytes>)
    requires WellFormedDirs(dirs)
    ensures forall f, n :: f in dirs && n in dirs[f].contents ==>
              n in Provision(dirs, rendered)[f].contents && Provision(dirs, rendered)[f].contents[n] == dirs[f].contents[n]
  {
    PlaceholderFoldersMade(dirs);
    MakeThenPlace(dirs, ImageFolders, Placeholders, rendered);
  }

  /**
   * Every file of `r` that `dirs` did not hold is one of the placeholders, in
   * its own folder, holding PIL's image or b''.
   */
  ghost predicate AddsOnlyPlaceholders(dirs: Dirs, r: Dirs, ps: seq<Placeholder>, rendered: map<string, Bytes>)
  {
    forall f, n :: f in r && n in r[f].contents && !(f in dirs && n in dirs[f].contents) ==>
      IsPlaceholder(ps, n, f) && r[f].contents[n] == Fallback(rendered, n)
  }

  /** After both loops, for any lists, every new file is a placeholder. */
  lemma MakeThenPlaceAddsOnly(dirs: Dirs, folders: seq<string>, ps: seq<Placeholder>, rendered: map<string, Bytes>)
    requires WellFormedDirs(dirs) && FoldersPresent(MakeAllDirs(dirs, folders), ps)
    ensures AddsOnlyPlaceholders(dirs, PlaceAll(MakeAllDirs(dirs, folders), ps, rendered), ps, rendered)
  {
    var made := MakeAllDirs(dirs, folders);
    PlaceAllAddsOnlyPlaceholders(made, ps, rendered);
    var r := PlaceAll(made, ps, rendered);
    forall f, n | f in r && n in r[f].contents && !(f in dirs && n in dirs[f].contents)
      ensures n !in made[f].contents
    {
      if f !in dirs {
        assert made[f] == EmptyFolder;
      }
    }
  }

  /**
   * Provisioning creates no file but the four placeholders, each in its own
   * folder and holding PIL's image or b''.
   */
  lemma ProvisionAddsOnlyPlaceholders(dirs: Dirs, rendered: map<string, Bytes>)
    requires WellFormedDirs(dirs)
    ensures AddsOnlyPlaceholders(dirs, Provision(dirs, rendered), Placeholders, rendered)
  {
    PlaceholderFoldersMade(dirs);
    MakeThenPlaceAddsOnly(dirs, ImageFolders, Placeholders, rendered);
  }

  /** A second run changes nothing, whatever the renderer produces this time. */
  lemma ProvisionIdempotent(dirs: Dirs, rendered: map<string, Bytes>, rendered2: map<string, Bytes>)
    ensures Provision(Provision(dirs, rendered), rendered2) == Provision(dirs, rendered)
  {
    var p := Provision(dirs, rendered);
    var made := MakeAllDirs(dirs, ImageFolders);
    PlaceholderFoldersMade(dirs);
    PlaceAllListed(made, Placeholders, rendered);
    assert Root in p;
    MakeAllDirsNoop(p, ImageFolders);
    PlaceAllNoop(p, Placeholders, rendered2);
  }

  /** The configured defaults are the local URLs of two placeholders. */
  lemma DefaultsAreLocalUrls()
    ensures DefaultAvatar == LocalUrl("users", "default-avatar.png")
    ensures DefaultProduct == LocalUrl("products", "product-placeholder.jpg")
  {
  }

  /** The files behind the configured default avatar and product image exist after provisioning. */
  lemma DefaultsAreProvisioned(dirs: Dirs, rendered: map<string, Bytes>)
    requires WellFormedDirs(dirs)
    ensures "users" in Provision(dirs, rendered) && "default-avatar.png" in Provision(dirs, rendered)["users"].names
    ensures "products" in Provision(dirs, rendered) && "product-placeholder.jpg" in Provision(dirs, rendered)["products"].names
  {
    ProvisionPlacesDefaults(dirs, rendered);
    var avatar := Placeholder("default-avatar.png", "users");
    var product := Placeholder("product-placeholder.jpg", "products");
    assert avatar == Placeholders[0] && product == Placeholders[1];
    assert avatar in Placeholders && product in Placeholders;
  }

  /* ---------------------------------------------------------------------- */
  /* upload_file                                                             */

  /** A werkzeug FileStorage: the client's filename and the bytes read from it. */
  datatype FileUpload = FileUpload(filename: string, data: Bytes)

  method UploadFile(fs: FileSystem, cfg: RemoteConfig, file: Option<FileUpload>, allowed: seq<string>,
                    folder: string, freshId: string, remote: RemoteUpload, written: bool)
    returns (stored: Option<Stored>)
    requires fs.Valid()
    modifies fs
    ensures fs.Valid()
    ensures (file.None? || !AllowedFile(file.value.filename, allowed)) ==>
            stored.None? && fs.dirs == old(fs.dirs)
    ensures file.Some? && AllowedFile(file.value.filename, allowed) ==>
            var o := Upload(cfg, old(fs.dirs), Decoded(file.value.data), folder, freshId, remote, written);
            stored == o.stored && fs.dirs == o.dirs
  {
    if file.Some? && AllowedFile(file.value.filename, allowed) {
      stored := UploadImage(fs, cfg, Decoded(file.value.data), folder, freshId, remote, written);
    } else {
      stored := None;
    }
  }
}
