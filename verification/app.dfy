/**
 * The application factory's share of the gateway: the `image_url` template
 * filter, a front end to get_image_url that fills in a per-folder default,
 * and the start-up report of whether remote image storage is in use.
 */
module App {
  import opened Wrappers
  import opened Config
  import opened LocalDisk
  import opened ImageService

  /** Python truthiness of an optional string: None and "" are false. */
  predicate Truthy(s: Option<string>)
  {
    s.Some? && s.value != ""
  }

  /** The default the filter passes on: a falsy default becomes the folder's own default where it has one. */
  function EffectiveDefault(default: Option<string>, folder: string): (d: Option<string>)
    ensures Truthy(default) ==> d == default
    ensures !Truthy(default) && folder == "users" ==> d == Some(DefaultAvatar)
    ensures !Truthy(default) && folder == "products" ==> d == Some(DefaultProduct)
    ensures !Truthy(default) && folder != "users" && folder != "products" ==> d == default
  {
    if Truthy(default) then default
    else if folder == "users" then Some(DefaultAvatar)
    else if folder == "products" then Some(DefaultProduct)
    else default
  }

  /** image_url_filter (string ids). */
  function ImageUrlFilter(cfg: RemoteConfig, dirs: Dirs, imageId: string, default: Option<string>,
                          folder: string): (url: Option<string>)
    ensures imageId == "" ==> url == EffectiveDefault(default, folder)
    ensures imageId != "" && IsAbsolute(imageId) ==> url == Some(imageId)
  {
    var d := EffectiveDefault(default, folder);
    if imageId == "" then d
    else if IsAbsolute(imageId) then Some(imageId)
    else ImageUrl(cfg, dirs, imageId, d, folder)
  }

  /**
   * The filter is a pure front end: on every id it answers what get_image_url
   * answers with the filled-in default, the empty and absolute cases included.
   */
  lemma ImageUrlFilterDelegates(cfg: RemoteConfig, dirs: Dirs, imageId: string, default: Option<string>,
                                folder: string)
    ensures ImageUrlFilter(cfg, dirs, imageId, default, folder) ==
            ImageUrl(cfg, dirs, imageId, EffectiveDefault(default, folder), folder)
  {
  }

  /** In the users and products folders the filter always yields a non-empty URL. */
  lemma ImageUrlFilterNeverEmptyForDefaults(cfg: RemoteConfig, dirs: Dirs, imageId: string,
                                            default: Option<string>, folder: string)
    requires folder == "users" || folder == "products"
    ensures var url := ImageUrlFilter(cfg, dirs, imageId, default, folder);
            url.Some? && url.value != ""
  {
    ImageUrlFilterDelegates(cfg, dirs, imageId, default, folder);
  }

  /* ---------------------------------------------------------------------- */
  /* Start-up report                                                         */

  /** Python's all() over strings: every one non-empty. */
  predicate All(values: seq<string>)
  {
    forall i :: 0 <= i < |values| ==> values[i] != ""
  }

  /** The flag the start-up log prints for "remote storage in use". */
  function RemoteStorageEnabled(cfg: RemoteConfig): bool
  {
    All([cfg.accountId, cfg.apiToken, cfg.deliveryUrl])
  }

  datatype LogLine = Info(text: string) | Warning(text: string)

  const RemoteReady: string := "تم تكوين Cloudflare بنجاح، سيتم استخدامه لتخزين الصور"
  const RemoteIncomplete: string := "تكوين Cloudflare غير مكتمل، سيتم استخدام التخزين المحلي للصور"

  /** The configuration line logged at start-up: information when remote storage is ready, a warning otherwise. */
  function StartupReport(cfg: RemoteConfig): (line: LogLine)
    ensures line.Info? <==> RemoteStorageEnabled(cfg)
    ensures line.Info? ==> line.text == RemoteReady
    ensures line.Warning? ==> line.text == RemoteIncomplete
  {
    if RemoteStorageEnabled(cfg) then Info(RemoteReady) else Warning(RemoteIncomplete)
  }

  /** The start-up report agrees with the test upload and resolve use. */
  lemma RemoteStorageEnabledIff(cfg: RemoteConfig)
    ensures RemoteStorageEnabled(cfg) <==> RemoteConfigured(cfg)
  {
    var values := [cfg.accountId, cfg.apiToken, cfg.deliveryUrl];
    if RemoteConfigured(cfg) {
      assert forall i :: 0 <= i < 3 ==> values[i] != "";
    } else {
      assert values[0] == "" || values[1] == "" || values[2] == "";
    }
  }
}
