/**
 * The two configuration blocks the gateway reads: CLOUDFLARE_CONFIG (remote
 * image API credentials) and the fixed parts of IMAGES_CONFIG.
 * An environment variable that is not set reads as None in the source; it is
 * written "" here, because every use tests it for truthiness first.
 */
module Config {

  datatype RemoteConfig = RemoteConfig(accountId: string, apiToken: string, deliveryUrl: string)

  /** Upload and resolve use the remote image API only when all three fields are set. */
  predicate RemoteConfigured(cfg: RemoteConfig)
  {
    cfg.accountId != "" && cfg.apiToken != "" && cfg.deliveryUrl != ""
  }

  /** Delete calls the remote API when account and token are set; the delivery URL is not consulted. */
  predicate DeleteGate(cfg: RemoteConfig)
  {
    cfg.accountId != "" && cfg.apiToken != ""
  }

  /** Every configuration that lets upload go remote also lets delete go remote ... */
  lemma DeleteGateWeaker(cfg: RemoteConfig)
    ensures RemoteConfigured(cfg) ==> DeleteGate(cfg)
  {
  }

  /** ... but not the other way round: without a delivery URL, delete still calls the API. */
  lemma GatesDiffer()
    ensures exists cfg :: DeleteGate(cfg) && !RemoteConfigured(cfg)
  {
    var cfg := RemoteConfig("account", "token", "");
    assert DeleteGate(cfg) && !RemoteConfigured(cfg);
  }

  /** The URL prefix of the local image store. */
  const ImagesUrl: string := "/static/images/"

  /** IMAGES_CONFIG's default_avatar: /static/images/users/default-avatar.png */
  const DefaultAvatar: string := ImagesUrl + "users" + "/" + "default-avatar.png"
  /** IMAGES_CONFIG's default_product: /static/images/products/product-placeholder.jpg */
  const DefaultProduct: string := ImagesUrl + "products" + "/" + "product-placeholder.jpg"
  const DefaultAllowedExtensions: seq<string> := ["jpg", "jpeg", "png", "gif"]
}
