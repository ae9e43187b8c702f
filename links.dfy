/** The app's outward links (const/links.ts): four URLs read once from the
    environment, trimmed, and the store or share URL chosen for a platform with
    `||` fallbacks, where only the empty string counts as missing. */
module Links {
  import opened Js

  /** `normalize`: a missing value becomes "", a present one is trimmed. */
  function Normalize(value: Option<string>): (r: string)
    ensures IsTrimmed(r)
    ensures value.None? ==> r == ""
    ensures value.Some? && IsTrimmed(value.value) ==> r == value.value
    ensures value.Some? ==> (r == "" <==> IsBlank(value.value))
    ensures value.Some? ==> r == Trim(value.value)
  {
    if value.None? then "" else Trim(value.value)
  }

  /** Normalising a normalised value changes nothing. */
  lemma NormalizeIdempotent(value: Option<string>)
    ensures Normalize(Some(Normalize(value))) == Normalize(value)
  {
  }

  /** The environment variables the four URLs come from. */
  datatype Environment = Environment(
    appStoreUrl: Option<string>,
    playStoreUrl: Option<string>,
    websiteUrl: Option<string>,
    discordInviteUrl: Option<string>)

  /** The four exported URL constants. */
  datatype LinkConfig = LinkConfig(ios: string, android: string, website: string, discord: string)

  /** Each constant is its own variable, normalised. */
  function Configure(env: Environment): (cfg: LinkConfig)
    ensures cfg.ios == Normalize(env.appStoreUrl) && cfg.android == Normalize(env.playStoreUrl)
    ensures cfg.website == Normalize(env.websiteUrl) && cfg.discord == Normalize(env.discordInviteUrl)
    ensures IsTrimmed(cfg.ios) && IsTrimmed(cfg.android) && IsTrimmed(cfg.website) && IsTrimmed(cfg.discord)
  {
    LinkConfig(Normalize(env.appStoreUrl), Normalize(env.playStoreUrl),
               Normalize(env.websiteUrl), Normalize(env.discordInviteUrl))
  }

  /** `a || b` on strings. */
  function Or(a: string, b: string): string {
    if a != "" then a else b
  }

  /** The first non-empty candidate, or "" when all are empty. */
  function FirstNonEmpty(candidates: seq<string>): (r: string)
    ensures r == "" <==> forall i :: 0 <= i < |candidates| ==> candidates[i] == ""
    ensures r != "" ==> r in candidates
    ensures candidates != [] && candidates[0] != "" ==> r == candidates[0]
    ensures r != "" ==> exists i :: 0 <= i < |candidates| && candidates[i] == r && forall j :: 0 <= j < i ==> candidates[j] == ""
  {
    if candidates == [] then ""
    else if candidates[0] != "" then candidates[0]
    else FirstNonEmpty(candidates[1..])
  }

  /** `getAppStoreUrl`: the store of the platform itself; any other platform
      gets the website, else the iOS store, else the Play store. */
  function GetAppStoreUrl(platform: string, cfg: LinkConfig): (r: string)
    ensures platform == "ios" ==> r == cfg.ios
    ensures platform == "android" ==> r == cfg.android
    ensures platform != "ios" && platform != "android" ==> r == FirstNonEmpty([cfg.website, cfg.ios, cfg.android])
  {
    if platform == "ios" then cfg.ios
    else if platform == "android" then cfg.android
    else
      var r := Or(cfg.website, Or(cfg.ios, cfg.android));
      assert [cfg.website, cfg.ios, cfg.android][1..] == [cfg.ios, cfg.android];
      assert [cfg.ios, cfg.android][1..] == [cfg.android];
      assert [cfg.android][1..] == [];
      r
  }

  /** On iOS and Android the store URL is the platform's own variable, trimmed,
      and it is empty exactly when that variable is missing or blank. */
  lemma ConfiguredStoreUrls(env: Environment)
    ensures GetAppStoreUrl("ios", Configure(env)) == Normalize(env.appStoreUrl)
    ensures GetAppStoreUrl("android", Configure(env)) == Normalize(env.playStoreUrl)
    ensures GetAppStoreUrl("ios", Configure(env)) == "" <==> env.appStoreUrl.None? || IsBlank(env.appStoreUrl.value)
    ensures GetAppStoreUrl("android", Configure(env)) == "" <==> env.playStoreUrl.None? || IsBlank(env.playStoreUrl.value)
  {
  }

  /** `getShareUrl`: the website whenever it is set, for every platform. */
  function GetShareUrl(platform: string, cfg: LinkConfig): (r: string)
    ensures cfg.website != "" ==> r == cfg.website
    ensures cfg.website == "" ==> r == GetAppStoreUrl(platform, cfg)
  {
    Or(cfg.website, GetAppStoreUrl(platform, cfg))
  }

  /** Off iOS and Android the share URL and the store URL coincide, and both are
      empty only when no URL at all is configured. */
  lemma ShareUrlOffPlatform(platform: string, cfg: LinkConfig)
    requires platform != "ios" && platform != "android"
    ensures GetShareUrl(platform, cfg) == GetAppStoreUrl(platform, cfg)
    ensures GetShareUrl(platform, cfg) == "" <==> cfg.website == "" && cfg.ios == "" && cfg.android == ""
  {
    var c := [cfg.website, cfg.ios, cfg.android];
    assert c[0] == cfg.website && c[1] == cfg.ios && c[2] == cfg.android;
  }
}
