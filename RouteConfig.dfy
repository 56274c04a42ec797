/** Resolving an endpoint's route config (its file-type and size limits)
    from endpoint metadata: the list of `{ slug, config }` entries the server
    injects into the page, or that the hook fetches from the API URL. */
module RouteConfig {
  import opened Wrappers

  /** One entry of the endpoint metadata. */
  datatype EndpointEntry<C> = EndpointEntry(slug: string, config: C)

  /** Entry `i` is the first whose slug is `endpoint`. */
  predicate IsFirstMatch<C>(metadata: seq<EndpointEntry<C>>, endpoint: string, i: int) {
    && 0 <= i < |metadata|
    && metadata[i].slug == endpoint
    && forall j :: 0 <= j < i ==> metadata[j].slug != endpoint
  }

  /** The index of the first entry at or after `from` whose slug is
      `endpoint`, if there is one. */
  function FindFrom<C>(metadata: seq<EndpointEntry<C>>, endpoint: string, from: nat): (r: Option<nat>)
    requires forall j :: 0 <= j < from && j < |metadata| ==> metadata[j].slug != endpoint
    ensures r.Some? ==> IsFirstMatch(metadata, endpoint, r.value)
    ensures r.None? ==> forall j :: 0 <= j < |metadata| ==> metadata[j].slug != endpoint
    decreases |metadata| - from
  {
    if from >= |metadata| then None
    else if metadata[from].slug == endpoint then Some(from)
    else FindFrom(metadata, endpoint, from + 1)
  }

  /** `metadata.find((x) => x.slug === endpoint)?.config`: the config of the
      first entry with that slug, or nothing when no entry has it. */
  function FindConfig<C>(metadata: seq<EndpointEntry<C>>, endpoint: string): (r: Option<C>)
    ensures r.None? <==> forall j :: 0 <= j < |metadata| ==> metadata[j].slug != endpoint
    ensures forall i :: IsFirstMatch(metadata, endpoint, i) ==> r == Some(metadata[i].config)
  {
    match FindFrom(metadata, endpoint, 0)
    case None => None
    case Some(i) =>
      assert forall k :: IsFirstMatch(metadata, endpoint, k) ==> k == i;
      Some(metadata[i].config)
  }

  /** What `useRouteConfig` does in one render: the URL it asks `useFetch`
      for (none when the server snapshot is present), and the config it
      returns. */
  datatype Resolution<C> = Resolution(fetchUrl: Option<string>, config: Option<C>)

  /** `useRouteConfig`. `serverData` is the injected snapshot, `fetched` the
      data `useFetch` holds so far (none while the request is pending).
      With a snapshot nothing is fetched and the snapshot is searched;
      otherwise the API URL is fetched and the fetched data, once there, is
      searched. */
  function UseRouteConfig<C>(serverData: Option<seq<EndpointEntry<C>>>, fetched: Option<seq<EndpointEntry<C>>>,
                             url: string, endpoint: string): (r: Resolution<C>)
    ensures r.fetchUrl.None? <==> serverData.Some?
    ensures r.fetchUrl.Some? ==> r.fetchUrl.value == url
    ensures serverData.Some? ==> r.config == FindConfig(serverData.value, endpoint)
    ensures serverData.None? && fetched.None? ==> r.config.None?
    ensures serverData.None? && fetched.Some? ==> r.config == FindConfig(fetched.value, endpoint)
  {
    var fetchUrl := if serverData.Some? then None else Some(url);
    var source := if serverData.Some? then serverData else fetched;
    Resolution(fetchUrl, if source.Some? then FindConfig(source.value, endpoint) else None)
  }

  /** The message of the error `getRouteConfig` throws. */
  function NoConfigMessage(endpoint: string): string {
    "No config found for endpoint \"" + endpoint
      + "\". Please make sure to use the NextSSRPlugin in your Next.js app."
  }

  /** `getRouteConfig`: the snapshot's config for the endpoint; it throws
      exactly when there is no snapshot or no entry has that slug, and never
      fetches. */
  function GetRouteConfig<C>(serverData: Option<seq<EndpointEntry<C>>>, endpoint: string): (r: Result<C, string>)
    ensures r.Err? <==> serverData.None? || forall j :: 0 <= j < |serverData.value| ==> serverData.value[j].slug != endpoint
    ensures r.Err? ==> r.error == NoConfigMessage(endpoint)
    ensures r.Ok? ==> forall i :: IsFirstMatch(serverData.value, endpoint, i) ==> r.value == serverData.value[i].config
  {
    var config := if serverData.Some? then FindConfig(serverData.value, endpoint) else None;
    if config.None? then Err(NoConfigMessage(endpoint)) else Ok(config.value)
  }

  /** With a snapshot, the hook and the standalone lookup agree: the hook
      finds a config exactly when `getRouteConfig` does not throw, and it is
      the same config. */
  lemma HookAgreesWithGetRouteConfig<C>(serverData: seq<EndpointEntry<C>>, fetched: Option<seq<EndpointEntry<C>>>,
                                        url: string, endpoint: string)
    ensures var hook := UseRouteConfig(Some(serverData), fetched, url, endpoint).config;
            var direct := GetRouteConfig(Some(serverData), endpoint);
            && (hook.Some? <==> direct.Ok?)
            && (hook.Some? ==> hook.value == direct.value)
  {
  }

  /** The deprecated `permittedFileInfo`: the endpoint's slug with its
      config, present exactly when the config is. */
  function PermittedFileInfo<C>(endpoint: string, routeConfig: Option<C>): (r: Option<EndpointEntry<C>>)
    ensures r.Some? <==> routeConfig.Some?
    ensures r.Some? ==> r.value.slug == endpoint && r.value.config == routeConfig.value
  {
    if routeConfig.Some? then Some(EndpointEntry(endpoint, routeConfig.value)) else None
  }
}
