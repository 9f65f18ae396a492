/**
  Where the backend lives: an explicit `VITE_API_URL` wins; otherwise the
  page's host name decides, with port-forwarding hosts rewritten from the
  front-end port 5173 to the backend port 3001 and everything else sent to the
  local backend. The environment value, host name and protocol are parameters
  (`import.meta.env` and `window.location` are outside the model); the empty
  environment value stands for an unset one.
*/
module ApiConfig {
  import opened Text

  const LocalUrl := "http://localhost:3001/api"

  /** The text ends with `suffix`. */
  predicate EndsWith(s: string, suffix: string) {
    |suffix| <= |s| && s[|s| - |suffix|..] == suffix
  }

  lemma EndsWithAppended(x: string, suffix: string)
    ensures EndsWith(x + suffix, suffix)
  {
    assert (x + suffix)[|x|..] == suffix;
  }

  // ---------------------------------------------------------------------------
  // The dev-tunnel label rewrite
  // ---------------------------------------------------------------------------

  /** Where the trailing run of digits starts (`|s|` when `s` ends in a non-digit). */
  function TrailingDigits(s: string): (i: nat)
    ensures i <= |s|
    ensures forall j :: i <= j < |s| ==> IsDigit(s[j])
    ensures i > 0 ==> !IsDigit(s[i - 1])
  {
    if |s| == 0 || !IsDigit(s[|s| - 1]) then |s|
    else TrailingDigits(s[..|s| - 1])
  }

  /** The first host label rewritten for the backend: the first "5173" becomes
      "3001"; failing that a trailing number (`/\d+$/`) becomes "3001"; failing
      that "-3001" is appended. */
  function BackendLabel(first: string): (r: string)
    ensures !Contains(first, "5173") && TrailingDigits(first) < |first| ==>
      r == first[..TrailingDigits(first)] + "3001"
    ensures !Contains(first, "5173") && TrailingDigits(first) == |first| ==> r == first + "-3001"
  {
    if Contains(first, "5173") then ReplaceFirst(first, "5173", "3001")
    else
      var i := TrailingDigits(first);
      if i < |first| then first[..i] + "3001" else first + "-3001"
  }

  /** The first "5173" replaced by "3001" leaves "3001" where it was. */
  lemma ReplacedPortOccurs(first: string)
    requires Contains(first, "5173")
    ensures OccursAt(ReplaceFirst(first, "5173", "3001"), "3001", IndexOf(first, "5173").value)
  {
  }

  /** Whatever rule applies, the rewritten label names port 3001, and it gains no
      dot when the label had none. */
  lemma BackendLabelNamesPort(first: string)
    ensures Contains(BackendLabel(first), "3001")
    ensures '.' !in first ==> '.' !in BackendLabel(first)
  {
    var r := BackendLabel(first);
    if Contains(first, "5173") {
      var at := IndexOf(first, "5173").value;
      ReplacedPortOccurs(first);
      assert OccursAt(r, "3001", at);
      if '.' !in first {
        assert r == first[..at] + "3001" + first[at + 4..];
      }
    } else {
      var stem := if TrailingDigits(first) < |first| then first[..TrailingDigits(first)] else first + "-";
      assert r == stem + "3001";
      EndsWithAppended(stem, "3001");
      assert OccursAt(r, "3001", |r| - 4);
    }
    ContainsIffOccurs(r, "3001");
  }

  /** The labels of the backend host: the first rewritten, the rest as they were. */
  function BackendLabels(host: string): (labels: seq<string>)
    ensures |labels| == |Split(host, '.')|
    ensures labels[0] == BackendLabel(Split(host, '.')[0])
    ensures labels[1..] == Split(host, '.')[1..]
  {
    var parts := Split(host, '.');
    [BackendLabel(parts[0])] + parts[1..]
  }

  /** `[newPortPart, ...hostParts.slice(1)].join('.')`. */
  function BackendHost(host: string): string {
    Join(BackendLabels(host), '.')
  }

  /** The backend host splits back into the same labels, so only the first label
      of a dev-tunnel host changes and it then names port 3001. */
  lemma BackendHostLabels(host: string)
    ensures Split(BackendHost(host), '.') == BackendLabels(host)
    ensures |Split(BackendHost(host), '.')| == |Split(host, '.')|
    ensures Split(BackendHost(host), '.')[1..] == Split(host, '.')[1..]
    ensures Contains(Split(BackendHost(host), '.')[0], "3001")
  {
    var parts := Split(host, '.');
    var labels := BackendLabels(host);
    assert '.' !in parts[0];
    BackendLabelNamesPort(parts[0]);
    forall i | 0 <= i < |labels| ensures '.' !in labels[i] {
      if i > 0 {
        assert labels[i] == parts[i];
      }
    }
    SplitJoin(labels, '.');
  }

  // ---------------------------------------------------------------------------
  // detectApiUrl
  // ---------------------------------------------------------------------------

  /** The kinds of host the detection tells apart, in the order it tries them. */
  datatype Route = Explicit | Local | DevTunnel | Ngrok | LocalTunnel | Cloudflare | Unknown

  /** The page is served by the local development server. */
  predicate IsLocalHost(host: string) {
    host == "localhost" || host == "127.0.0.1"
  }

  /** A Cursor dev-tunnel host the detection rewrites: it names devtunnels.ms and
      has at least three labels. */
  predicate IsDevTunnelHost(host: string) {
    Contains(host, "devtunnels.ms") && |Split(host, '.')| >= 3
  }

  /** Which branch of the detection a host takes: the first check, in source
      order, that it passes. A dev-tunnel host with fewer than three labels is
      not treated as one and falls through. */
  function RouteOf(env: string, host: string): (r: Route)
    ensures r == Explicit <==> env != ""
    ensures r == Local <==> env == "" && IsLocalHost(host)
    ensures r == DevTunnel <==> env == "" && !IsLocalHost(host) && IsDevTunnelHost(host)
    ensures r == Ngrok <==>
      env == "" && !IsLocalHost(host) && !IsDevTunnelHost(host) && Contains(host, "ngrok")
    ensures r == LocalTunnel <==>
      env == "" && !IsLocalHost(host) && !IsDevTunnelHost(host) && !Contains(host, "ngrok")
      && Contains(host, "loca.lt")
    ensures r == Cloudflare <==>
      env == "" && !IsLocalHost(host) && !IsDevTunnelHost(host) && !Contains(host, "ngrok")
      && !Contains(host, "loca.lt") && Contains(host, "tunnel.local")
    ensures r == Unknown <==>
      env == "" && !IsLocalHost(host) && !IsDevTunnelHost(host) && !Contains(host, "ngrok")
      && !Contains(host, "loca.lt") && !Contains(host, "tunnel.local")
  {
    if env != "" then Explicit
    else if IsLocalHost(host) then Local
    else if IsDevTunnelHost(host) then DevTunnel
    else if Contains(host, "ngrok") then Ngrok
    else if Contains(host, "loca.lt") then LocalTunnel
    else if Contains(host, "tunnel.local") then Cloudflare
    else Unknown
  }

  /** `detectApiUrl()` for the given environment value, host name and protocol
      (the protocol includes its colon, as `location.protocol` does). */
  function DetectApiUrl(env: string, host: string, protocol: string): (r: string)
    ensures env != "" ==> r == env
    ensures env == "" ==> EndsWith(r, "/api")
    ensures RouteOf(env, host) in {Local, LocalTunnel, Unknown} ==> r == LocalUrl
    ensures RouteOf(env, host) == DevTunnel ==> r == protocol + "//" + BackendHost(host) + "/api"
    ensures RouteOf(env, host) in {Ngrok, Cloudflare} ==>
      r == protocol + "//" + ReplaceFirst(host, "5173", "3001") + "/api"
  {
    match RouteOf(env, host)
    case Explicit => env
    case DevTunnel =>
      EndsWithAppended(protocol + "//" + BackendHost(host), "/api");
      protocol + "//" + BackendHost(host) + "/api"
    case Ngrok | Cloudflare =>
      EndsWithAppended(protocol + "//" + ReplaceFirst(host, "5173", "3001"), "/api");
      protocol + "//" + ReplaceFirst(host, "5173", "3001") + "/api"
    case _ =>
      EndsWithAppended("http://localhost:3001", "/api");
      LocalUrl
  }

  /** A host that names no port 5173 is kept as it is behind ngrok or a
      Cloudflare tunnel. */
  lemma TunnelWithoutFrontendPort(host: string, protocol: string)
    requires RouteOf("", host) in {Ngrok, Cloudflare} && !Contains(host, "5173")
    ensures DetectApiUrl("", host, protocol) == protocol + "//" + host + "/api"
  {
  }

  // ---------------------------------------------------------------------------
  // apiConfig, getCurrentApiUrl, updateApiUrl, API_BASE_URL
  // ---------------------------------------------------------------------------

  datatype Config = Config(baseUrl: string, timeout: nat, retries: nat)

  /** The module's state: the mutable `apiConfig` and the `API_BASE_URL` constant
      copied from it once, when the module loads. */
  datatype Settings = Settings(config: Config, apiBaseUrl: string)

  /** The module as loaded: both hold the detected URL; ten seconds, three retries. */
  function Load(env: string, host: string, protocol: string): (m: Settings)
    ensures m.config.baseUrl == DetectApiUrl(env, host, protocol) && m.apiBaseUrl == m.config.baseUrl
    ensures m.config.timeout == 10000 && m.config.retries == 3
  {
    var url := DetectApiUrl(env, host, protocol);
    Settings(Config(url, 10000, 3), url)
  }

  /** `getCurrentApiUrl()`. */
  function CurrentApiUrl(m: Settings): string {
    m.config.baseUrl
  }

  /** `updateApiUrl(u)`: only the configuration object changes; the exported
      constant keeps the URL detected at load. */
  function UpdateApiUrl(m: Settings, u: string): (r: Settings)
    ensures CurrentApiUrl(r) == u
    ensures r.apiBaseUrl == m.apiBaseUrl
    ensures r.config.timeout == m.config.timeout && r.config.retries == m.config.retries
  {
    m.(config := m.config.(baseUrl := u))
  }

  /** The URL a request to `endpoint` goes to, as the service builds it: from
      `API_BASE_URL`. */
  function RequestUrlAsWritten(m: Settings, endpoint: string): string {
    m.apiBaseUrl + endpoint
  }

  /** The URL a request should go to: from the current URL, so that a manual
      update redirects the calls. */
  function RequestUrl(m: Settings, endpoint: string): string {
    CurrentApiUrl(m) + endpoint
  }

  lemma SuffixCancels(a: string, b: string, e: string)
    requires a + e == b + e
    ensures a == b
  {
    assert a == (a + e)[..|a|];
    assert b == (b + e)[..|b|];
  }

  /** As written, a manual update never reaches the requests: after switching to
      any other URL they still go to the detected one. */
  lemma UpdateIgnoredAsWritten(env: string, host: string, protocol: string, u: string, endpoint: string)
    requires u != DetectApiUrl(env, host, protocol)
    ensures RequestUrlAsWritten(UpdateApiUrl(Load(env, host, protocol), u), endpoint)
         == DetectApiUrl(env, host, protocol) + endpoint
    ensures RequestUrlAsWritten(UpdateApiUrl(Load(env, host, protocol), u), endpoint) != u + endpoint
  {
    if DetectApiUrl(env, host, protocol) + endpoint == u + endpoint {
      SuffixCancels(DetectApiUrl(env, host, protocol), u, endpoint);
    }
  }

  /** Built from the current URL, requests follow a manual update and, before
      any, go to the detected URL. */
  lemma UpdateRedirects(m: Settings, env: string, host: string, protocol: string, u: string, endpoint: string)
    ensures RequestUrl(UpdateApiUrl(m, u), endpoint) == u + endpoint
    ensures RequestUrl(Load(env, host, protocol), endpoint) == DetectApiUrl(env, host, protocol) + endpoint
  {
  }
}
