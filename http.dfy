/**
 * Request resolution of Application/Core/Http.php together with the page
 * cache gate of Application/Core/Include.php. A request is answered, in this
 * order, from the page cache, by a 301 redirect, by a static page, by a
 * controller action, or by the 404 page. Headers, output buffering and exit
 * become the returned Response; Logger calls become LogCall values.
 */
module Http {
  import opened ByteStrings
  import opened Config
  import opened Env
  import Utils

  /** How a request ends. */
  datatype Response =
    | FromCache(status: Bytes, body: Bytes)      // a cached page echoed with its stored status
    | Redirected(location: Bytes)                // Location header with status 301
    | Page(code: int, body: Bytes)               // a page file's output with status code
    | Action(className: Bytes, action: Bytes)    // a controller method invoked
    | PageMissing(path: Bytes)                   // require_once of a page that is not a file: fatal error

  // ------------------------------------------------------------- request URL

  /** The requested path: $_GET['url'] when set, "index" otherwise. */
  function RequestedPath(server: Server): (url: Bytes)
    ensures server.urlParam.None? ==> url == "index"
    ensures server.urlParam.Some? ==> url == server.urlParam.value
  {
    match server.urlParam
    case None => "index"
    case Some(u) => u
  }

  /** Http::getRequestUrl: scheme, host and the raw request URI. */
  function RequestUrl(server: Server): Bytes {
    Utils.Scheme(server.https) + "://" + server.host + server.requestUri
  }

  // ------------------------------------------------------------- redirects

  /** The 301 target for a path: "/" + the mapped path, when the map has the path and maps it elsewhere. */
  function RedirectLocation(redirects: Option<map<Bytes, Bytes>>, url: Bytes): Option<Bytes> {
    if redirects.Some? && url in redirects.value && url != redirects.value[url] then Some("/" + redirects.value[url])
    else None
  }

  /** A redirect is issued exactly for a mapped path with a different target, and never points back at the path itself. */
  lemma RedirectOnlyElsewhere(redirects: Option<map<Bytes, Bytes>>, url: Bytes)
    ensures RedirectLocation(redirects, url).Some? <==>
              redirects.Some? && url in redirects.value && redirects.value[url] != url
    ensures RedirectLocation(redirects, url) != Some("/" + url)
  {
    if redirects.Some? && url in redirects.value && url != redirects.value[url] {
      var target := redirects.value[url];
      assert ("/" + target)[1..] == target;
      assert ("/" + url)[1..] == url;
    }
  }

  // ------------------------------------------------------------- page files

  /** getFile: PAGE_DIR, the path with "/" turned into DS, DS + "index" for a directory, then ".php". */
  function PageFile(host: Host, url: Bytes): Bytes {
    var filepath := Replace(url, "/", host.ds);
    var base := PageDir(host) + filepath;
    if IsDir(host, base) then base + host.ds + "index" + ".php" else base + ".php"
  }

  /** On a host whose separator is "/" the path is used as given. */
  lemma PageFileOnSlashHost(host: Host, url: Bytes)
    requires host.ds == "/"
    ensures PageFile(host, url)
         == PageDir(host) + url + (if IsDir(host, PageDir(host) + url) then "/index" else []) + ".php"
  {
    ReplaceBySelf(url, "/");
  }

  /** On a host with another separator no "/" of the URL survives in the page path. */
  lemma PageFileHasNoSlash(host: Host, url: Bytes)
    requires '/' !in host.ds
    ensures var rel := PageFile(host, url)[|PageDir(host)|..]; '/' !in rel
  {
    var p: Byte := '/';
    ReplaceByteRemovesIt(url, p, host.ds);
    var filepath := Replace(url, "/", host.ds);
    var base := PageDir(host) + filepath;
    var rel := PageFile(host, url)[|PageDir(host)|..];
    if IsDir(host, base) {
      assert rel == filepath + host.ds + "index" + ".php";
    } else {
      assert rel == filepath + ".php";
    }
  }

  /** The path of the 404 page. */
  function NotFoundPage(host: Host): Bytes {
    PageDir(host) + "404.php"
  }

  // ------------------------------------------------------------- controllers

  /** parseURL: the first "/"-segment, and the second or "index" when it is missing or exactly "". */
  function ParseUrl(url: Bytes): (Bytes, Bytes) {
    var parts := Explode("/", url);
    (parts[0], if |parts| >= 2 && parts[1] != [] then parts[1] else "index")
  }

  /** A path without "/" names a controller and its "index" action. */
  lemma ParseUrlOneSegment(c: Bytes)
    requires '/' !in c
    ensures ParseUrl(c) == (c, "index")
  {
    ContainsByte(c, '/');
    ExplodeWithoutDelimiter("/", c);
  }

  /** "c/a" names controller c and action a; only an empty a falls back to "index", so "c/0" keeps the action "0". */
  lemma ParseUrlTwoSegments(c: Bytes, a: Bytes)
    requires '/' !in c && '/' !in a
    ensures ParseUrl(c + "/" + a) == (c, if a == [] then "index" else a)
  {
    ExplodeAfterPrefix("/", c, a);
    ContainsByte(a, '/');
    ExplodeWithoutDelimiter("/", a);
  }

  lemma ZeroActionKept(c: Bytes)
    requires '/' !in c
    ensures ParseUrl(c + "/0") == (c, "0")
  {
    var zero: Bytes := "0";
    assert '/' !in zero;
    assert c + "/" + zero == c + "/0";
    ParseUrlTwoSegments(c, zero);
  }

  /** camelize(controller) . "Controller". */
  function ControllerClass(controller: Bytes): Bytes {
    Utils.Camelize(controller) + "Controller"
  }

  /** APP_ROOT . "Controllers" . DS . class . ".php". */
  function ControllerPath(host: Host, className: Bytes): Bytes {
    host.appRoot + "Controllers" + host.ds + className + ".php"
  }

  /** The controller file, its class and the action method all exist. */
  predicate ControllerRuns(host: Host, url: Bytes) {
    var (controller, action) := ParseUrl(url);
    var className := ControllerClass(controller);
    FileExists(host, ControllerPath(host, className)) && ClassExists(host, className)
      && MethodExists(host, className, action)
  }

  /** The error executeController logs for the first missing piece. */
  function ControllerError(host: Host, url: Bytes): LogCall {
    var (controller, action) := ParseUrl(url);
    var className := ControllerClass(controller);
    var path := ControllerPath(host, className);
    if !FileExists(host, path) then LogCall("error", "Controller file missing: " + path)
    else if !ClassExists(host, className) then LogCall("error", "Class " + className + " not found in file.")
    else LogCall("error", "Method " + action + " not found in class " + className + ".")
  }

  // ------------------------------------------------------------- requests

  /** isPost: the method is POST in any ASCII case and $_POST is not empty. */
  function IsPost(server: Server): bool {
    Upper(server.requestMethod) == "POST" && |server.post| > 0
  }

  /** isAjax: X-Requested-With is set, not PHP-empty, and XMLHttpRequest in any ASCII case. */
  function IsAjax(server: Server): bool {
    server.requestedWith.Some? && !IsEmptyString(server.requestedWith.value)
      && Lower(server.requestedWith.value) == "xmlhttprequest"
  }

  /** The emptiness test in isAjax never decides anything: the header only has to match case-insensitively. */
  lemma IsAjaxIsCaseInsensitiveMatch(server: Server)
    ensures IsAjax(server) <==> server.requestedWith.Some? && Lower(server.requestedWith.value) == "xmlhttprequest"
  {
    if server.requestedWith.Some? && Lower(server.requestedWith.value) == "xmlhttprequest" {
      assert |server.requestedWith.value| == 14;
    }
  }

  /** isPost does not depend on the case of the request method. */
  lemma IsPostIgnoresMethodCase(server: Server)
    ensures IsPost(server.(requestMethod := Lower(server.requestMethod))) == IsPost(server)
  {
    var m := server.requestMethod;
    assert Upper(Lower(m)) == Upper(m);
  }

  // ------------------------------------------------------------- page cache

  /** The stored form of a page: the status code, "====", the content. */
  function Envelope(code: int, content: Bytes): Bytes {
    Decimal(code) + "====" + content
  }

  /** list($code, $response) = explode("====", $text): a missing second piece reads as null, echoed as "". */
  function Unwrap(text: Bytes): (Bytes, Bytes) {
    var pieces := Explode("====", text);
    (pieces[0], if |pieces| >= 2 then pieces[1] else [])
  }

  /**
   * The envelope round trip as written: the status code always comes back,
   * but the body comes back whole only when it does not contain "====";
   * otherwise only its part before the first "====" is served.
   */
  lemma {:induction false} EnvelopeRoundTrip(code: int, content: Bytes)
    ensures Unwrap(Envelope(code, content)).0 == Decimal(code)
    ensures Unwrap(Envelope(code, content)).1 == Explode("====", content)[0]
    ensures Unwrap(Envelope(code, content)).1 == content <==> !Contains(content, "====")
  {
    DecimalHasNoEquals(code);
    ExplodeAfterPrefix("====", Decimal(code), content);
    ExplodeFirstPiece("====", content);
  }

  /** A page holding "====" is cut short: "<p>a====b</p>" comes back from the cache as "<p>a". */
  lemma EnvelopeTruncates(code: int, content: Bytes)
    requires content == "<p>a====b</p>"
    ensures Unwrap(Envelope(code, content)) == (Decimal(code), "<p>a")
  {
    var head: Bytes, tail: Bytes := "<p>a", "b</p>";
    assert content == head + "====" + tail;
    assert '=' !in head;
    EnvelopeRoundTrip(code, content);
    ExplodeAfterPrefix("====", head, tail);
  }

  /** Splitting the stored text at the first "====" only, as explode with a limit of 2 does. */
  function UnwrapFirst(text: Bytes): (Bytes, Bytes) {
    match SplitFirst("====", text)
    case None => (text, [])
    case Some(parts) => parts
  }

  /** With the split limited to the first "====", every page comes back exactly as it was stored. */
  lemma EnvelopeRoundTripFirst(code: int, content: Bytes)
    ensures UnwrapFirst(Envelope(code, content)) == (Decimal(code), content)
  {
    DecimalHasNoEquals(code);
    SplitFirstAfterPrefix("====", Decimal(code), content);
  }

  /**
   * The settings the page cache reads, as the key paths Get splits
   * "cache.enable", "cache.key" and "minify" into (SettingPaths).
   */
  const CacheEnableSegments: seq<Bytes> := ["cache", "enable"]
  const CacheKeySegments: seq<Bytes> := ["cache", "key"]
  const MinifySegments: seq<Bytes> := ["minify"]

  /** Get splits each of the three keys into exactly the path named above. */
  lemma SettingPaths(enable: Bytes, key: Bytes, minify: Bytes)
    requires enable == "cache.enable" && key == "cache.key" && minify == "minify"
    ensures KeyPath(enable) == CacheEnableSegments
    ensures KeyPath(key) == CacheKeySegments
    ensures KeyPath(minify) == MinifySegments
  {
    var c: Bytes, e: Bytes, k: Bytes, m: Bytes := "cache", "enable", "key", "minify";
    assert '.' !in c && '.' !in e && '.' !in k && '.' !in m;
    assert !IsEmptyString(c) && !IsEmptyString(e) && !IsEmptyString(k) && !IsEmptyString(m);
    assert c + "." + e == enable;
    assert c + "." + k == key;
    assert m == minify;
    TwoSegmentPath(c, e);
    TwoSegmentPath(c, k);
    SingleSegmentPath(m);
  }

  /** The URL a cache file is keyed by: the given one, or the request URL when it is PHP-empty. */
  function CacheTarget(server: Server, url: Bytes): Bytes {
    if IsEmptyString(url) then RequestUrl(server) else url
  }

  /** The text whose md5 names a cache file: URL, cache key and the minify marker, joined by "::". */
  function CacheKeyText(target: Bytes, cacheKey: Value, minify: Value): Bytes {
    target + "::" + AsString(cacheKey) + "::" + (if Truthy(minify) then "minified" else "")
  }

  /** getCaheFilePath: TEMP_DIR . "Cache" . DS . md5(key text), reading "cache.key" and "minify" through Get. */
  function CacheFilePath(host: Host, config: map<Bytes, Value>, server: Server, url: Bytes, md5: Bytes -> Bytes): Bytes {
    TempDir(host) + "Cache" + host.ds
      + md5(CacheKeyText(CacheTarget(server, url), Descend(config, CacheKeySegments), Descend(config, MinifySegments)))
  }

  /** Minified and plain renderings of the same page under the same cache key are keyed apart. */
  lemma MinifiedKeyedApart(target: Bytes, cacheKey: Value, minify: Value, minify': Value)
    requires Truthy(minify) && !Truthy(minify')
    ensures CacheKeyText(target, cacheKey, minify) != CacheKeyText(target, cacheKey, minify')
    ensures |CacheKeyText(target, cacheKey, minify)| == |CacheKeyText(target, cacheKey, minify')| + 8
  {
  }

  /** Loading with no URL and loading with the request URL itself read the same cache file. */
  lemma EmptyUrlMeansRequestUrl(host: Host, config: map<Bytes, Value>, server: Server, md5: Bytes -> Bytes)
    requires !IsEmptyString(RequestUrl(server))
    ensures CacheFilePath(host, config, server, "", md5) == CacheFilePath(host, config, server, RequestUrl(server), md5)
  {
  }

  /** What a page file renders to after the optional minification (`minify === true`). */
  function CachedContent(config: map<Bytes, Value>, output: Bytes, minifier: Bytes -> Bytes): Bytes {
    if Descend(config, MinifySegments) == Bool(true) then minifier(output) else output
  }

  /** The response for rendering path with a status code. */
  function Rendered(host: Host, path: Bytes, code: int): Response {
    if path in host.files then Page(code, host.files[path]) else PageMissing(path)
  }

  function RenderLogs(host: Host, server: Server, path: Bytes): seq<LogCall> {
    if path in host.files then [LogCall("debug", "From Code :: " + RequestUrl(server))] else []
  }

  /** savePageToCache: the cache directory after saving, which happens only when `cache.enable === true`. */
  function AfterSave(files: map<Bytes, Bytes>, host: Host, config: map<Bytes, Value>, server: Server,
                     content: Bytes, code: int, md5: Bytes -> Bytes): map<Bytes, Bytes> {
    if Descend(config, CacheEnableSegments) == Bool(true) then files[CacheFilePath(host, config, server, "", md5) := Envelope(code, content)]
    else files
  }

  /** The cache directory after rendering path with code. */
  function AfterRender(files: map<Bytes, Bytes>, host: Host, config: map<Bytes, Value>, server: Server,
                       path: Bytes, code: int, minifier: Bytes -> Bytes, md5: Bytes -> Bytes): map<Bytes, Bytes> {
    if path in host.files then AfterSave(files, host, config, server, CachedContent(config, host.files[path], minifier), code, md5)
    else files
  }

  /** A cache lookup hits when nothing was posted and the cache file for the request exists. */
  predicate CacheHit(files: map<Bytes, Bytes>, host: Host, config: map<Bytes, Value>, server: Server, md5: Bytes -> Bytes) {
    |server.post| == 0 && CacheFilePath(host, config, server, "", md5) in files
  }

  /** Include.php consults the cache only when `cache.enable == true` (loosely) and PHP does not run from the command line. */
  predicate CacheGateOpen(config: map<Bytes, Value>, server: Server) {
    Truthy(Descend(config, CacheEnableSegments)) && server.sapi != "cli"
  }

  /** Http::loadPageFromCache. */
  method LoadPageFromCache(url: Bytes, host: Host, config: map<Bytes, Value>, server: Server, cache: CacheDir, md5: Bytes -> Bytes)
    returns (served: Option<(Bytes, Bytes)>, logs: seq<LogCall>)
    ensures served.Some? <==> |server.post| == 0 && CacheFilePath(host, config, server, url, md5) in cache.files
    ensures served.Some? ==> served.value == Unwrap(cache.files[CacheFilePath(host, config, server, url, md5)])
    ensures logs == if served.Some? then [LogCall("debug", "From Cache :: " + RequestUrl(server))] else []
  {
    served, logs := None, [];
    if |server.post| == 0 {
      var path := CacheFilePath(host, config, server, url, md5);
      if path in cache.files {
        served := Some(Unwrap(cache.files[path]));
        logs := [LogCall("debug", "From Cache :: " + RequestUrl(server))];
      }
    }
  }

  /** Http::savePageToCache. */
  method SavePageToCache(content: Bytes, code: int, host: Host, config: map<Bytes, Value>, server: Server,
                         cache: CacheDir, md5: Bytes -> Bytes)
    modifies cache
    ensures cache.files == AfterSave(old(cache.files), host, config, server, content, code, md5)
  {
    if Descend(config, CacheEnableSegments) == Bool(true) {
      var path := CacheFilePath(host, config, server, "", md5);
      cache.Write(path, Envelope(code, content));
    }
  }

  class Http {
    var url: Bytes
    var pageFilePath: Bytes

    /** The first statement of the constructor: the requested path. */
    constructor (server: Server)
      ensures url == RequestedPath(server) && pageFilePath == []
    {
      url := RequestedPath(server);
      pageFilePath := [];
    }

    /** permenantRedirect: the Location to send with status 301, if any; None when Redirect.php is absent. */
    method PermanentRedirect(redirects: Option<map<Bytes, Bytes>>) returns (location: Option<Bytes>)
      ensures location == RedirectLocation(redirects, url)
    {
      location := None;
      if redirects.Some? {
        var map_ := redirects.value;
        if url in map_ && url != map_[url] {
          location := Some("/" + map_[url]);
        }
      }
    }

    /** getFile. */
    method GetFile(host: Host)
      modifies this
      ensures url == old(url) && pageFilePath == PageFile(host, url)
    {
      var filepath := Replace(url, "/", host.ds);
      if IsDir(host, PageDir(host) + filepath) {
        filepath := filepath + host.ds + "index";
      }
      pageFilePath := PageDir(host) + filepath + ".php";
    }

    /** executeController: true exactly when the action ran; each missing piece logs one error. */
    method ExecuteController(host: Host) returns (ok: bool, logs: seq<LogCall>)
      ensures ok <==> ControllerRuns(host, url)
      ensures ok ==> logs == []
      ensures !ok ==> logs == [ControllerError(host, url)]
    {
      var parts := ParseUrl(url);
      var controller, action := parts.0, parts.1;
      var className := ControllerClass(controller);
      var path := ControllerPath(host, className);
      if FileExists(host, path) {
        if ClassExists(host, className) {
          if MethodExists(host, className, action) {
            return true, [];
          }
          return false, [LogCall("error", "Method " + action + " not found in class " + className + ".")];
        }
        return false, [LogCall("error", "Class " + className + " not found in file.")];
      }
      return false, [LogCall("error", "Controller file missing: " + path)];
    }

    /** renderPage: run the page, save what it printed (minified if configured) to the cache, log, exit. */
    method RenderPage(code: int, host: Host, config: map<Bytes, Value>, server: Server, cache: CacheDir,
                      minifier: Bytes -> Bytes, md5: Bytes -> Bytes) returns (response: Response, logs: seq<LogCall>)
      modifies cache
      ensures response == Rendered(host, pageFilePath, code)
      ensures logs == RenderLogs(host, server, pageFilePath)
      ensures cache.files == AfterRender(old(cache.files), host, config, server, pageFilePath, code, minifier, md5)
    {
      if pageFilePath !in host.files {
        return PageMissing(pageFilePath), [];
      }
      var output := host.files[pageFilePath];
      var content := if Descend(config, MinifySegments) == Bool(true) then minifier(output) else output;
      SavePageToCache(content, code, host, config, server, cache, md5);
      logs := [LogCall("debug", "From Code :: " + RequestUrl(server))];
      // The buffer PHP flushes on exit is the page's own output; only the cache holds the minified text.
      response := Page(code, output);
    }

    /** render404. */
    method Render404(host: Host, config: map<Bytes, Value>, server: Server, cache: CacheDir,
                     minifier: Bytes -> Bytes, md5: Bytes -> Bytes) returns (response: Response, logs: seq<LogCall>)
      modifies this, cache
      ensures url == old(url) && pageFilePath == NotFoundPage(host)
      ensures response == Rendered(host, NotFoundPage(host), 404)
      ensures logs == RenderLogs(host, server, NotFoundPage(host))
      ensures cache.files == AfterRender(old(cache.files), host, config, server, NotFoundPage(host), 404, minifier, md5)
    {
      pageFilePath := PageDir(host) + "404.php";
      response, logs := RenderPage(404, host, config, server, cache, minifier, md5);
    }

    /** execute: static page first, then the controller, then the 404 page. */
    method Execute(host: Host, config: map<Bytes, Value>, server: Server, cache: CacheDir,
                   minifier: Bytes -> Bytes, md5: Bytes -> Bytes) returns (response: Response, logs: seq<LogCall>)
      modifies this, cache
      ensures url == old(url)
      ensures FileExists(host, old(pageFilePath)) ==>
                pageFilePath == old(pageFilePath)
                && response == Rendered(host, pageFilePath, 200)
                && logs == RenderLogs(host, server, pageFilePath)
                && cache.files == AfterRender(old(cache.files), host, config, server, pageFilePath, 200, minifier, md5)
      ensures !FileExists(host, old(pageFilePath)) && ControllerRuns(host, url) ==>
                pageFilePath == old(pageFilePath)
                && response == Action(ControllerClass(ParseUrl(url).0), ParseUrl(url).1)
                && logs == [] && cache.files == old(cache.files)
      ensures !FileExists(host, old(pageFilePath)) && !ControllerRuns(host, url) ==>
                pageFilePath == NotFoundPage(host)
                && response == Rendered(host, NotFoundPage(host), 404)
                && logs == [ControllerError(host, url)] + RenderLogs(host, server, NotFoundPage(host))
                && cache.files == AfterRender(old(cache.files), host, config, server, NotFoundPage(host), 404, minifier, md5)
    {
      if FileExists(host, pageFilePath) {
        response, logs := RenderPage(200, host, config, server, cache, minifier, md5);
      } else {
        var ok, controllerLogs := ExecuteController(host);
        if ok {
          var parts := ParseUrl(url);
          response, logs := Action(ControllerClass(parts.0), parts.1), controllerLogs;
        } else {
          var pageLogs;
          response, pageLogs := Render404(host, config, server, cache, minifier, md5);
          logs := controllerLogs + pageLogs;
        }
      }
    }
  }

  /**
   * One web request: the cache gate of Include.php, then `new Http()` (the
   * requested path, the redirect check, getFile) and `execute()`.
   * `redirects` is the array Redirect.php returns, None when it is absent.
   */
  method HandleRequest(host: Host, config: map<Bytes, Value>, server: Server, redirects: Option<map<Bytes, Bytes>>,
                       cache: CacheDir, minifier: Bytes -> Bytes, md5: Bytes -> Bytes)
    returns (response: Response, logs: seq<LogCall>)
    modifies cache
    ensures CacheGateOpen(config, server) && CacheHit(old(cache.files), host, config, server, md5) ==>
              response == FromCache(Unwrap(old(cache.files)[CacheFilePath(host, config, server, "", md5)]).0,
                                    Unwrap(old(cache.files)[CacheFilePath(host, config, server, "", md5)]).1)
              && logs == [LogCall("debug", "From Cache :: " + RequestUrl(server))]
              && cache.files == old(cache.files)
    ensures !(CacheGateOpen(config, server) && CacheHit(old(cache.files), host, config, server, md5))
            && RedirectLocation(redirects, RequestedPath(server)).Some? ==>
              response == Redirected(RedirectLocation(redirects, RequestedPath(server)).value)
              && logs == [] && cache.files == old(cache.files)
    ensures !(CacheGateOpen(config, server) && CacheHit(old(cache.files), host, config, server, md5))
            && RedirectLocation(redirects, RequestedPath(server)).None? ==>
              var path := RequestedPath(server);
              var page := PageFile(host, path);
              if FileExists(host, page) then
                response == Rendered(host, page, 200)
                && logs == RenderLogs(host, server, page)
                && cache.files == AfterRender(old(cache.files), host, config, server, page, 200, minifier, md5)
              else if ControllerRuns(host, path) then
                response == Action(ControllerClass(ParseUrl(path).0), ParseUrl(path).1)
                && logs == [] && cache.files == old(cache.files)
              else
                response == Rendered(host, NotFoundPage(host), 404)
                && logs == [ControllerError(host, path)] + RenderLogs(host, server, NotFoundPage(host))
                && cache.files == AfterRender(old(cache.files), host, config, server, NotFoundPage(host), 404, minifier, md5)
    ensures response.Redirected? ==> RedirectLocation(redirects, RequestedPath(server)).Some?
    ensures response.FromCache? ==> CacheGateOpen(config, server)
    ensures response.Page? && response.code == 200 ==> FileExists(host, PageFile(host, RequestedPath(server)))
    ensures response.Action? ==> !FileExists(host, PageFile(host, RequestedPath(server)))
                                 && ControllerRuns(host, RequestedPath(server))
  {
    if CacheGateOpen(config, server) {
      var served, cacheLogs := LoadPageFromCache("", host, config, server, cache, md5);
      if served.Some? {
        return FromCache(served.value.0, served.value.1), cacheLogs;
      }
    }
    var http := new Http(server);
    var location := http.PermanentRedirect(redirects);
    if location.Some? {
      return Redirected(location.value), [];
    }
    http.GetFile(host);
    response, logs := http.Execute(host, config, server, cache, minifier, md5);
  }

  // ------------------------------------------------------------- consequences of Config::get

  /**
   * With the cache section shaped as the sample configuration ships it (no
   * "cache" key repeated inside), Get reads "cache.enable" as null: the gate
   * stays shut and renderPage never saves a page, although the intended walk
   * would find the enable flag.
   */
  lemma ShippedCacheSectionDisablesCache(config: map<Bytes, Value>, server: Server)
    requires "cache" in config && config["cache"].Arr? && "cache" !in config["cache"].m
    ensures Lookup(config, "cache.enable") == Null
    ensures !CacheGateOpen(config, server)
    ensures forall files, host, content, code, md5 :: AfterSave(files, host, config, server, content, code, md5) == files
    ensures LookupIntended(config, "cache.enable") == Entry(config["cache"].m, "enable")
  {
    var c: Bytes, e: Bytes := "cache", "enable";
    assert '.' !in c && '.' !in e && !IsEmptyString(c) && !IsEmptyString(e);
    assert c + "." + e == "cache.enable";
    LookupTwoSegments(config, c, e);
    TwoSegmentPath(c, e);
  }
}
