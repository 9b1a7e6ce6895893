# light-mvc-php core, modelled in Dafny

This project models the request-handling core of the light-mvc-php framework
and proves properties of the model. It covers five parts:

- **Http** (`http.dfy`). It resolves a request: the requested path, the 301
  redirect map, the page-file path, controller/action parsing and the fixed
  dispatch order (static page, then controller, then 404). It also covers the
  page cache: the cache-file name, the `code====body` envelope, and saving
  and loading. `HandleRequest` adds the bootstrap's cache gate from
  `Include.php` and the two calls in `index.php`. The gate runs before
  `new Http()`, so a cached page is served before the redirect map is
  consulted. The code does it in that order, and so does the model.
- **Config** (`config.dfy`). This is the dot-notation configuration store,
  `ConfigStore`, with `Load`, `Set` and `Get`. `Get` is modelled as written:
  after stepping into the child under key `k`, it tests the child's entry
  under the same `k` again. `LookupIntended` is the walk the comments
  describe, kept beside it for comparison.
- **Utils** (`utils.dfy`). It covers `camelize`, the request, site and
  resource URL builders, the version string and `clearCache`.
- **Command** (`command.dfy`). It covers CLI argument shifting, dispatch to
  a scheduler or to `cache:clear`, and the `name:action` split.
- **Logger** (`logger.dfy`). It covers the entry list, the streams opened
  once, the timers, line formatting and the string dump.

Two support modules hold the rest:

- `byte_strings.dfy` models the PHP string built-ins on byte strings:
  `explode`, `implode`, `str_replace`, `strtoupper`/`strtolower`, `empty()`
  on strings, `basename` and integer-to-string conversion.
- `env.dfy` holds what the core reads from its runtime. The filesystem is a
  map of files and a set of directories. Declared classes and methods are
  stored lower-cased, because PHP looks them up ignoring ASCII case. The
  request superglobals are a record, and the cache directory is a class
  whose file map the core changes.

Effects become values:

- A Logger call made by Http or Command is returned as a `LogCall`.
- What a request sends (cached body, redirect, page output, controller
  call, fatal missing page) is returned as a `Response`.
- What a command echoes, logs or invokes is returned as an `Outcome`.

The minifier, `md5`, `date('c')`, the clock and `number_format` are function
parameters.

## Model

| member | source | states |
|---|---|---|
| Http.RequestedPath | Application/Core/Http.php:28 | with no `url` parameter the path is "index", otherwise the parameter unchanged |
| Http.Http.constructor | Application/Core/Http.php:25-31 | the object starts with the requested path and no page file |
| Http.RedirectOnlyElsewhere | Application/Core/Http.php:47-55 | a redirect happens exactly when the path is a key of the map and its target differs, and it never points back at the path |
| Http.Http.PermanentRedirect | Application/Core/Http.php:43-57 | the Location sent is "/" + the target exactly in that case; None when Redirect.php is absent |
| Http.Http.GetFile | Application/Core/Http.php:159-168 | the page file is PAGE_DIR, the path with "/" replaced by DS, DS + "index" exactly for a directory, then ".php"; the path is unchanged |
| Http.PageFileOnSlashHost | Application/Core/Http.php:161-167 | on a "/" host the URL is used unchanged inside the page path |
| Http.PageFileHasNoSlash | Application/Core/Http.php:161 | on a host with another separator no "/" of the URL survives after PAGE_DIR |
| Http.ParseUrlOneSegment | Application/Core/Http.php:175-184 | a path without "/" names its controller and the action "index" |
| Http.ParseUrlTwoSegments | Application/Core/Http.php:175-184 | "c/a" gives controller c and action a, and "index" only when a is exactly "" |
| Http.ZeroActionKept | Application/Core/Http.php:179 | "c/0" keeps the action "0" (the scheduler split treats it differently) |
| Http.Http.ExecuteController | Application/Core/Http.php:96-125 | true exactly when the controller file camelize(c)+"Controller", the class and the action method all exist; otherwise false with one error log for the first missing piece |
| Http.IsAjaxIsCaseInsensitiveMatch | Application/Core/Http.php:70-74 | a request is AJAX exactly when X-Requested-With is set and lower-cases to "xmlhttprequest"; the emptiness test never decides |
| Http.IsPostIgnoresMethodCase | Application/Core/Http.php:62-65 | isPost does not depend on the ASCII case of the request method |
| Http.Http.RenderPage | Application/Core/Http.php:132-145 | the response is the page's output with the code (or a fatal missing page); the cache is saved with the content, minified only when `minify === true`; one debug log |
| Http.Http.Render404 | Application/Core/Http.php:150-154 | the page file becomes PAGE_DIR + "404.php" and it is rendered with status 404 |
| Http.Http.Execute | Application/Core/Http.php:80-89 | an existing page file is rendered with 200; otherwise the controller runs if it can, leaving the page path and the cache as they were; otherwise the controller error is logged and 404.php is rendered; a page and a controller never both run |
| Http.LoadPageFromCache | Application/Core/Http.php:193-212 | a page is served exactly when nothing was posted and the cache file exists; the code and body are the two first "===="-pieces of the file; one debug log |
| Http.SavePageToCache | Application/Core/Http.php:217-223 | the cache file receives code + "====" + content only when `cache.enable === true`; otherwise the cache is unchanged |
| Http.SettingPaths | Application/Core/Http.php:217-237 | the keys "cache.enable", "cache.key" and "minify" split into the key paths the cache functions read |
| Http.EmptyUrlMeansRequestUrl | Application/Core/Http.php:230-232 | loading with no URL reads the same cache file as loading with the request URL |
| Http.MinifiedKeyedApart | Application/Core/Http.php:234-236 | minified and plain pages under the same URL and cache key get different key texts |
| Http.EnvelopeRoundTrip | Application/Core/Http.php:193-223 | the stored code always comes back, but the body comes back whole exactly when it has no "===="; otherwise only its part before the first "====" |
| Http.EnvelopeTruncates | Application/Core/Http.php:193-223 | a page "<p>a====b</p>" comes back from the cache as "<p>a" |
| Http.EnvelopeRoundTripFirst | Application/Core/Http.php:193-223 | splitting at the first "====" only returns every page exactly as saved |
| Http.HandleRequest | Application/Core/Include.php:73-77 | the cache is consulted only when `cache.enable` is loosely true outside the CLI, and a hit ends the request with the stored page and one "From Cache" debug log, leaving the cache unchanged; otherwise a mapped path redirects; otherwise execute runs on the page file of the requested path: an existing page is rendered with 200, else a runnable controller is invoked, else the controller error is logged and 404.php is rendered, each with its logs and cache effect |
| Http.ShippedCacheSectionDisablesCache | Application/Core/Include.php:73 | with a "cache" section that does not repeat "cache" inside, `cache.enable` reads as null: the gate stays shut and nothing is saved, while the intended walk would read the flag |
| Config.ConfigStore.constructor | Application/Core/Config.php:24 | the store starts empty |
| Config.ConfigStore.Load | Application/Core/Config.php:31-35 | the store becomes the right-biased merge of the old entries and the argument |
| Config.Merge | Application/Core/Config.php:34 | the merged keys are the union; an incoming key takes the incoming value, and every other key keeps its value |
| Config.ConfigStore.Set | Application/Core/Config.php:46-75 | the store becomes exactly what the reference walk produces; an empty key path never returns, and a scalar on the path leaves the store unchanged |
| Config.SetSingleSegment | Application/Core/Config.php:46-75 | setting a dot-free key updates exactly that top-level entry |
| Config.SetCreatesMissingLevels | Application/Core/Config.php:62-64 | below a missing entry every level is created as a fresh array holding only the next key |
| Config.SetPathStoresValue | Application/Core/Config.php:55-74 | the value is found again at the path, one key is added at the top, and every other top-level entry is unchanged |
| Config.SetPathKeepsOthers | Application/Core/Config.php:55-74 | any key path that leaves the written path at some level reaches the same value before and after the set: siblings at every depth are kept |
| Config.NonEmptyKeeps | Application/Core/Config.php:49 | array_filter keeps exactly the segments other than "" and "0" |
| Config.NonEmptyConcat | Application/Core/Config.php:49 | filtering keeps order: the filter of a concatenation is the concatenation of the filters |
| Config.EmptyMiddleSegmentSkipped | Application/Core/Config.php:49 | "x..y" and "x.0.y" act like "x.y" |
| Config.KeyPathSkipsEmptySegments | Application/Core/Config.php:89 | after the first key no key of a path is "" or "0" |
| Config.ConfigStore.Get | Application/Core/Config.php:86-120 | the result is the as-written walk over the entries |
| Config.GetSingleSegment | Application/Core/Config.php:95-119 | a dot-free key reads the top-level entry, and null when it is absent |
| Config.SetThenGetSingleSegment | Application/Core/Config.php:74-116 | set then get of a dot-free key returns the value |
| Config.DescendWithoutKeys | Application/Core/Config.php:95-112 | a key with no segment left (such as "" or "0") always reads null |
| Config.GetMultiSegmentNeedsRepeatedKey | Application/Core/Config.php:101-108 | a multi-segment read is non-null only if the first child holds a non-empty array under the same key |
| Config.LookupTwoSegments | Application/Core/Config.php:101-108 | for "a.b" get reads child[b] only when child[a] is a non-empty array, where the intended walk reads child[b] directly |
| Config.CacheEnableReadsNull | Application/Core/Config.php:105 | with cache => [enable => true, key => ...], get("cache.enable") is null while the intended walk gives true |
| Config.SetThenGetIntended | Application/Core/Config.php:46-75 | under the intended walk, what set stores under any key is what get returns |
| Utils.CamelizeIsPascalCase | Application/Core/Utils.php:175-178 | the preg_replace/ucwords/str_replace/ucfirst pipeline equals a one-pass reference that drops non-word bytes and upper-cases word starts |
| Utils.CamelizeKeepsWordBytes | Application/Core/Utils.php:177 | the output keeps exactly the input's word bytes, in order, changing only their case |
| Utils.CamelizeTwoWords | Application/Core/Utils.php:177 | two words joined by one delimiter become both words with their first letters upper-cased |
| Utils.MailQueueExample | Application/Core/Utils.php:169-170 | "mail-queue" camelizes to "MailQueue" |
| Utils.CamelizeIdempotent | Application/Core/Utils.php:175-178 | camelizing a camelized name changes nothing |
| Utils.RequestUrlUsesSiteUrl | Application/Core/Utils.php:26-29 | the request URL is siteUrl, followed by the path unless it is "index" |
| Utils.SiteUrlDropsStaticEntry | Application/Core/Utils.php:35-41 | a script under "/Static/" contributes only its prefix to the site URL |
| Utils.SiteUrlKeepsOtherScripts | Application/Core/Utils.php:35-41 | any other script path is kept whole after scheme and host |
| Utils.VersionQuery | Application/Core/Utils.php:233-242 | the version string is empty exactly when the key is null, false or "", and is otherwise "?ver=" + the key |
| Utils.ShippedResourceBaseIsNull | Application/Core/Utils.php:186-222 | a resource base reads as null when "resources" does not repeat inside itself |
| Utils.ShippedVersionStringIsEmpty | Application/Core/Utils.php:233-242 | the version string is empty when "cache" does not repeat inside itself |
| Utils.ShippedResourceUrlIsBarePath | Application/Core/Utils.php:186-222 | so with the sample configuration shape every resource URL is the bare relative path |
| Utils.ClearCache | Application/Core/Utils.php:123-136 | every file of the cache directory is removed, and the count is the number of files there were |
| Command.Command.constructor | Application/Core/Command.php:24-27 | no command type and no arguments before run |
| Command.Command.Run | Application/Core/Command.php:35-72 | argc 0 or absent echoes "Invalid arguments"; otherwise the type is argv[1] and the arguments are argv[2..]; "scheduler" runs the scheduler; "cache:clear" empties the cache and logs the count message; anything else echoes "Invalid command arguments" |
| Command.Command.ExecuteScheduler | Application/Core/Command.php:78-130 | no argument echoes "Scheduler name not defined"; otherwise file, class and method are checked in order, and a method is invoked only when all exist |
| Command.SchedulerRunsIff | Application/Core/Command.php:102-129 | the scheduler runs exactly when all three checks pass, and it is camelize(name)+"Scheduler" that runs |
| Command.SchedulerTargetSplit | Application/Core/Command.php:90-93 | "name:action" gives name and action, and "execute" when the action is "" or "0" |
| Command.SchedulerTargetBareName | Application/Core/Command.php:90-93 | a bare name runs "execute" |
| Command.ZeroActionRunsExecute | Application/Core/Command.php:93 | "name:0" runs "execute" (the URL parser keeps "0") |
| Command.MissingMessagesDiffer | Application/Core/Command.php:118-129 | the three failures log three distinct messages |
| Command.ClearedMessageReportsCount | Application/Core/Command.php:63-67 | the "No files found in cache." message is logged exactly when nothing was deleted |
| Logger.Logger.constructor | Application/Core/Logger.php:31-61 | the static defaults: empty log, print on, write off, append on, name and extension "log", not ready |
| Logger.Logger.Add | Application/Core/Logger.php:137-164 | exactly one entry is appended and returned; the streams are opened once; its line goes to every open stream in order |
| Logger.Logger.Info | Application/Core/Logger.php:66-69 | adds an entry with level "info", with the same effect on streams, path, output and timers as add |
| Logger.Logger.Debug | Application/Core/Logger.php:72-75 | adds an entry with level "debug", with the same effect on streams, path, output and timers as add |
| Logger.Logger.Warning | Application/Core/Logger.php:78-81 | adds an entry with level "warning", with the same effect on streams, path, output and timers as add |
| Logger.Logger.Error | Application/Core/Logger.php:84-87 | adds an entry with level "error", with the same effect on streams, path, output and timers as add |
| Logger.Logger.Init | Application/Core/Logger.php:201-230 | the setup happens once: later calls change nothing; the first opens stdout when printing and the log file when writing to an existing directory |
| Logger.LogFilePathShape | Application/Core/Logger.php:210-219 | the log file path is dir + separator + name, then "." + extension unless the extension is empty |
| Logger.PutStream | Application/Core/Logger.php:206-224 | writing a stream under a key adds at most one stream |
| Logger.PutStreamKeys | Application/Core/Logger.php:206-224 | a stream under an existing key keeps the count; a new key is appended; the stream is then present |
| Logger.PutStreamReplacesFirst | Application/Core/Logger.php:206-224 | a stream under an existing key replaces the entry at that key's position, and every other stream keeps its place |
| Logger.Broadcast | Application/Core/Logger.php:155-160 | the line goes to every stream, in order |
| Logger.Logger.Time | Application/Core/Logger.php:97-104 | a timer starts and returns its start only if none of that name runs; otherwise false and no change; nothing but the timers changes |
| Logger.Logger.TimeEnd | Application/Core/Logger.php:112-125 | an unknown timer gives false and no change; otherwise it is removed and one "timing" entry named "'<name>' took" is added and written to every stream, as add does |
| Logger.FormatEntry | Application/Core/Logger.php:174-193 | the line is empty exactly for the empty entry |
| Logger.EmptyNameOmitted | Application/Core/Logger.php:186-188 | a title of "" or "0" is left out of the line |
| Logger.LevelCaseIgnored | Application/Core/Logger.php:184 | the level is printed upper-cased, so its case does not matter |
| Logger.Logger.DumpToString | Application/Core/Logger.php:263-273 | the dump is every entry's line followed by PHP_EOL, in insertion order |
| Logger.DumpSnoc | Application/Core/Logger.php:263-273 | after one more entry the dump is the old dump followed by that entry's line |
| Logger.DumpConcat | Application/Core/Logger.php:263-273 | the dump of a log is the dumps of its parts in order |

## Left out

- compressHTML, md5, `date('c')`, `time()`, `microtime` and `number_format` are parameters with no properties assumed.
- `uploadFile` and `clientInfo` (Http.php) only read superglobals or move uploaded files.
- `Logger::dump_to_file` writes files through fopen; its line format is the one `DumpToString` proves.
- `partial`, `handleErrors`, `handleLogs`, `redirect`, `response` and `print` in Utils.php, and the `pre`/`prd` helpers, are display glue outside this core.
- Headers, output buffering, `http_response_code` and `exit` are the returned `Response`. The cached status code is returned as the text stored in the file.
- A page file's own side effects are not modelled. Its output is taken from `Host.files`.
- `require_once` of a missing page is the fatal `PageMissing` response.
- `Utils::$url`, assigned in the Http constructor, is passed to `Utils.RequestUrl` as a parameter.
- Http.Http.constructor: the model's constructor only sets the requested path. `HandleRequest` then runs the redirect check and `getFile`, in the order the PHP constructor does.
- Config.ConfigStore.Load: every key is a string, so array_merge's renumbering of integer keys is not modelled.
- Config.ConfigStore.Set: a write into a scalar on the path becomes `ScalarInPath` with the store unchanged. PHP's own handling (string-offset writes, errors) is not modelled.
- Config.ConfigStore.Get: the reference binding `&$currArr[$key]` leaves null entries behind for missing keys, and the model does not record them. Every reader here treats a null entry like an absent one.
- Command.Command.Run: argv is a sequence. PHP's TypeError when argc is non-zero and argv is null is not modelled.
- Loading Scheduler.php and the autoloading of controller and scheduler classes are not modelled. A class exists exactly when `Host.classes` lists it.
- Paths are compared as exact strings, with no normalisation. The cache directory holds files only.
- A log file that fopen cannot open is not modelled. PHP_EOL is "\n".
- Utils.ClearCache: the cache directory is assumed to exist and every unlink to succeed. PHP throws from DirectoryIterator when the directory is missing, and counts a file whose unlink fails; the model instead counts 0 or removes the file.
- Http.SavePageToCache: the cache directory is assumed to be writable; a failing file_put_contents, which the source ignores, is not modelled.
- Configuration values are null, booleans, integers, strings and arrays. Floats and objects are not modelled.
- The PHP string functions work on bytes. `Camelize` treats bytes 0x7f-0xff as word bytes, as the pattern without the `/u` flag does.

## Findings

| source | as written | input that shows it | evidently intended | confidence | as-written member | corrected member |
|---|---|---|---|---|---|---|
| Application/Core/Config.php:105 | after stepping into the child under key k, get tests child[k], the parent's key, before going on | config `cache => [enable => true, key => "v1"]`; `get("cache.enable")` returns null | test and descend into child[next key], so `get("cache.enable")` returns true | not executed; high (the sample configuration's cache, version string and resource bases all read null) | Config.CacheEnableReadsNull | Config.SetThenGetIntended |
| Application/Core/Http.php:200 | the cached file is split on every "====", and only the second piece is echoed | a page whose output is `<p>a====b</p>` is served from the cache as `<p>a` | split at the first "====" only (explode with a limit of 2) | not executed; medium (needs a page containing "====") | Http.EnvelopeTruncates | Http.EnvelopeRoundTripFirst |

The operations keep the as-written behaviour, because they model the program
as it runs. `LookupIntended` and `UnwrapFirst` are the corrected definitions.
