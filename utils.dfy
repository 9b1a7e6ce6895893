/**
 * The string utilities of Application/Core/Utils.php: camelize (the naming
 * convention that maps URL segments and scheduler names to class names), the
 * request, site and resource URL builders, the cache-busting version string,
 * and the loop that empties the page-cache directory.
 */
module Utils {
  import opened ByteStrings
  import opened Config
  import opened Env

  // ------------------------------------------------------------- camelize

  /** A byte of the class [a-zA-Z0-9\x7f-\xff]; no /u flag, so bytes from 0x7f up are letters. */
  predicate IsWordByte(c: Byte) {
    IsLower(c) || IsUpper(c) || IsDigit(c) || c as int >= 0x7f
  }

  /** The bytes after which ucwords upper-cases: space, tab, line feed, vertical tab, form feed, carriage return. */
  predicate IsWordDelimiter(c: Byte) {
    c == ' ' || 9 <= c as int <= 13
  }

  /** preg_replace of every maximal run of non-word bytes by one space; `inRun` says the byte before was already replaced. */
  function CollapseRuns(s: Bytes, inRun: bool): Bytes
    decreases |s|
  {
    if |s| == 0 then []
    else if IsWordByte(s[0]) then [s[0]] + CollapseRuns(s[1..], false)
    else (if inRun then [] else [' ']) + CollapseRuns(s[1..], true)
  }

  /** ucwords: upper-case the first byte and every byte that follows a delimiter. */
  function UcWords(s: Bytes, atStart: bool): Bytes
    decreases |s|
  {
    if |s| == 0 then []
    else [if atStart then UpperByte(s[0]) else s[0]] + UcWords(s[1..], IsWordDelimiter(s[0]))
  }

  /** ucfirst. */
  function UcFirst(s: Bytes): Bytes {
    if |s| == 0 then s else [UpperByte(s[0])] + s[1..]
  }

  /** Utils::camelize, stage by stage as the source composes it. */
  function Camelize(s: Bytes): Bytes {
    UcFirst(Replace(UcWords(CollapseRuns(s, false), true), " ", ""))
  }

  /**
   * An independent statement of what camelize computes: the word bytes of s
   * in order, the first byte of each word upper-cased, everything else dropped.
   */
  function PascalCase(s: Bytes, wordStart: bool): Bytes
    decreases |s|
  {
    if |s| == 0 then []
    else if IsWordByte(s[0]) then [if wordStart then UpperByte(s[0]) else s[0]] + PascalCase(s[1..], false)
    else PascalCase(s[1..], true)
  }

  /** The word bytes of s, in order. */
  function WordBytes(s: Bytes): Bytes
    decreases |s|
  {
    if |s| == 0 then [] else (if IsWordByte(s[0]) then [s[0]] else []) + WordBytes(s[1..])
  }

  /** The replace, ucwords and space-removal stages together are the word-by-word upper-casing. */
  lemma {:induction false} CamelizeStages(s: Bytes, inRun: bool, atStart: bool)
    requires inRun ==> atStart
    ensures Replace(UcWords(CollapseRuns(s, inRun), atStart), " ", "") == PascalCase(s, atStart)
    decreases |s|
  {
    if |s| == 0 {
      assert CollapseRuns(s, inRun) == [];
    } else if IsWordByte(s[0]) {
      var rest := CollapseRuns(s[1..], false);
      assert CollapseRuns(s, inRun) == [s[0]] + rest;
      var h := if atStart then UpperByte(s[0]) else s[0];
      assert ([s[0]] + rest)[0] == s[0] && ([s[0]] + rest)[1..] == rest;
      assert UcWords([s[0]] + rest, atStart) == [h] + UcWords(rest, false);
      ReplaceSpaceHead(h, UcWords(rest, false));
      CamelizeStages(s[1..], false, false);
    } else if inRun {
      assert CollapseRuns(s, inRun) == CollapseRuns(s[1..], true);
      CamelizeStages(s[1..], true, true);
    } else {
      var rest := CollapseRuns(s[1..], true);
      assert CollapseRuns(s, inRun) == [' '] + rest;
      assert ([' '] + rest)[0] == ' ' && ([' '] + rest)[1..] == rest;
      assert UcWords([' '] + rest, atStart) == [' '] + UcWords(rest, true);
      ReplaceSpaceHead(' ', UcWords(rest, true));
      CamelizeStages(s[1..], true, true);
    }
  }

  /** str_replace(" ", "", c . t) drops c exactly when it is a space. */
  lemma ReplaceSpaceHead(c: Byte, t: Bytes)
    ensures Replace([c] + t, " ", "") == (if c == ' ' then [] else [c]) + Replace(t, " ", "")
  {
    var s := [c] + t;
    assert s[..1] == [c] && s[1..] == t;
  }

  /** The first byte of the reference result is already upper case, so ucfirst leaves it alone. */
  lemma {:induction false} PascalCaseStartsUpper(s: Bytes)
    ensures |PascalCase(s, true)| > 0 ==> PascalCase(s, true)[0] == UpperByte(PascalCase(s, true)[0])
    decreases |s|
  {
    if |s| > 0 && !IsWordByte(s[0]) {
      PascalCaseStartsUpper(s[1..]);
    }
  }

  /** camelize agrees with the reference statement on every input. */
  lemma CamelizeIsPascalCase(s: Bytes)
    ensures Camelize(s) == PascalCase(s, true)
  {
    CamelizeStages(s, false, true);
    PascalCaseStartsUpper(s);
    var p := PascalCase(s, true);
    if |p| > 0 {
      assert [p[0]] + p[1..] == p;
    }
  }

  /**
   * The reference result holds only word bytes, as many as s has, each one
   * the input's word byte at that position or its upper case.
   */
  lemma {:induction false} PascalCaseKeepsWordBytes(s: Bytes, wordStart: bool)
    ensures |PascalCase(s, wordStart)| == |WordBytes(s)|
    ensures forall i :: 0 <= i < |WordBytes(s)| ==>
              IsWordByte(PascalCase(s, wordStart)[i]) &&
              PascalCase(s, wordStart)[i] in {WordBytes(s)[i], UpperByte(WordBytes(s)[i])}
    decreases |s|
  {
    if |s| > 0 {
      PascalCaseKeepsWordBytes(s[1..], !IsWordByte(s[0]));
    }
  }

  /** Utils::camelize outputs only [A-Za-z0-9\x7f-\xff], keeping the input's such bytes in order and changing at most their case. */
  lemma CamelizeKeepsWordBytes(s: Bytes)
    ensures |Camelize(s)| == |WordBytes(s)|
    ensures forall i :: 0 <= i < |Camelize(s)| ==>
              IsWordByte(Camelize(s)[i]) && Camelize(s)[i] in {WordBytes(s)[i], UpperByte(WordBytes(s)[i])}
  {
    CamelizeIsPascalCase(s);
    PascalCaseKeepsWordBytes(s, true);
  }

  /** A word-only prefix passes through, only its first byte raised when a word starts there. */
  lemma {:induction false} PascalCaseWordPrefix(x: Bytes, r: Bytes, wordStart: bool)
    requires forall i :: 0 <= i < |x| ==> IsWordByte(x[i])
    ensures PascalCase(x + r, wordStart) == (if wordStart then UcFirst(x) else x) + PascalCase(r, wordStart && |x| == 0)
    decreases |x|
  {
    if |x| > 0 {
      assert (x + r)[0] == x[0] && (x + r)[1..] == x[1..] + r;
      PascalCaseWordPrefix(x[1..], r, false);
      assert [x[0]] + x[1..] == x;
    } else {
      assert x + r == r;
    }
  }

  /** Two words joined by one separator byte: 'mail-queue' gives 'MailQueue'. */
  lemma CamelizeTwoWords(x: Bytes, sep: Byte, y: Bytes)
    requires forall i :: 0 <= i < |x| ==> IsWordByte(x[i])
    requires forall i :: 0 <= i < |y| ==> IsWordByte(y[i])
    requires !IsWordByte(sep)
    ensures Camelize(x + [sep] + y) == UcFirst(x) + UcFirst(y)
  {
    CamelizeIsPascalCase(x + [sep] + y);
    assert x + [sep] + y == x + ([sep] + y);
    PascalCaseWordPrefix(x, [sep] + y, true);
    var r := [sep] + y;
    assert r[0] == sep && r[1..] == y;
    PascalCaseWordPrefix(y, [], true);
    assert y + [] == y;
    if |x| == 0 {
      assert PascalCase(r, true) == PascalCase(y, true);
    } else {
      assert PascalCase(r, false) == PascalCase(y, true);
    }
    assert PascalCase([], true) == [];
  }

  lemma MailQueueExample(name: Bytes)
    requires name == "mail-queue"
    ensures Camelize(name) == "MailQueue"
  {
    var m: Bytes, q: Bytes := "mail", "queue";
    assert m + ['-'] + q == name;
    assert forall i :: 0 <= i < |m| ==> IsLower(m[i]);
    assert forall i :: 0 <= i < |q| ==> IsLower(q[i]);
    CamelizeTwoWords(m, '-', q);
    assert UcFirst(m) == ['M'] + m[1..];
    assert UcFirst(q) == ['Q'] + q[1..];
  }

  /** A name camelize already produced is left as it is. */
  lemma CamelizeIdempotent(s: Bytes)
    ensures Camelize(Camelize(s)) == Camelize(s)
  {
    var p := Camelize(s);
    CamelizeKeepsWordBytes(s);
    CamelizeIsPascalCase(p);
    PascalCaseWordPrefix(p, [], true);
    assert p + [] == p;
    assert PascalCase([], true) == [];
    CamelizeIsPascalCase(s);
    PascalCaseStartsUpper(s);
    if |p| > 0 {
      assert [p[0]] + p[1..] == p;
    }
  }

  // ------------------------------------------------------------- URLs

  /** Utils::getRequestUrl: the configured site URL, followed by the page path unless it is "index". */
  function RequestUrl(config: map<Bytes, Value>, url: Bytes): Bytes {
    AsString(Lookup(config, "siteUrl")) + (if url == "index" then [] else url)
  }

  /** "siteUrl" is a one-segment key, so it reads the top-level entry directly. */
  lemma RequestUrlUsesSiteUrl(config: map<Bytes, Value>, url: Bytes)
    ensures RequestUrl(config, url) == AsString(Entry(config, "siteUrl")) + (if url == "index" then [] else url)
  {
    var k: Bytes := "siteUrl";
    assert '.' !in k && !IsEmptyString(k);
    GetSingleSegment(config, k);
  }

  /** "https" exactly when $_SERVER['HTTPS'] is "on". */
  function Scheme(https: Option<Bytes>): Bytes {
    if https == Some("on") then "https" else "http"
  }

  /** Utils::getSiteUrl: scheme, host, and the script path with "/Static/<script file>" cut out. */
  function SiteUrl(server: Server): Bytes {
    Scheme(server.https) + "://" + server.host
      + Replace(server.scriptName, "/Static/" + Basename(server.scriptName), "")
  }

  /** The last component of x/y when y has no slash. */
  lemma {:induction false} AfterLastSlashOf(x: Bytes, y: Bytes)
    requires '/' !in y
    ensures AfterLastSlash(x + ['/'] + y) == y
    decreases |y|
  {
    var p := x + ['/'] + y;
    if |y| > 0 {
      assert p[|p| - 1] == y[|y| - 1];
      assert p[..|p| - 1] == x + ['/'] + y[..|y| - 1];
      AfterLastSlashOf(x, y[..|y| - 1]);
      assert y[..|y| - 1] + [y[|y| - 1]] == y;
    }
  }

  /** A needle that first occurs at the very end is cut off, and nothing else changes. */
  lemma {:induction false} ReplaceTrailing(x: Bytes, needle: Bytes)
    requires |needle| > 0
    requires forall i | 0 <= i < |x| :: !OccursAt(x + needle, needle, i)
    ensures Replace(x + needle, needle, []) == x
    decreases |x|
  {
    var s := x + needle;
    if |x| == 0 {
      assert s == needle && s[|needle|..] == [];
      assert Replace(s, needle, []) == [] + Replace([], needle, []);
    } else {
      assert !OccursAt(s, needle, 0);
      assert s[..|needle|] != needle;
      assert s[1..] == x[1..] + needle;
      forall i | 0 <= i < |x[1..]| ensures !OccursAt(x[1..] + needle, needle, i) {
        assert !OccursAt(s, needle, i + 1);
        assert (x[1..] + needle)[i..i + |needle|] == s[i + 1..i + 1 + |needle|];
      }
      ReplaceTrailing(x[1..], needle);
      assert [x[0]] + x[1..] == x;
    }
  }

  /**
   * A front controller at <prefix>/Static/<file> gives the site URL
   * scheme://host<prefix>, provided "/Static/<file>" does not occur earlier.
   */
  lemma SiteUrlDropsStaticEntry(server: Server, prefix: Bytes, file: Bytes)
    requires '/' !in file && |file| > 0
    requires server.scriptName == prefix + ("/Static/" + file)
    requires forall i | 0 <= i < |prefix| :: !OccursAt(server.scriptName, "/Static/" + file, i)
    ensures SiteUrl(server) == Scheme(server.https) + "://" + server.host + prefix
  {
    var script := server.scriptName;
    var dir: Bytes := "/Static";
    assert script == prefix + dir + ['/'] + file;
    assert TrimTrailingSlashes(script) == script;
    AfterLastSlashOf(prefix + dir, file);
    ReplaceTrailing(prefix, "/Static/" + file);
  }

  /** A script path without "/Static/<file>" is kept whole. */
  lemma SiteUrlKeepsOtherScripts(server: Server)
    requires !Contains(server.scriptName, "/Static/" + Basename(server.scriptName))
    ensures SiteUrl(server) == Scheme(server.https) + "://" + server.host + server.scriptName
  {
    ReplaceAbsent(server.scriptName, "/Static/" + Basename(server.scriptName), "");
  }

  /** Utils::getVersionString: "?ver=" and the cache key, or nothing when the key is null, false or "". */
  function VersionString(config: map<Bytes, Value>): Bytes {
    VersionQuery(Lookup(config, "cache.key"))
  }

  /** The query for a given cache key: empty exactly when PHP's `!= ''` fails for the key. */
  function VersionQuery(key: Value): (r: Bytes)
    ensures |r| == 0 <==> LooselyEmptyString(key)
    ensures |r| > 0 ==> |r| >= 5 && r[..5] == "?ver=" && r[5..] == AsString(key)
  {
    if LooselyEmptyString(key) then [] else "?ver=" + AsString(key)
  }

  /** The four resource kinds with a configured base URL. */
  datatype Resource = Image | Js | Css | Favicon

  function ResourceName(kind: Resource): Bytes {
    match kind
    case Image => "image"
    case Js => "js"
    case Css => "css"
    case Favicon => "favicon"
  }

  /** getImageURL, getJsURL, getCssURL and getFaviconURL: base from "resources.<kind>", the path, the version string. */
  function ResourceUrl(config: map<Bytes, Value>, kind: Resource, path: Bytes): Bytes {
    AsString(Lookup(config, "resources." + ResourceName(kind))) + path + VersionString(config)
  }

  /**
   * Configured the way the sample configuration does it (a "resources" array
   * of bases and a "cache" array holding the key, neither repeating its own
   * name inside), every resource URL is the bare path: the base and the
   * version string are both lost to Get's repeated-key test.
   */
  lemma ShippedResourceUrlIsBarePath(config: map<Bytes, Value>, kind: Resource, path: Bytes)
    requires "resources" in config && config["resources"].Arr? && "resources" !in config["resources"].m
    requires "cache" in config && config["cache"].Arr? && "cache" !in config["cache"].m
    ensures ResourceUrl(config, kind, path) == path
  {
    ShippedResourceBaseIsNull(config, kind);
    ShippedVersionStringIsEmpty(config);
    var base := Lookup(config, "resources." + ResourceName(kind));
    assert AsString(base) == [];
    assert ResourceUrl(config, kind, path) == [] + path + [];
  }

  /** The base under "resources.<kind>" reads as null when "resources" does not repeat inside itself. */
  lemma ShippedResourceBaseIsNull(config: map<Bytes, Value>, kind: Resource)
    requires "resources" in config && config["resources"].Arr? && "resources" !in config["resources"].m
    ensures Lookup(config, "resources." + ResourceName(kind)) == Null
  {
    var r: Bytes, n := "resources", ResourceName(kind);
    assert '.' !in r && !IsEmptyString(r);
    assert '.' !in n && !IsEmptyString(n);
    LookupTwoSegments(config, r, n);
    assert r + "." + n == "resources." + n;
  }

  /** The version string is empty when "cache" does not repeat inside itself. */
  lemma ShippedVersionStringIsEmpty(config: map<Bytes, Value>)
    requires "cache" in config && config["cache"].Arr? && "cache" !in config["cache"].m
    ensures VersionString(config) == []
  {
    var c: Bytes, k: Bytes := "cache", "key";
    assert '.' !in c && '.' !in k && !IsEmptyString(c) && !IsEmptyString(k);
    LookupTwoSegments(config, c, k);
    assert c + "." + k == "cache.key";
  }

  // ------------------------------------------------------------- clearCache

  /** A directory entry as DirectoryIterator yields it: "." and "..", or a file with its full path. */
  datatype DirEntry = DotEntry(name: Bytes) | FileEntry(path: Bytes)

  /** Utils::clearCache: unlink every non-dot entry of the cache directory and count them. */
  method ClearCache(dir: CacheDir) returns (count: nat)
    modifies dir
    ensures count == |old(dir.files)|
    ensures dir.files == map[]
  {
    var pending: set<DirEntry> := {DotEntry("."), DotEntry("..")} + set p | p in dir.files :: FileEntry(p);
    count := 0;
    while pending != {}
      invariant forall p :: p in dir.files <==> FileEntry(p) in pending
      invariant count + |dir.files| == |old(dir.files)|
      decreases pending
    {
      var entry :| entry in pending;
      if entry.FileEntry? {
        ghost var before := dir.files;
        assert entry.path in before;
        dir.Remove(entry.path);
        assert dir.files.Keys == before.Keys - {entry.path};
        count := count + 1;
      }
      pending := pending - {entry};
    }
    assert dir.files.Keys == {};
  }
}
