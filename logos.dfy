/** The logo resolution of vaultlock/services/logo_manager.py: turning a
    credential's name and website into a domain, deciding whether fetched
    bytes are an image, and the LogoManager's caches. The network, the
    worker threads and the MD5 naming of cache files are left out; the
    bundled logo directory and the cache directory are held as plain
    values. */
module Logos {
  import opened Common

  // ---- names ----

  /** A character the name normalisation keeps: [a-z0-9]. */
  predicate CleanChar(c: char) {
    'a' <= c <= 'z' || '0' <= c <= '9'
  }

  /** re.sub(r'[^a-z0-9]', '', s): the characters of `s` in [a-z0-9], in order. */
  function KeepClean(s: string): (r: string)
    ensures |r| <= |s|
    ensures forall i :: 0 <= i < |r| ==> CleanChar(r[i])
  {
    if s == [] then []
    else (if CleanChar(s[0]) then [s[0]] else []) + KeepClean(s[1..])
  }

  /** name_clean: lower-case the name, then drop everything outside [a-z0-9]. */
  function NormalizeName(name: string): string {
    KeepClean(Lower(name))
  }

  lemma {:induction false} KeepCleanAppend(a: string, b: string)
    ensures KeepClean(a + b) == KeepClean(a) + KeepClean(b)
    decreases |a|
  {
    if a == [] {
      assert a + b == b;
    } else {
      assert (a + b)[0] == a[0] && (a + b)[1..] == a[1..] + b;
      KeepCleanAppend(a[1..], b);
    }
  }

  /** A string already in [a-z0-9] is its own normal form. */
  lemma {:induction false} KeepCleanFixes(s: string)
    requires forall i :: 0 <= i < |s| ==> CleanChar(s[i])
    ensures KeepClean(s) == s
    decreases |s|
  {
    if s != [] {
      KeepCleanFixes(s[1..]);
    }
  }

  /** A normalised name is lower-case letters and digits only, no longer
      than the name, and normalising it again changes nothing. */
  lemma NormalizeIdempotent(name: string)
    ensures var r := NormalizeName(name);
      && |r| <= |name|
      && (forall i :: 0 <= i < |r| ==> 'a' <= r[i] <= 'z' || '0' <= r[i] <= '9')
      && NormalizeName(r) == r
  {
    var r := NormalizeName(name);
    assert Lower(r) == r;
    KeepCleanFixes(r);
  }

  /** Normalisation ignores case: a name and its lower-case form agree. */
  lemma NormalizeIgnoresCase(name: string)
    ensures NormalizeName(Lower(name)) == NormalizeName(name)
  {
    assert Lower(Lower(name)) == Lower(name);
  }

  /** Normalising a concatenation normalises each part. */
  lemma NormalizeAppend(a: string, b: string)
    ensures NormalizeName(a + b) == NormalizeName(a) + NormalizeName(b)
  {
    assert Lower(a + b) == Lower(a) + Lower(b);
    KeepCleanAppend(Lower(a), Lower(b));
  }

  /** brand_dictionary: well-known names and their domains. */
  const BrandDictionary: map<string, string> := map[
    "google" := "google.com", "github" := "github.com", "amazon" := "amazon.com",
    "apple" := "apple.com", "facebook" := "facebook.com", "meta" := "facebook.com",
    "linkedin" := "linkedin.com", "twitter" := "twitter.com", "x" := "twitter.com",
    "netflix" := "netflix.com", "spotify" := "spotify.com", "slack" := "slack.com",
    "discord" := "discord.com", "dropbox" := "dropbox.com", "microsoft" := "microsoft.com",
    "outlook" := "outlook.com", "gmail" := "google.com", "adobe" := "adobe.com",
    "figma" := "figma.com", "notion" := "notion.so", "zoom" := "zoom.us",
    "reddit" := "reddit.com", "paypal" := "paypal.com", "stripe" := "stripe.com",
    "binance" := "binance.com", "coinbase" := "coinbase.com", "openai" := "openai.com",
    "whatsapp" := "whatsapp.com", "telegram" := "telegram.org", "signal" := "signal.org"]

  // ---- domains ----

  /** A character urlsplit accepts in a scheme name. */
  predicate SchemeChar(c: char) {
    'a' <= c <= 'z' || 'A' <= c <= 'Z' || '0' <= c <= '9' || c == '+' || c == '-' || c == '.'
  }

  /** The characters that end a netloc. */
  predicate NetlocEnd(c: char) {
    c == '/' || c == '?' || c == '#'
  }

  /** The part of `s` before its first '/', '?' or '#'. */
  function UpToNetlocEnd(s: string): (r: string)
    ensures |r| <= |s| && r == s[..|r|]
    ensures forall i :: 0 <= i < |r| ==> !NetlocEnd(r[i])
    ensures |r| < |s| ==> NetlocEnd(s[|r|])
  {
    if s == [] || NetlocEnd(s[0]) then []
    else [s[0]] + UpToNetlocEnd(s[1..])
  }

  /** urlsplit's scheme test: a colon after a non-empty run of scheme
      characters that starts with a letter. */
  predicate HasScheme(url: string, i: nat) {
    0 < i < |url| && url[i] == ':'
    && ('a' <= url[0] <= 'z' || 'A' <= url[0] <= 'Z')
    && forall j :: 0 <= j < i ==> SchemeChar(url[j])
  }

  /** urlparse(url).netloc: drop a valid scheme up to the first colon, then
      take what follows a leading "//" up to the first '/', '?' or '#'. */
  function Netloc(url: string): (r: string)
    ensures |r| <= |url|
    ensures forall i :: 0 <= i < |r| ==> !NetlocEnd(r[i])
  {
    var colon := Find(url, ":");
    var rest := if colon.Some? && HasScheme(url, colon.value) then url[colon.value + 1..] else url;
    if StartsWith(rest, "//") then UpToNetlocEnd(rest[2..]) else ""
  }

  /** urlsplit raises ValueError ("Invalid IPv6 URL") for a netloc that
      holds one of '[' and ']' without the other. */
  predicate UnbalancedBrackets(netloc: string) {
    ('[' in netloc) != (']' in netloc)
  }

  /** The url _extract_domain parses: "http://" goes in front of a url
      without "://". */
  function WithScheme(url: string): string {
    if Contains(url, "://") then url else "http://" + url
  }

  /** _extract_domain: None for an empty url and, through the bare
      `except`, for a netloc urlparse refuses; otherwise the host with one
      leading "www." dropped. */
  function ExtractDomain(url: string): (r: Option<string>)
    ensures r.None? <==> url == "" || UnbalancedBrackets(Netloc(WithScheme(url)))
    ensures r.Some? ==> forall i :: 0 <= i < |r.value| ==> !NetlocEnd(r.value[i])
  {
    if url == "" then None
    else
      var d := Netloc(WithScheme(url));
      if UnbalancedBrackets(d) then None
      else Some(if StartsWith(d, "www.") then d[4..] else d)
  }

  /** The host after one leading "www." is dropped. */
  function StripWww(host: string): string {
    if StartsWith(host, "www.") then host[4..] else host
  }

  lemma FirstColon(url: string, i: nat)
    requires i < |url| && url[i] == ':' && forall j :: 0 <= j < i ==> url[j] != ':'
    ensures Find(url, ":") == Some(i)
  {
    assert OccursAt(url, ":", i);
    var k := Find(url, ":").value;
    assert url[k..k + 1] == ":";
    assert url[k] == ':';
  }

  /** The netloc of a url with a scheme, a host and a path is the host. */
  lemma NetlocOfUrl(scheme: string, host: string, path: string)
    requires scheme != [] && ('a' <= scheme[0] <= 'z' || 'A' <= scheme[0] <= 'Z')
    requires forall j :: 0 <= j < |scheme| ==> SchemeChar(scheme[j])
    requires forall j :: 0 <= j < |host| ==> !NetlocEnd(host[j])
    requires path == [] || NetlocEnd(path[0])
    ensures Netloc(scheme + "://" + host + path) == host
  {
    var url := scheme + "://" + host + path;
    var i := |scheme|;
    forall j | 0 <= j < i
      ensures url[j] != ':' && SchemeChar(url[j])
    {
      assert url[j] == scheme[j];
    }
    FirstColon(url, i);
    assert HasScheme(url, i);
    var rest := url[i + 1..];
    assert rest == "//" + host + path;
    assert rest[2..] == host + path;
    HostUpToPath(host, path);
  }

  /** A url with a scheme, a host and a path: the domain is the host, with
      one "www." dropped. */
  lemma ExtractFromUrl(scheme: string, host: string, path: string)
    requires scheme != [] && ('a' <= scheme[0] <= 'z' || 'A' <= scheme[0] <= 'Z')
    requires forall j :: 0 <= j < |scheme| ==> SchemeChar(scheme[j])
    requires forall j :: 0 <= j < |host| ==> !NetlocEnd(host[j])
    requires path == [] || NetlocEnd(path[0])
    requires !UnbalancedBrackets(host)
    ensures ExtractDomain(scheme + "://" + host + path) == Some(StripWww(host))
  {
    var url := scheme + "://" + host + path;
    var i := |scheme|;
    assert url[i..i + 3] == "://";
    assert OccursAt(url, "://", i);
    NetlocOfUrl(scheme, host, path);
  }

  lemma {:induction false} HostUpToPath(host: string, path: string)
    requires forall j :: 0 <= j < |host| ==> !NetlocEnd(host[j])
    requires path == [] || NetlocEnd(path[0])
    ensures UpToNetlocEnd(host + path) == host
    decreases |host|
  {
    if host != [] {
      assert (host + path)[1..] == host[1..] + path;
      HostUpToPath(host[1..], path);
    } else {
      assert host + path == path;
    }
  }

  /** A url whose host holds one bracket without the other makes urlparse
      raise, and the bare `except` answers None; a website like that then
      resolves as if there were none. */
  lemma UnbalancedHostRefused(scheme: string, host: string, path: string, name: string)
    requires scheme != [] && ('a' <= scheme[0] <= 'z' || 'A' <= scheme[0] <= 'Z')
    requires forall j :: 0 <= j < |scheme| ==> SchemeChar(scheme[j])
    requires forall j :: 0 <= j < |host| ==> !NetlocEnd(host[j])
    requires path == [] || NetlocEnd(path[0])
    requires UnbalancedBrackets(host)
    ensures ExtractDomain(scheme + "://" + host + path) == None
    ensures ResolveDomain(name, Some(scheme + "://" + host + path)) == ResolveDomain(name, None)
  {
    var url := scheme + "://" + host + path;
    var i := |scheme|;
    assert url[i..i + 3] == "://";
    assert OccursAt(url, "://", i);
    NetlocOfUrl(scheme, host, path);
  }

  /** A bare host name with no "://" and no path gets the "http://" prefix
      and comes back as itself, less one "www.". */
  lemma ExtractBareHost(host: string)
    requires host != [] && !Contains(host, "://")
    requires forall j :: 0 <= j < |host| ==> !NetlocEnd(host[j])
    requires !UnbalancedBrackets(host)
    ensures ExtractDomain(host) == Some(StripWww(host))
  {
    NetlocOfUrl("http", host, "");
    assert "http" + "://" + host + "" == "http://" + host;
  }

  /** A host name: no colon, no bracket and no character that ends a netloc. */
  predicate PlainHost(host: string) {
    forall j :: 0 <= j < |host| ==> host[j] !in ":[]" && !NetlocEnd(host[j])
  }

  /** A host name has no "://", so it gets the "http://" prefix. */
  lemma PlainHostHasNoSeparator(s: string)
    requires PlainHost(s)
    ensures !Contains(s, "://")
  {
    forall i | 0 <= i <= |s| - 3
      ensures !OccursAt(s, "://", i)
    {
      assert s[i..i + 3][0] == s[i];
    }
  }

  lemma PlainHostAppend(a: string, b: string)
    requires PlainHost(a) && PlainHost(b)
    ensures PlainHost(a + b)
  {
    forall j | 0 <= j < |a + b|
      ensures (a + b)[j] !in ":[]" && !NetlocEnd((a + b)[j])
    {
      if j >= |a| {
        assert (a + b)[j] == b[j - |a|];
      }
    }
  }

  /** Only one "www." is dropped: "www.www.<host>" gives "www.<host>". */
  lemma StripsOneWww(host: string)
    requires PlainHost(host)
    ensures ExtractDomain("www.www." + host) == Some("www." + host)
  {
    var url := "www.www." + host;
    DoubleWwwBare(host);
    ExtractBareHost(url);
    StripWwwOnce(host);
  }

  /** "www.www.<host>" is a bare host with balanced brackets. */
  lemma DoubleWwwBare(host: string)
    requires PlainHost(host)
    ensures var url := "www.www." + host;
      && url != [] && !Contains(url, "://") && !UnbalancedBrackets(url)
      && forall j :: 0 <= j < |url| ==> !NetlocEnd(url[j])
  {
    var url := "www.www." + host;
    WwwPlain();
    PlainHostAppend("www.www.", host);
    PlainHostHasNoSeparator(url);
    PlainHostBalanced(url);
  }

  lemma StripWwwOnce(host: string)
    ensures StripWww("www.www." + host) == "www." + host
  {
    var url := "www.www." + host;
    assert url[..4] == "www.";
    assert url[4..] == "www." + host;
  }

  lemma PlainHostBalanced(host: string)
    requires PlainHost(host)
    ensures !UnbalancedBrackets(host)
  {
    assert '[' !in host && ']' !in host;
  }

  lemma WwwPlain()
    ensures PlainHost("www.www.")
  {
    var w := "www.www.";
    assert forall j :: 0 <= j < |w| ==> w[j] == 'w' || w[j] == '.';
  }

  /** _resolve_domain: the website's domain when it yields a non-empty one,
      else the brand dictionary entry of the normalised name, else the
      normalised name with ".com". */
  function ResolveDomain(name: string, website: Option<string>): (r: string)
    ensures r != ""
    ensures website.Some? && website.value != "" ==>
              var d := ExtractDomain(website.value); d.Some? && d.value != "" ==> r == d.value
  {
    var fromSite := if website.Some? && website.value != "" then ExtractDomain(website.value) else None;
    if fromSite.Some? && fromSite.value != "" then fromSite.value else NameDomain(name)
  }

  /** The domain _resolve_domain guesses from the name alone. */
  function NameDomain(name: string): (r: string)
    ensures r != ""
  {
    var clean := NormalizeName(name);
    if clean in BrandDictionary then BrandDictionary[clean] else clean + ".com"
  }

  /** Without a usable website, the domain depends on the name only through
      its normal form: case and punctuation do not matter. */
  lemma ResolveByNormalForm(a: string, b: string, website: Option<string>)
    requires NormalizeName(a) == NormalizeName(b)
    ensures ResolveDomain(a, website) == ResolveDomain(b, website)
  {
  }

  /** A name outside the dictionary with no usable website is guessed as
      its normal form under ".com". */
  lemma ResolveGuess(name: string)
    requires NormalizeName(name) !in BrandDictionary
    ensures var r := ResolveDomain(name, None);
      && r == NormalizeName(name) + ".com"
      && (forall i :: 0 <= i < |r| - 4 ==> CleanChar(r[i]))
      && ResolveDomain(Lower(name), None) == r
  {
    NormalizeIgnoresCase(name);
  }

  // ---- fetched content ----

  function LowerByte(b: byte): (r: byte)
    ensures 65 <= b <= 90 ==> r == b + 32
    ensures !(65 <= b <= 90) ==> r == b
  {
    if 65 <= b <= 90 then b + 32 else b
  }

  /** bytes.lower(): ASCII upper-case letters become lower-case. */
  function LowerBytes(s: seq<byte>): (r: seq<byte>)
    ensures |r| == |s| && forall i :: 0 <= i < |s| ==> r[i] == LowerByte(s[i])
  {
    seq(|s|, i requires 0 <= i < |s| => LowerByte(s[i]))
  }

  const PngMagic: seq<byte> := [0x89, 0x70, 0x6e, 0x67]      // b'\x89png'
  const JpegMagic: seq<byte> := [0xff, 0xd8, 0xff]
  const IcoMagic: seq<byte> := [0x00, 0x00, 0x01, 0x00]
  const WebpTag: seq<byte> := [0x77, 0x65, 0x62, 0x70]       // b'webp'
  const SvgTag: seq<byte> := [0x3c, 0x73, 0x76, 0x67]        // b'<svg'
  const XmlTag: seq<byte> := [0x3c, 0x3f, 0x78, 0x6d, 0x6c]  // b'<?xml'

  /** content[:12].lower() */
  function Magic(content: seq<byte>): (r: seq<byte>)
    ensures |r| <= 12
  {
    LowerBytes(if |content| <= 12 then content else content[..12])
  }

  predicate LooksLikeImage(magic: seq<byte>) {
    || StartsWith(magic, PngMagic) || StartsWith(magic, JpegMagic) || StartsWith(magic, IcoMagic)
    || Contains(magic, WebpTag) || Contains(magic, SvgTag) || Contains(magic, XmlTag)
  }

  /** An HTTP response: status, body, and the Content-Type header if sent. */
  datatype Response = Response(status: int, content: seq<byte>, contentType: Option<string>)

  predicate ImageType(contentType: Option<string>) {
    var t := Lower(if contentType.Some? then contentType.value else "");
    Contains(t, "image") || Contains(t, "application/octet-stream")
  }

  /** The checks LogoFetchWorker.run applies to one response. */
  predicate Accepted(r: Response) {
    r.status == 200 && |r.content| >= 500 && ImageType(r.contentType) && LooksLikeImage(Magic(r.content))
  }

  /** A request that did not raise and whose response passes the checks. */
  predicate Usable(r: Option<Response>) {
    r.Some? && Accepted(r.value)
  }

  /** The first usable response at or after `from`. */
  function FirstUsable(responses: seq<Option<Response>>, from: nat): (r: Option<nat>)
    ensures r.Some? ==> from <= r.value < |responses| && Usable(responses[r.value])
    ensures r.Some? ==> forall j :: from <= j < r.value ==> !Usable(responses[j])
    ensures r.None? ==> forall j :: from <= j < |responses| ==> !Usable(responses[j])
    decreases |responses| - from
  {
    if from >= |responses| then None
    else if Usable(responses[from]) then Some(from)
    else FirstUsable(responses, from + 1)
  }

  /** The body run writes to the cache: that of the first source whose
      request does not raise and whose response passes the checks. */
  function FirstAccepted(responses: seq<Option<Response>>): (r: Option<seq<byte>>)
    ensures r.None? <==> forall i :: 0 <= i < |responses| ==> !Usable(responses[i])
    ensures r.Some? ==> exists i :: 0 <= i < |responses| && Usable(responses[i])
                                    && r.value == responses[i].value.content
                                    && forall j :: 0 <= j < i ==> !Usable(responses[j])
  {
    var k := FirstUsable(responses, 0);
    if k.Some? then Some(responses[k.value].value.content) else None
  }

  /** LogoFetchWorker.run over the outcomes of its requests, in source
      order (None for a request that raised): the first accepted body, or
      None when every source failed. */
  method Run(responses: seq<Option<Response>>) returns (body: Option<seq<byte>>)
    ensures body == FirstAccepted(responses)
  {
    for i := 0 to |responses|
      invariant FirstUsable(responses, 0) == FirstUsable(responses, i)
    {
      var response := responses[i];
      if response.None? || response.value.status != 200 {
        continue;
      }
      var content := response.value.content;
      if |content| < 500 {
        continue;
      }
      if !ImageType(response.value.contentType) {
        continue;
      }
      if !LooksLikeImage(Magic(content)) {
        continue;
      }
      return Some(content);
    }
    return None;
  }

  /** A real PNG file of at least 500 bytes served as image/png passes:
      its upper-case "PNG" matches once lowered. */
  lemma PngAccepted(content: seq<byte>)
    requires |content| >= 500 && content[..8] == [0x89, 0x50, 0x4e, 0x47, 0x0d, 0x0a, 0x1a, 0x0a]
    ensures Accepted(Response(200, content, Some("image/png")))
  {
    var m := Magic(content);
    assert m[..4] == PngMagic by {
      assert content[..12][..8] == content[..8];
      assert content[0] == 0x89 && content[1] == 0x50 && content[2] == 0x4e && content[3] == 0x47;
    }
    assert Lower("image/png") == "image/png";
    assert OccursAt("image/png", "image", 0);
  }

  /** _validate_cache_file: a cache file counts only when larger than 500 bytes. */
  predicate ValidCacheFile(size: nat) {
    size > 500
  }

  /** The two size checks disagree at exactly 500 bytes: such a body passes
      the fetch, yet its cache file is later judged corrupt. */
  lemma CacheBoundaryDiffers(content: seq<byte>)
    requires |content| == 500 && content[..8] == [0x89, 0x50, 0x4e, 0x47, 0x0d, 0x0a, 0x1a, 0x0a]
    ensures Accepted(Response(200, content, Some("image/png"))) && !ValidCacheFile(|content|)
  {
    PngAccepted(content);
  }

  // ---- the manager ----

  /** Where a logo lives: a file of the bundled logo directory, or the
      cache file of a domain. */
  datatype LogoFile = BundledFile(fileName: string) | CacheFile(domain: string)

  /** A LogoFetchWorker thread, known by identity. */
  class FetchWorker {
    const domain: string
    /** The credential name the logo_ready callback reports. */
    const name: string

    constructor (domain: string, name: string)
      ensures this.domain == domain && this.name == name
    {
      this.domain := domain;
      this.name := name;
    }
  }

  /** The position of the first occurrence of `x` in `s`. */
  function IndexOf<T(==)>(s: seq<T>, x: T): (k: nat)
    requires x in s
    ensures k < |s| && s[k] == x && x !in s[..k]
  {
    if s[0] == x then 0
    else
      var k := IndexOf(s[1..], x) + 1;
      assert s[..k] == [s[0]] + s[1..][..k - 1];
      k
  }

  /** list.remove: drop the first occurrence, if any. */
  function RemoveFirst<T(==)>(s: seq<T>, x: T): (r: seq<T>)
    ensures x !in s ==> r == s
    ensures x in s ==> |r| == |s| - 1
  {
    if x in s then s[..IndexOf(s, x)] + s[IndexOf(s, x) + 1..] else s
  }

  /** The domains of a list of workers. */
  function Domains(workers: seq<FetchWorker>): set<string> {
    set w | w in workers :: w.domain
  }

  class LogoManager {
    /** domain -> where its logo was found */
    var memoryCache: map<string, LogoFile>
    /** domains every source failed for */
    var failedDomains: set<string>
    /** domains with a worker running */
    var pendingFetches: set<string>
    /** the running workers */
    var workers: seq<FetchWorker>
    /** the cache directory: the size of each domain's cache file */
    var cacheFiles: map<string, nat>
    /** the file names of the bundled logo directory */
    const bundled: set<string>

    /** Every pending domain has exactly one running worker, and every
        running worker's domain is pending. */
    ghost predicate Valid()
      reads this
    {
      && pendingFetches == Domains(workers)
      && (forall i, j :: 0 <= i < j < |workers| ==> workers[i].domain != workers[j].domain)
    }

    constructor (bundled: set<string>, cacheFiles: map<string, nat>)
      ensures Valid() && this.bundled == bundled && this.cacheFiles == cacheFiles
      ensures memoryCache == map[] && failedDomains == {} && pendingFetches == {} && workers == []
    {
      this.bundled := bundled;
      this.cacheFiles := cacheFiles;
      memoryCache, failedDomains, pendingFetches, workers := map[], {}, {}, [];
    }

    /** _trigger_async_fetch: start one worker for a domain not already
        pending. */
    method TriggerAsyncFetch(domain: string, name: string)
      requires Valid()
      modifies this
      ensures Valid()
      ensures pendingFetches == old(pendingFetches) + {domain}
      ensures domain in old(pendingFetches) ==> workers == old(workers)
      ensures domain !in old(pendingFetches) ==>
                |workers| == |old(workers)| + 1 && workers[..|old(workers)|] == old(workers)
                && fresh(workers[|old(workers)|]) && workers[|old(workers)|].domain == domain
                && workers[|old(workers)|].name == name
      ensures memoryCache == old(memoryCache) && failedDomains == old(failedDomains) && cacheFiles == old(cacheFiles)
    {
      if domain in pendingFetches {
        return;
      }
      pendingFetches := pendingFetches + {domain};
      var worker := new FetchWorker(domain, name);
      workers := workers + [worker];
      assert forall w :: w in workers ==> w in old(workers) || w == worker;
    }

    /** _on_logo_ready: remember where the domain's logo is, and report it
        under the credential name. */
    method OnLogoReady(domain: string, path: LogoFile, name: string) returns (updated: (string, LogoFile))
      modifies this
      ensures memoryCache == old(memoryCache)[domain := path] && updated == (name, path)
      ensures failedDomains == old(failedDomains) && pendingFetches == old(pendingFetches)
      ensures workers == old(workers) && cacheFiles == old(cacheFiles)
    {
      memoryCache := memoryCache[domain := path];
      updated := (name, path);
    }

    /** _on_fetch_failed */
    method OnFetchFailed(domain: string)
      modifies this
      ensures failedDomains == old(failedDomains) + {domain}
      ensures memoryCache == old(memoryCache) && pendingFetches == old(pendingFetches)
      ensures workers == old(workers) && cacheFiles == old(cacheFiles)
    {
      failedDomains := failedDomains + {domain};
    }

    /** _cleanup_worker: drop the worker and its domain; the finished
        callback passes the worker's own domain. */
    method CleanupWorker(worker: FetchWorker, domain: string)
      modifies this
      ensures workers == RemoveFirst(old(workers), worker)
      ensures pendingFetches == old(pendingFetches) - {domain}
      ensures old(Valid()) && worker in old(workers) && domain == worker.domain ==> Valid()
      ensures memoryCache == old(memoryCache) && failedDomains == old(failedDomains) && cacheFiles == old(cacheFiles)
    {
      if worker in workers {
        workers := RemoveFirst(workers, worker);
      }
      if domain in pendingFetches {
        pendingFetches := pendingFetches - {domain};
      }
      if old(Valid()) && worker in old(workers) && domain == worker.domain {
        CleanupDistinct(old(workers), worker);
        CleanupDomains(old(workers), worker);
      }
    }

    /** get_logo_path: the memory cache first, then the failed list, then
        the bundled files by domain and by name, then the cache directory
        (a file too small to be valid is deleted), and last a fetch. */
    method GetLogoPath(name: string, website: Option<string>) returns (path: Option<LogoFile>, found: bool)
      requires Valid()
      modifies this
      ensures Valid()
      ensures var d := ResolveDomain(name, website);
        && (found <==> path.Some?)
        && (d in old(memoryCache) ==> path == Some(old(memoryCache)[d]))
        && (d !in old(memoryCache) && d in old(failedDomains) ==> !found)
        && (d in old(memoryCache) || d in old(failedDomains) ==>
              memoryCache == old(memoryCache) && pendingFetches == old(pendingFetches) && workers == old(workers)
              && cacheFiles == old(cacheFiles))
        && (found ==> memoryCache == old(memoryCache)[d := path.value])
        && (!found ==> memoryCache == old(memoryCache))
        && (d !in old(memoryCache) && d !in old(failedDomains) ==> path == DiskLogo(bundled, old(cacheFiles), name, d))
        && cacheFiles == if found || d in old(failedDomains) then old(cacheFiles) else old(cacheFiles) - {d}
      ensures failedDomains == old(failedDomains)
      ensures var d := ResolveDomain(name, website);
        found || d in old(failedDomains) ==> pendingFetches == old(pendingFetches) && workers == old(workers)
      ensures var d := ResolveDomain(name, website);
        !found && d !in old(failedDomains) ==>
          && pendingFetches == old(pendingFetches) + {d}
          && (d in old(pendingFetches) ==> workers == old(workers))
          && (d !in old(pendingFetches) ==>
                |workers| == |old(workers)| + 1 && workers[..|old(workers)|] == old(workers)
                && fresh(workers[|old(workers)|]) && workers[|old(workers)|].domain == d
                && workers[|old(workers)|].name == name)
    {
      var domain := ResolveDomain(name, website);
      // The source's guard against an empty domain never fires: ResolveDomain is never empty.
      path, found := Lookup(domain, name);
    }

    /** get_logo_path once the domain is resolved. */
    method Lookup(domain: string, name: string) returns (path: Option<LogoFile>, found: bool)
      requires Valid()
      modifies this
      ensures Valid()
      ensures var d := domain;
        && (found <==> path.Some?)
        && (d in old(memoryCache) ==> path == Some(old(memoryCache)[d]))
        && (d !in old(memoryCache) && d in old(failedDomains) ==> !found)
        && (d in old(memoryCache) || d in old(failedDomains) ==>
              memoryCache == old(memoryCache) && pendingFetches == old(pendingFetches) && workers == old(workers)
              && cacheFiles == old(cacheFiles))
        && (found ==> memoryCache == old(memoryCache)[d := path.value])
        && (!found ==> memoryCache == old(memoryCache))
        && (d !in old(memoryCache) && d !in old(failedDomains) ==> path == DiskLogo(bundled, old(cacheFiles), name, d))
        && cacheFiles == if found || d in old(failedDomains) then old(cacheFiles) else old(cacheFiles) - {d}
      ensures failedDomains == old(failedDomains)
      ensures var d := domain;
        found || d in old(failedDomains) ==> pendingFetches == old(pendingFetches) && workers == old(workers)
      ensures var d := domain;
        !found && d !in old(failedDomains) ==>
          && pendingFetches == old(pendingFetches) + {d}
          && (d in old(pendingFetches) ==> workers == old(workers))
          && (d !in old(pendingFetches) ==>
                |workers| == |old(workers)| + 1 && workers[..|old(workers)|] == old(workers)
                && fresh(workers[|old(workers)|]) && workers[|old(workers)|].domain == d
                && workers[|old(workers)|].name == name)
    {
      var nameClean := NormalizeName(name);
      if domain in memoryCache {
        return Some(memoryCache[domain]), true;
      }
      if domain in failedDomains {
        return None, false;
      }
      if domain + ".png" in bundled {
        memoryCache := memoryCache[domain := BundledFile(domain + ".png")];
        return Some(BundledFile(domain + ".png")), true;
      }
      if nameClean + ".png" in bundled {
        memoryCache := memoryCache[domain := BundledFile(nameClean + ".png")];
        return Some(BundledFile(nameClean + ".png")), true;
      }
      if domain in cacheFiles {
        if ValidCacheFile(cacheFiles[domain]) {
          memoryCache := memoryCache[domain := CacheFile(domain)];
          return Some(CacheFile(domain)), true;
        }
        cacheFiles := cacheFiles - {domain};
      }
      TriggerAsyncFetch(domain, name);
      return None, false;
    }
  }

  /** Where get_logo_path finds a logo on disk for a domain it has not seen:
      the bundled file named after the domain, then the one named after the
      normalised name, then a valid cache file. */
  function DiskLogo(bundled: set<string>, cacheFiles: map<string, nat>, name: string, domain: string): (r: Option<LogoFile>)
    ensures r.Some? && r.value.CacheFile? ==> domain in cacheFiles && ValidCacheFile(cacheFiles[domain])
    ensures r.Some? && r.value.BundledFile? ==> r.value.fileName in bundled
  {
    if domain + ".png" in bundled then Some(BundledFile(domain + ".png"))
    else if NormalizeName(name) + ".png" in bundled then Some(BundledFile(NormalizeName(name) + ".png"))
    else if domain in cacheFiles && ValidCacheFile(cacheFiles[domain]) then Some(CacheFile(domain))
    else None
  }

  /** The element at position `i` after list.remove: the one at `i`
      before the removed position, the one after it from there on. */
  lemma RemoveFirstAt<T>(s: seq<T>, x: T, i: nat)
    requires x in s && i < |s| - 1
    ensures RemoveFirst(s, x)[i] == s[if i < IndexOf(s, x) then i else i + 1]
  {
  }

  /** Removing a worker from a list of workers with distinct domains keeps
      the domains distinct. */
  lemma CleanupDistinct(workers: seq<FetchWorker>, worker: FetchWorker)
    requires forall i, j :: 0 <= i < j < |workers| ==> workers[i].domain != workers[j].domain
    requires worker in workers
    ensures var r := RemoveFirst(workers, worker);
      forall i, j :: 0 <= i < j < |r| ==> r[i].domain != r[j].domain
  {
    var r := RemoveFirst(workers, worker);
    forall i, j | 0 <= i < j < |r|
      ensures r[i].domain != r[j].domain
    {
      RemoveFirstAt(workers, worker, i);
      RemoveFirstAt(workers, worker, j);
    }
  }

  /** Removing a worker from a list of workers with distinct domains
      removes exactly its domain. */
  lemma CleanupDomains(workers: seq<FetchWorker>, worker: FetchWorker)
    requires forall i, j :: 0 <= i < j < |workers| ==> workers[i].domain != workers[j].domain
    requires worker in workers
    ensures Domains(RemoveFirst(workers, worker)) == Domains(workers) - {worker.domain}
  {
    var k := IndexOf(workers, worker);
    var r := RemoveFirst(workers, worker);
    forall d | d in Domains(workers) - {worker.domain}
      ensures d in Domains(r)
    {
      var w :| w in workers && w.domain == d;
      var m :| 0 <= m < |workers| && workers[m] == w;
      assert m != k;
      var m' := if m < k then m else m - 1;
      RemoveFirstAt(workers, worker, m');
      assert r[m'] == w;
      assert w in r;
    }
    forall d | d in Domains(r)
      ensures d in Domains(workers) - {worker.domain}
    {
      var w :| w in r && w.domain == d;
      var m :| 0 <= m < |r| && r[m] == w;
      RemoveFirstAt(workers, worker, m);
      var m' := if m < k then m else m + 1;
      assert w == workers[m'] && m' != k;
      assert w in workers;
    }
  }
}
