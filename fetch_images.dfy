/**
  The image fetcher of the web front end (frontend/offline-scripts/fetch_images.py).
  For each keyword of a keywords file it runs an image search and downloads up to
  `num_images` of the hits that are at least `min_width` x `min_height`, naming the
  n-th one `<keyword>_<n>.<ext>` inside the output directory.

  The search engine and the HTTP client are oracles: `search` gives a keyword's
  result list (None when the search raised) and `fetch` gives the reply to a GET
  of a URL (Raised when the request raised). The keywords file arrives already
  split into lines.
*/
module FetchImages {
  import opened Text
  import opened Wrappers
  import opened Ordering
  import opened Paths
  import opened Files
  import opened Lists

  /** What `requests.get(url)` gives: an exception, or a reply. A reply without a
      content-type header has the empty string there (`headers.get("content-type", "")`). */
  datatype Response = Raised | Reply(status: int, contentType: string, content: seq<byte>)

  /** One search hit: `r.get('image')`, and the values of `int(r.get('width', 0))` and
      `int(r.get('height', 0))`, None where `int(..)` raises. */
  datatype SearchResult = SearchResult(url: Option<string>, width: Option<int>, height: Option<int>)

  /** The command-line settings and the HTTP oracle. */
  datatype Settings = Settings(minWidth: int, minHeight: int, numImages: int, outDir: string,
                               fetch: string -> Response)

  // ---------------------------------------------------------------------------
  // get_extension_from_url
  // ---------------------------------------------------------------------------

  /** `url.split('.')[-1].split('?')[0]`: the last '.'-segment, cut at the first '?'. */
  function RawExtension(url: string): string
  {
    BeforeFirst(AfterLast(url, '.'), '?')
  }

  /** `get_extension_from_url`. */
  function ExtensionFromUrl(url: string): string
  {
    var ext := Lower(RawExtension(url));
    if |ext| > 4 || !IsAlnum(ext) then "jpg" else ext
  }

  /** The extension is the raw extension lower-cased when that is 1 to 4 alphanumeric
      characters, and "jpg" otherwise; either way it is 1 to 4 alphanumeric
      characters with no capital letter and no '.'. */
  lemma ExtensionShape(url: string)
    ensures var raw := RawExtension(url);
            (forall i :: 0 <= i < |raw| ==> raw[i] != '.' && raw[i] != '?')
            && (|raw| <= 4 && IsAlnum(raw) ==> ExtensionFromUrl(url) == Lower(raw))
            && (!(|raw| <= 4 && IsAlnum(raw)) ==> ExtensionFromUrl(url) == "jpg")
    ensures var r := ExtensionFromUrl(url);
            |r| <= 4 && IsAlnum(r) && forall i :: 0 <= i < |r| ==> !IsUpper(r[i]) && r[i] != '.'
  {
    LowerKeepsAlnum(RawExtension(url));
    var r := ExtensionFromUrl(url);
    assert forall i :: 0 <= i < |r| ==> IsAlnumChar(r[i]);
  }

  /** A URL ending in a short lower-case alphanumeric extension, possibly followed by
      a query without '.', yields exactly that extension. */
  lemma ExtensionOfUrl(base: string, ext: string, query: string)
    requires |ext| <= 4 && IsAlnum(ext) && forall i :: 0 <= i < |ext| ==> !IsUpper(ext[i])
    requires query == "" || query[0] == '?'
    requires forall i :: 0 <= i < |query| ==> query[i] != '.'
    ensures ExtensionFromUrl(base + "." + ext + query) == ext
  {
    var tail := ext + query;
    assert base + "." + ext + query == base + ['.'] + tail;
    assert forall i :: 0 <= i < |tail| ==> tail[i] != '.' by {
      forall i | 0 <= i < |tail| ensures tail[i] != '.' {
        if i < |ext| {
          assert tail[i] == ext[i] && IsAlnumChar(ext[i]);
        } else {
          assert tail[i] == query[i - |ext|];
        }
      }
    }
    AfterLastOf(base, '.', tail);
    assert forall i :: 0 <= i < |ext| ==> ext[i] != '?' by {
      forall i | 0 <= i < |ext| ensures ext[i] != '?' {
        assert IsAlnumChar(ext[i]);
      }
    }
    BeforeFirstOf(ext, '?', query);
    assert Lower(ext) == ext;
    LowerKeepsAlnum(ext);
  }

  // ---------------------------------------------------------------------------
  // Keyword normalisation
  // ---------------------------------------------------------------------------

  /** `line.strip() and line.strip().lower() != 'keyword'`: a non-blank line that is
      not the header. */
  predicate IsKeywordLine(line: string)
  {
    Strip(line) != "" && Lower(Strip(line)) != "keyword"
  }

  /** `line.strip().strip(',')`. */
  function KeywordOf(line: string): string
  {
    StripCommas(Strip(line))
  }

  /** The generator over the lines, in line order. */
  function KeywordCandidates(lines: seq<string>): seq<string>
  {
    FilterMap(lines, IsKeywordLine, KeywordOf)
  }

  /** `sorted(list(set(...)))`: strictly increasing, and holding exactly the keywords
      of the kept lines. */
  function Keywords(lines: seq<string>): (r: seq<string>)
    ensures StrictlySorted(r, false)
    ensures forall k :: k in r <==> exists i :: 0 <= i < |lines| && IsKeywordLine(lines[i]) && k == KeywordOf(lines[i])
  {
    FilterMapMembers(lines, IsKeywordLine, KeywordOf);
    SortDedup(KeywordCandidates(lines), false)
  }

  /** The keyword list depends only on which lines the file has, not on their order
      or their repetition. */
  lemma KeywordsIgnoreLineOrder(a: seq<string>, b: seq<string>)
    requires forall l :: l in a <==> l in b
    ensures Keywords(a) == Keywords(b)
  {
    var ka := KeywordCandidates(a);
    var kb := KeywordCandidates(b);
    FilterMapMembers(a, IsKeywordLine, KeywordOf);
    FilterMapMembers(b, IsKeywordLine, KeywordOf);
    forall k ensures k in ka <==> k in kb {
      if k in ka {
        var i :| 0 <= i < |a| && IsKeywordLine(a[i]) && k == KeywordOf(a[i]);
        assert a[i] in b;
        var j :| 0 <= j < |b| && b[j] == a[i];
      }
      if k in kb {
        var i :| 0 <= i < |b| && IsKeywordLine(b[i]) && k == KeywordOf(b[i]);
        assert b[i] in a;
        var j :| 0 <= j < |a| && a[j] == b[i];
      }
    }
    SortDedupSameElements(ka, kb, false);
  }

  /** The header test looks at the line before its commas are stripped: a bare
      `Keyword` header is dropped, but a `keyword,` header is kept as the keyword
      `keyword`. */
  lemma HeaderTestPrecedesCommaStrip()
    ensures !IsKeywordLine("Keyword")
    ensures IsKeywordLine("keyword,") && KeywordOf("keyword,") == "keyword"
  {
    HeaderKept();
    HeaderWithCommaKept();
  }

  lemma HeaderKept()
    ensures !IsKeywordLine("Keyword")
  {
    StripByKeeps("Keyword", IsSpaceFn());
    HeaderLowered();
  }

  lemma HeaderLowered()
    ensures Lower("Keyword") == "keyword"
  {
  }

  lemma HeaderWithCommaKept()
    ensures IsKeywordLine("keyword,") && KeywordOf("keyword,") == "keyword"
  {
    var line := "keyword,";
    assert line == "keyword" + [','];
    StripByKeeps(line, IsSpaceFn());
    assert |Lower(line)| == 8;
    StripByDropsEnd("keyword", ',', IsCommaFn());
  }

  // ---------------------------------------------------------------------------
  // File names
  // ---------------------------------------------------------------------------

  /** `keyword.replace(' ', '_').lower()`: spaces become '_', letters lower case. */
  function SafeName(keyword: string): string
  {
    Lower(ReplaceChar(keyword, ' ', '_'))
  }

  /** The safe name keeps the keyword's length, has '_' for each space and the other
      characters lower-cased, so it holds no space and no capital letter. */
  lemma SafeNameChars(keyword: string)
    ensures |SafeName(keyword)| == |keyword|
    ensures forall i :: 0 <= i < |keyword| ==>
              SafeName(keyword)[i] == if keyword[i] == ' ' then '_' else LowerChar(keyword[i])
    ensures forall i :: 0 <= i < |keyword| ==> SafeName(keyword)[i] != ' ' && !IsUpper(SafeName(keyword)[i])
  {
  }

  /** `f"{safe_name}_{count + 1}"`. */
  function ImageStem(keyword: string, count: nat): string
  {
    SafeName(keyword) + "_" + NatToString(count + 1)
  }

  /** `f"{safe_name}_{count + 1}.{ext}"`. */
  function FileName(keyword: string, count: nat, ext: string): string
  {
    ImageStem(keyword, count) + "." + ext
  }

  /** Two downloads of one keyword with different counts never share a file name,
      whatever their extensions: the number ends at the first '.' after the name. */
  lemma FileNamesDistinct(keyword: string, i: nat, j: nat, e1: string, e2: string)
    requires FileName(keyword, i, e1) == FileName(keyword, j, e2)
    ensures i == j
  {
    var p := SafeName(keyword) + "_";
    var a := NatToString(i + 1) + "." + e1;
    var b := NatToString(j + 1) + "." + e2;
    assert FileName(keyword, i, e1) == p + a && FileName(keyword, j, e2) == p + b;
    assert a == (p + a)[|p|..] && b == (p + b)[|p|..];
    var m := NatToString(i + 1);
    var n := NatToString(j + 1);
    assert a[|m|] == '.' && b[|n|] == '.';
    assert m == a[..|m|] && n == b[..|n|];
    NatToStringInjective(i + 1, j + 1);
  }

  /** `output_dir / filename` for the download numbered `count` from `url`. */
  function Destination(s: Settings, keyword: string, count: nat, url: string): string
  {
    Join(s.outDir, FileName(keyword, count, ExtensionFromUrl(url)))
  }

  /** A keyword's downloads with different counts go to different paths. */
  lemma DestinationsDistinct(outDir: string, keyword: string, i: nat, j: nat, e1: string, e2: string)
    requires i != j
    ensures Join(outDir, FileName(keyword, i, e1)) != Join(outDir, FileName(keyword, j, e2))
  {
    var a := FileName(keyword, i, e1);
    var b := FileName(keyword, j, e2);
    assert a[0] == b[0] by {
      var p := SafeName(keyword) + "_";
      assert a == p + (NatToString(i + 1) + "." + e1) && b == p + (NatToString(j + 1) + "." + e2);
      assert a[0] == p[0] && b[0] == p[0];
    }
    if Join(outDir, a) == Join(outDir, b) {
      JoinInjective(outDir, a, b);
      FileNamesDistinct(keyword, i, j, e1, e2);
    }
  }

  // ---------------------------------------------------------------------------
  // download_image
  // ---------------------------------------------------------------------------

  /** `download_image` succeeds: the request did not raise, `raise_for_status`
      passed (a status outside 400..599) and the content-type mentions `image`. */
  predicate Downloads(resp: Response)
  {
    resp.Reply? && !(400 <= resp.status < 600) && Contains(resp.contentType, "image")
  }

  /** `download_image(url, dest_path)`: writes the body to `dest` exactly when it
      succeeds, and leaves every file alone otherwise. */
  method DownloadImage(store: FileStore, fetch: string -> Response, url: string, dest: string)
    returns (ok: bool)
    modifies store
    ensures ok == Downloads(fetch(url))
    ensures ok ==> store.files == old(store.files)[dest := fetch(url).content]
    ensures !ok ==> store.files == old(store.files)
  {
    var resp := fetch(url);
    if resp.Raised? || 400 <= resp.status < 600 {
      return false;
    }
    if !Contains(resp.contentType, "image") {
      return false;
    }
    store.Write(dest, resp.content);
    return true;
  }

  /** A reply whose content-type does not mention `image` is refused, whatever its status. */
  lemma NonImageRefused(status: int, contentType: string, content: seq<byte>)
    requires !Contains(contentType, "image")
    ensures !Downloads(Reply(status, contentType, content))
  {
  }

  // ---------------------------------------------------------------------------
  // One keyword's result loop
  // ---------------------------------------------------------------------------

  /** The most downloads a keyword can get: `num_images`, or none when that is not positive. */
  function Quota(s: Settings): nat
  {
    if s.numImages > 0 then s.numImages else 0
  }

  /** A hit with a URL whose width or height `int(..)` rejects: the exception ends the
      keyword's `try`. */
  predicate Raises(r: SearchResult)
  {
    r.url.Some? && r.url.value != "" && (r.width.None? || r.height.None?)
  }

  /** A hit that is downloaded when the loop reaches it below the quota: it has a URL,
      both dimensions reach the minimum, and `download_image` succeeds on it. */
  predicate Eligible(s: Settings, r: SearchResult)
  {
    r.url.Some? && r.url.value != "" && r.width.Some? && r.height.Some?
    && r.width.value >= s.minWidth && r.height.value >= s.minHeight
    && Downloads(s.fetch(r.url.value))
  }

  /** The indices of the eligible hits among the first `n`: increasing, and holding
      every eligible hit among them. */
  function EligibleIndices(s: Settings, rs: seq<SearchResult>, n: nat): (r: seq<nat>)
    requires n <= |rs|
    ensures forall k :: 0 <= k < |r| ==> r[k] < n && Eligible(s, rs[r[k]])
    ensures forall k, l :: 0 <= k < l < |r| ==> r[k] < r[l]
    ensures forall i :: 0 <= i < n && Eligible(s, rs[i]) ==> i in r
    decreases n
  {
    if n == 0 then []
    else EligibleIndices(s, rs, n - 1) + (if Eligible(s, rs[n - 1]) then [n - 1] else [])
  }

  /** The eligible hits among the first `i` start the list of those among the first `m`. */
  lemma {:induction false} EligibleIndicesPrefix(s: Settings, rs: seq<SearchResult>, i: nat, m: nat)
    requires i <= m <= |rs|
    ensures |EligibleIndices(s, rs, i)| <= |EligibleIndices(s, rs, m)|
    ensures EligibleIndices(s, rs, i) == EligibleIndices(s, rs, m)[..|EligibleIndices(s, rs, i)|]
    decreases m
  {
    if m > i {
      EligibleIndicesPrefix(s, rs, i, m - 1);
      var e := EligibleIndices(s, rs, m - 1);
      assert EligibleIndices(s, rs, m)[..|e|] == e;
    }
  }

  /** The index of the first hit among the first `n` that raises, or `n`. */
  function FirstRaise(rs: seq<SearchResult>, n: nat): (r: nat)
    requires n <= |rs|
    ensures r <= n
    ensures r < n ==> Raises(rs[r])
    ensures forall i :: 0 <= i < r ==> !Raises(rs[i])
    decreases n
  {
    if n == 0 then 0
    else if FirstRaise(rs, n - 1) < n - 1 then FirstRaise(rs, n - 1)
    else if Raises(rs[n - 1]) then n - 1
    else n
  }

  /** The first `k` elements of `xs`, or all of them. */
  function Take<T>(xs: seq<T>, k: nat): (r: seq<T>)
    ensures |r| == if |xs| <= k then |xs| else k
    ensures r == xs[..|r|]
  {
    if |xs| <= k then xs else xs[..k]
  }

  /** The hits one keyword's loop saves, in order: the first `num_images` eligible hits
      before the first hit that raises; none when the search raised. */
  function SavedHits(s: Settings, results: Option<seq<SearchResult>>): seq<nat>
  {
    match results
    case None => []
    case Some(rs) => Take(EligibleIndices(s, rs, FirstRaise(rs, |rs|)), Quota(s))
  }

  /** What the saved hits are: at most `num_images` of them, each eligible and before
      the first hit that raises, in result order; and an eligible hit before the first
      raising one is left out only when `num_images` earlier hits were saved. */
  lemma SavedHitsAreFirstEligible(s: Settings, rs: seq<SearchResult>)
    ensures |SavedHits(s, Some(rs))| <= Quota(s)
    ensures forall k :: 0 <= k < |SavedHits(s, Some(rs))| ==>
              SavedHits(s, Some(rs))[k] < FirstRaise(rs, |rs|) && Eligible(s, rs[SavedHits(s, Some(rs))[k]])
    ensures forall k, l :: 0 <= k < l < |SavedHits(s, Some(rs))| ==> SavedHits(s, Some(rs))[k] < SavedHits(s, Some(rs))[l]
    ensures forall i :: 0 <= i < FirstRaise(rs, |rs|) && Eligible(s, rs[i]) && i !in SavedHits(s, Some(rs)) ==>
              |SavedHits(s, Some(rs))| == Quota(s) && forall k :: 0 <= k < Quota(s) ==> SavedHits(s, Some(rs))[k] < i
  {
    var e := EligibleIndices(s, rs, FirstRaise(rs, |rs|));
    var saved := SavedHits(s, Some(rs));
    assert saved == e[..|saved|];
    forall i | 0 <= i < FirstRaise(rs, |rs|) && Eligible(s, rs[i]) && i !in saved
      ensures |saved| == Quota(s) && forall k :: 0 <= k < Quota(s) ==> saved[k] < i
    {
      var p :| 0 <= p < |e| && e[p] == i;
      assert p >= |saved|;
    }
  }

  /** A loop that stops at hit `i` (at the end, at the quota or at a raising hit) without
      having met a raising hit before saved exactly the eligible hits before `i`. */
  lemma SavedHitsWhenStopped(s: Settings, rs: seq<SearchResult>, i: nat)
    requires i <= |rs| && FirstRaise(rs, i) == i
    requires |EligibleIndices(s, rs, i)| <= Quota(s)
    requires i == |rs| || |EligibleIndices(s, rs, i)| == Quota(s) || Raises(rs[i])
    ensures SavedHits(s, Some(rs)) == EligibleIndices(s, rs, i)
  {
    var f := FirstRaise(rs, |rs|);
    assert f >= i;
    EligibleIndicesPrefix(s, rs, i, f);
    var e := EligibleIndices(s, rs, i);
    var all := EligibleIndices(s, rs, f);
    if i < |rs| && Raises(rs[i]) {
      assert f == i;
    }
    if f == i {
      assert all == e;
    } else {
      assert |e| == Quota(s) && e == all[..Quota(s)];
    }
  }

  /** The URL of hit `i`, "" when it has none. */
  function UrlAt(rs: seq<SearchResult>, i: nat): string
  {
    if i < |rs| && rs[i].url.Some? then rs[i].url.value else ""
  }

  /** The URLs of the saved hits, in order. */
  function SavedUrls(rs: seq<SearchResult>, saved: seq<nat>): (r: seq<string>)
    ensures |r| == |saved| && forall k :: 0 <= k < |saved| ==> r[k] == UrlAt(rs, saved[k])
  {
    seq(|saved|, k requires 0 <= k < |saved| => UrlAt(rs, saved[k]))
  }

  /** The body of a reply; nothing for a request that raised. */
  function BodyOf(resp: Response): seq<byte>
  {
    if resp.Reply? then resp.content else []
  }

  /** What the saved hits write: each body at the path numbered by its place among the
      saved hits. */
  function Written(s: Settings, keyword: string, rs: seq<SearchResult>, saved: seq<nat>): map<string, seq<byte>>
  {
    WriteAll((k: nat, u: string) => Destination(s, keyword, k, u), (u: string) => BodyOf(s.fetch(u)),
             SavedUrls(rs, saved))
  }

  /** Saving one more hit writes its body at the next numbered path. */
  lemma WrittenStep(s: Settings, keyword: string, rs: seq<SearchResult>, saved: seq<nat>, i: nat)
    ensures Written(s, keyword, rs, saved + [i])
            == Written(s, keyword, rs, saved)[Destination(s, keyword, |saved|, UrlAt(rs, i)) := BodyOf(s.fetch(UrlAt(rs, i)))]
  {
    var urls := SavedUrls(rs, saved);
    assert SavedUrls(rs, saved + [i]) == urls + [UrlAt(rs, i)];
    WriteAllSnoc((k: nat, u: string) => Destination(s, keyword, k, u), (u: string) => BodyOf(s.fetch(u)),
                 urls, UrlAt(rs, i));
  }

  /** No download of a keyword overwrites another: each saved hit's body is at its own
      path, and nothing else is written. */
  lemma WrittenPaths(s: Settings, keyword: string, rs: seq<SearchResult>, saved: seq<nat>)
    ensures forall k :: 0 <= k < |saved| ==>
              Destination(s, keyword, k, UrlAt(rs, saved[k])) in Written(s, keyword, rs, saved)
              && Written(s, keyword, rs, saved)[Destination(s, keyword, k, UrlAt(rs, saved[k]))]
                 == BodyOf(s.fetch(UrlAt(rs, saved[k])))
    ensures forall path :: path in Written(s, keyword, rs, saved) ==>
              exists k :: 0 <= k < |saved| && path == Destination(s, keyword, k, UrlAt(rs, saved[k]))
  {
    var urls := SavedUrls(rs, saved);
    var name := (k: nat, u: string) => Destination(s, keyword, k, u);
    var body := (u: string) => BodyOf(s.fetch(u));
    forall i, j | 0 <= i < j < |urls|
      ensures name(i, urls[i]) != name(j, urls[j])
    {
      DestinationsDistinct(s.outDir, keyword, i, j, ExtensionFromUrl(urls[i]), ExtensionFromUrl(urls[j]));
    }
    WriteAllPaths(name, body, urls);
  }

  /** The files after the keyword's loop. */
  function KeywordFiles(s: Settings, keyword: string, results: Option<seq<SearchResult>>,
                        files: map<string, seq<byte>>): map<string, seq<byte>>
  {
    match results
    case None => files
    case Some(rs) => files + Written(s, keyword, rs, SavedHits(s, results))
  }

  /** Passing a hit that does not raise moves both the first raise and the list of
      eligible hits on by one place. */
  lemma ScanStep(s: Settings, rs: seq<SearchResult>, i: nat)
    requires i < |rs| && FirstRaise(rs, i) == i && !Raises(rs[i])
    ensures FirstRaise(rs, i + 1) == i + 1
    ensures Eligible(s, rs[i]) ==> EligibleIndices(s, rs, i + 1) == EligibleIndices(s, rs, i) + [i]
    ensures !Eligible(s, rs[i]) ==> EligibleIndices(s, rs, i + 1) == EligibleIndices(s, rs, i)
  {
    assert EligibleIndices(s, rs, i) + [] == EligibleIndices(s, rs, i);
  }

  /** One pass of `for r in results` below the quota on a hit whose dimensions parse:
      a hit with a URL and both minimum sizes is downloaded, and saved when the
      download succeeds. */
  method Visit(store: FileStore, s: Settings, keyword: string, rs: seq<SearchResult>, i: nat, count: nat,
               ghost files0: map<string, seq<byte>>, ghost saved: seq<nat>)
    returns (count': nat, ghost saved': seq<nat>)
    requires i < |rs| && FirstRaise(rs, i) == i && !Raises(rs[i])
    requires saved == EligibleIndices(s, rs, i)
    requires count == |saved| && store.files == files0 + Written(s, keyword, rs, saved)
    modifies store
    ensures FirstRaise(rs, i + 1) == i + 1
    ensures saved' == EligibleIndices(s, rs, i + 1) && count' == |saved'|
    ensures store.files == files0 + Written(s, keyword, rs, saved')
  {
    count', saved' := count, saved;
    var r := rs[i];
    if r.url.Some? && r.url.value != "" && r.width.value >= s.minWidth && r.height.value >= s.minHeight {
      var ok := SaveHit(store, s, keyword, rs, i, count, files0, saved);
      if ok {
        saved' := saved + [i];
        count' := count + 1;
      }
    }
    ScanStep(s, rs, i);
  }

  /** The download of hit `i` once its size has passed: the file is named by the count
      so far, and a success saves the hit. */
  method SaveHit(store: FileStore, s: Settings, keyword: string, rs: seq<SearchResult>, i: nat, count: nat,
                 ghost files0: map<string, seq<byte>>, ghost saved: seq<nat>)
    returns (ok: bool)
    requires i < |rs| && rs[i].url.Some? && rs[i].url.value != "" && rs[i].width.Some? && rs[i].height.Some?
    requires rs[i].width.value >= s.minWidth && rs[i].height.value >= s.minHeight
    requires count == |saved| && store.files == files0 + Written(s, keyword, rs, saved)
    modifies store
    ensures ok == Eligible(s, rs[i])
    ensures store.files == files0 + Written(s, keyword, rs, if ok then saved + [i] else saved)
  {
    var url := rs[i].url.value;
    var dest := Join(s.outDir, FileName(keyword, count, ExtensionFromUrl(url)));
    ok := DownloadImage(store, s.fetch, url, dest);
    if ok {
      WrittenStep(s, keyword, rs, saved, i);
      MergeUpdate(files0, Written(s, keyword, rs, saved), dest, s.fetch(url).content);
    }
  }

  /** The body of `for keyword in keywords` in `fetch_images`: the search, then the
      walk over its results. */
  method FetchKeyword(store: FileStore, s: Settings, keyword: string, results: Option<seq<SearchResult>>)
    returns (count: nat)
    modifies store
    ensures count == |SavedHits(s, results)|
    ensures store.files == KeywordFiles(s, keyword, results, old(store.files))
  {
    if results.None? {
      return 0;
    }
    var rs := results.value;
    ghost var files0 := store.files;
    ghost var saved: seq<nat> := [];
    assert files0 + Written(s, keyword, rs, saved) == files0;
    count := 0;
    var i: nat := 0;
    while i < |rs|
      invariant i <= |rs|
      invariant FirstRaise(rs, i) == i
      invariant saved == EligibleIndices(s, rs, i) && |saved| <= Quota(s)
      invariant count == |saved|
      invariant store.files == files0 + Written(s, keyword, rs, saved)
    {
      if count >= s.numImages {
        break;
      }
      var r := rs[i];
      if r.url.Some? && r.url.value != "" && (r.width.None? || r.height.None?) {
        // `int(..)` raises: the `except` ends this keyword.
        break;
      }
      count, saved := Visit(store, s, keyword, rs, i, count, files0, saved);
      i := i + 1;
    }
    SavedHitsWhenStopped(s, rs, i);
  }

  // ---------------------------------------------------------------------------
  // fetch_images
  // ---------------------------------------------------------------------------

  /** The files after the loops of the given keywords, in order. */
  function FetchKeywords(s: Settings, search: string -> Option<seq<SearchResult>>, keywords: seq<string>,
                         files: map<string, seq<byte>>): map<string, seq<byte>>
    decreases |keywords|
  {
    if |keywords| == 0 then files
    else
      var last := keywords[|keywords| - 1];
      KeywordFiles(s, last, search(last), FetchKeywords(s, search, keywords[..|keywords| - 1], files))
  }

  /** The final `count` of one keyword: the number of its saved hits. */
  function KeywordCount(s: Settings, search: string -> Option<seq<SearchResult>>, keyword: string): nat
  {
    |SavedHits(s, search(keyword))|
  }

  /** The final counts of the given keywords, in order. */
  function KeywordCounts(s: Settings, search: string -> Option<seq<SearchResult>>, keywords: seq<string>)
    : seq<nat>
  {
    MapSeq(keywords, (keyword: string) => KeywordCount(s, search, keyword))
  }

  /** `for keyword in keywords`: each keyword gets its turn, in order; `counts` holds
      each keyword's final `count`. */
  method FetchKeywordList(store: FileStore, s: Settings, search: string -> Option<seq<SearchResult>>,
                          keywords: seq<string>)
    returns (counts: seq<nat>)
    modifies store
    ensures counts == KeywordCounts(s, search, keywords)
    ensures store.files == FetchKeywords(s, search, keywords, old(store.files))
  {
    ghost var files0 := store.files;
    counts := [];
    var i := 0;
    while i < |keywords|
      invariant 0 <= i <= |keywords|
      invariant counts == KeywordCounts(s, search, keywords[..i])
      invariant store.files == FetchKeywords(s, search, keywords[..i], files0)
    {
      var count := FetchKeyword(store, s, keywords[i], search(keywords[i]));
      assert keywords[..i + 1][..i] == keywords[..i];
      counts := counts + [count];
      i := i + 1;
    }
    assert keywords[..i] == keywords;
  }

  /** `fetch_images`: `lines` is None when the keywords file does not exist, which
      raises before anything is written. Otherwise each keyword of the sorted list gets
      its turn; `counts` holds each keyword's final `count`. */
  method FetchAll(store: FileStore, s: Settings, search: string -> Option<seq<SearchResult>>,
                  lines: Option<seq<string>>)
    returns (ok: bool, counts: seq<nat>)
    modifies store
    ensures ok == lines.Some?
    ensures !ok ==> store.files == old(store.files) && counts == []
    ensures ok ==> |counts| == |Keywords(lines.value)|
                   && store.files == FetchKeywords(s, search, Keywords(lines.value), old(store.files))
    ensures ok ==> forall k :: 0 <= k < |counts| ==>
                     counts[k] == |SavedHits(s, search(Keywords(lines.value)[k]))|
  {
    if lines.None? {
      return false, [];
    }
    counts := FetchKeywordList(store, s, search, Keywords(lines.value));
    MapSeqAt(Keywords(lines.value), (keyword: string) => KeywordCount(s, search, keyword));
    ok := true;
  }
}
