/**
  The older image fetcher (offline-scripts/fetch_images.py). It does the same job as
  the front end's fetcher with different rules: the keywords keep their file order
  and their repetitions, the header test comes after the commas are stripped, the
  extension keeps its case, a download needs status 200 and nothing about its
  content type, and the hits' sizes are used as they come.

  The search engine and the HTTP client are oracles as in the front end's model:
  `search` gives a keyword's hits and `s.fetch` the reply to a GET of a URL.
*/
module LegacyFetchImages {
  import opened Text
  import opened Wrappers
  import opened Paths
  import opened Files
  import opened FetchImages
  import opened Lists

  /** One search hit: `r.get('image')`, `r.get('width', 0)` and `r.get('height', 0)`. */
  datatype LegacyResult = LegacyResult(url: Option<string>, width: int, height: int)

  // ---------------------------------------------------------------------------
  // The extension rule inside download_image
  // ---------------------------------------------------------------------------

  /** `url.split('.')[-1].split('?')[0]`, replaced by 'jpg' when it is longer than 4
      characters or not alphanumeric; its case is kept. */
  function LegacyExtension(url: string): string
  {
    var ext := RawExtension(url);
    if |ext| > 4 || !IsAlnum(ext) then "jpg" else ext
  }

  /** The extension is the raw extension itself when that is 1 to 4 alphanumeric
      characters and "jpg" otherwise, so it is always 1 to 4 alphanumeric characters
      without a '.'. */
  lemma LegacyExtensionShape(url: string)
    ensures var raw := RawExtension(url);
            (|raw| <= 4 && IsAlnum(raw) ==> LegacyExtension(url) == raw)
            && (!(|raw| <= 4 && IsAlnum(raw)) ==> LegacyExtension(url) == "jpg")
    ensures var r := LegacyExtension(url);
            |r| <= 4 && IsAlnum(r) && forall i :: 0 <= i < |r| ==> r[i] != '.'
  {
    ExtensionShape(url);
    var r := LegacyExtension(url);
    assert forall i :: 0 <= i < |r| ==> IsAlnumChar(r[i]);
  }

  /** A URL ending in a short alphanumeric extension, possibly followed by a query
      without '.', yields exactly that extension, capitals included. */
  lemma LegacyExtensionOfUrl(base: string, ext: string, query: string)
    requires |ext| <= 4 && IsAlnum(ext)
    requires query == "" || query[0] == '?'
    requires forall i :: 0 <= i < |query| ==> query[i] != '.'
    ensures LegacyExtension(base + "." + ext + query) == ext
  {
    var tail := ext + query;
    assert base + "." + ext + query == base + ['.'] + tail;
    assert forall i :: 0 <= i < |tail| ==> tail[i] != '.' by {
      forall i | 0 <= i < |tail| ensures tail[i] != '.' {
        if i < |ext| {
          assert tail[i] == ext[i] && IsAlnumChar(ext[i]);
        } else {
          assert tail[i] == query[i - |ext|];
        }
      }
    }
    AfterLastOf(base, '.', tail);
    assert forall i :: 0 <= i < |ext| ==> ext[i] != '?' by {
      forall i | 0 <= i < |ext| ensures ext[i] != '?' {
        assert IsAlnumChar(ext[i]);
      }
    }
    BeforeFirstOf(ext, '?', query);
  }

  /** The two fetchers pick the same extension up to case: the front end's is the
      older one lower-cased. */
  lemma ExtensionsAgreeUpToCase(url: string)
    ensures ExtensionFromUrl(url) == Lower(LegacyExtension(url))
  {
    LowerKeepsAlnum(RawExtension(url));
    assert Lower("jpg") == "jpg";
  }

  // ---------------------------------------------------------------------------
  // Keywords
  // ---------------------------------------------------------------------------

  /** `line.strip()` is not empty. */
  predicate NonBlank(line: string)
  {
    Strip(line) != ""
  }

  /** `[line.strip().strip(',') for line in lines if line.strip()]`: in file order,
      repetitions kept. */
  function LegacyKeywords(lines: seq<string>): seq<string>
  {
    FilterMap(lines, NonBlank, KeywordOf)
  }

  /** The list holds exactly the keywords of the non-blank lines. */
  lemma LegacyKeywordsMembers(lines: seq<string>)
    ensures forall k :: k in LegacyKeywords(lines) <==>
              exists i :: 0 <= i < |lines| && NonBlank(lines[i]) && k == KeywordOf(lines[i])
  {
    FilterMapMembers(lines, NonBlank, KeywordOf);
  }

  /** Reading a file in two pieces gives the keywords of the pieces one after the other. */
  lemma LegacyKeywordsAppend(a: seq<string>, b: seq<string>)
    ensures LegacyKeywords(a + b) == LegacyKeywords(a) + LegacyKeywords(b)
  {
    FilterMapAppend(a, b, NonBlank, KeywordOf);
  }

  /** `not keyword or keyword.lower() == 'keyword'` fails: the keyword is searched. */
  predicate Searched(keyword: string)
  {
    keyword != "" && Lower(keyword) != "keyword"
  }

  /** A word whose lower-case form is "keyword" has no comma at either end. */
  lemma HeaderHasNoCommaEnds(t: string)
    requires Lower(t) == "keyword"
    ensures StripCommas(t) == t
  {
    assert Lower(t)[0] == 'k' && Lower(t)[6] == 'd';
    StripByKeeps(t, IsCommaFn());
  }

  /** Both fetchers search the same keywords, counting each once: a keyword that the
      older script searches is in the front end's list, and a non-empty, non-header
      keyword of the front end's list is searched by the older script. */
  lemma SearchedKeywordsAgree(lines: seq<string>)
    ensures forall k :: Searched(k) ==> (k in LegacyKeywords(lines) <==> k in Keywords(lines))
  {
    LegacyKeywordsMembers(lines);
    forall k | Searched(k)
      ensures k in LegacyKeywords(lines) <==> k in Keywords(lines)
    {
      if k in LegacyKeywords(lines) {
        var i :| 0 <= i < |lines| && NonBlank(lines[i]) && k == KeywordOf(lines[i]);
        if Lower(Strip(lines[i])) == "keyword" {
          HeaderHasNoCommaEnds(Strip(lines[i]));
          assert false;
        }
        assert IsKeywordLine(lines[i]);
      }
      if k in Keywords(lines) {
        var i :| 0 <= i < |lines| && IsKeywordLine(lines[i]) && k == KeywordOf(lines[i]);
        assert NonBlank(lines[i]);
      }
    }
  }

  /** Where they part: a `keyword,` header line is kept by the front end as the
      keyword `keyword`, which the older script lists too but then skips. */
  lemma LegacySkipsCommaHeader()
    ensures IsKeywordLine("keyword,") && NonBlank("keyword,")
    ensures KeywordOf("keyword,") == "keyword" && !Searched("keyword")
  {
    HeaderTestPrecedesCommaStrip();
    HeaderWordSkipped();
  }

  /** The word `keyword` itself is never searched. */
  lemma HeaderWordSkipped()
    ensures !Searched("keyword")
  {
    assert Lower("keyword") == "keyword";
  }

  // ---------------------------------------------------------------------------
  // download_image
  // ---------------------------------------------------------------------------

  /** `download_image(url, ..)` succeeds: there is a URL (`requests.get(None)` raises),
      the request does not raise and the status is 200. */
  predicate LegacyDownloads(fetch: string -> Response, url: Option<string>)
  {
    url.Some? && fetch(url.value).Reply? && fetch(url.value).status == 200
  }

  /** `download_image(url, folder, filename)`: on success writes the body at
      `os.path.join(folder, f"{filename}.{ext}")`; otherwise writes nothing. */
  method LegacyDownloadImage(store: FileStore, fetch: string -> Response, url: Option<string>,
                             folder: string, filename: string)
    returns (ok: bool)
    modifies store
    ensures ok == LegacyDownloads(fetch, url)
    ensures ok ==> store.files == old(store.files)[Join(folder, filename + "." + LegacyExtension(url.value))
                                                   := fetch(url.value).content]
    ensures !ok ==> store.files == old(store.files)
  {
    if url.None? {
      return false;
    }
    var resp := fetch(url.value);
    if resp.Reply? && resp.status == 200 {
      var ext := LegacyExtension(url.value);
      store.Write(Join(folder, filename + "." + ext), resp.content);
      return true;
    }
    return false;
  }

  /** Any status but 200 is refused, whatever the content type. */
  lemma LegacyRefusesNon200(fetch: string -> Response, url: string)
    requires fetch(url).Reply? && fetch(url).status != 200
    ensures !LegacyDownloads(fetch, Some(url))
  {
  }

  // ---------------------------------------------------------------------------
  // One keyword's result loop
  // ---------------------------------------------------------------------------

  /** A hit that is downloaded when the loop reaches it below the quota. */
  predicate LegacyEligible(s: Settings, r: LegacyResult)
  {
    r.width >= s.minWidth && r.height >= s.minHeight && LegacyDownloads(s.fetch, r.url)
  }

  /** The indices of the eligible hits among the first `n`: increasing, and holding
      every eligible hit among them. */
  function LegacyEligibleIndices(s: Settings, rs: seq<LegacyResult>, n: nat): (r: seq<nat>)
    requires n <= |rs|
    ensures forall k :: 0 <= k < |r| ==> r[k] < n && LegacyEligible(s, rs[r[k]])
    ensures forall k, l :: 0 <= k < l < |r| ==> r[k] < r[l]
    ensures forall i :: 0 <= i < n && LegacyEligible(s, rs[i]) ==> i in r
    decreases n
  {
    if n == 0 then []
    else LegacyEligibleIndices(s, rs, n - 1) + (if LegacyEligible(s, rs[n - 1]) then [n - 1] else [])
  }

  /** The eligible hits among the first `i` start the list of those among the first `m`. */
  lemma {:induction false} LegacyEligibleIndicesPrefix(s: Settings, rs: seq<LegacyResult>, i: nat, m: nat)
    requires i <= m <= |rs|
    ensures |LegacyEligibleIndices(s, rs, i)| <= |LegacyEligibleIndices(s, rs, m)|
    ensures LegacyEligibleIndices(s, rs, i) == LegacyEligibleIndices(s, rs, m)[..|LegacyEligibleIndices(s, rs, i)|]
    decreases m
  {
    if m > i {
      LegacyEligibleIndicesPrefix(s, rs, i, m - 1);
      var e := LegacyEligibleIndices(s, rs, m - 1);
      assert LegacyEligibleIndices(s, rs, m)[..|e|] == e;
    }
  }

  /** The hits one keyword's loop saves, in order: the first `num_images` eligible ones. */
  function LegacySaved(s: Settings, rs: seq<LegacyResult>): seq<nat>
  {
    Take(LegacyEligibleIndices(s, rs, |rs|), Quota(s))
  }

  /** What the saved hits are: at most `num_images`, each meeting both minimum sizes
      with a successful download, in result order; and an eligible hit is left out
      only when `num_images` earlier hits were saved. */
  lemma LegacySavedAreFirstEligible(s: Settings, rs: seq<LegacyResult>)
    ensures |LegacySaved(s, rs)| <= Quota(s)
    ensures forall k :: 0 <= k < |LegacySaved(s, rs)| ==>
              var r := rs[LegacySaved(s, rs)[k]];
              r.width >= s.minWidth && r.height >= s.minHeight && LegacyDownloads(s.fetch, r.url)
    ensures forall k, l :: 0 <= k < l < |LegacySaved(s, rs)| ==> LegacySaved(s, rs)[k] < LegacySaved(s, rs)[l]
    ensures forall i :: 0 <= i < |rs| && LegacyEligible(s, rs[i]) && i !in LegacySaved(s, rs) ==>
              |LegacySaved(s, rs)| == Quota(s) && forall k :: 0 <= k < Quota(s) ==> LegacySaved(s, rs)[k] < i
  {
    var e := LegacyEligibleIndices(s, rs, |rs|);
    var saved := LegacySaved(s, rs);
    assert saved == e[..|saved|];
    forall k | 0 <= k < |saved|
      ensures LegacyEligible(s, rs[saved[k]])
    {
      assert saved[k] == e[k];
    }
    forall i | 0 <= i < |rs| && LegacyEligible(s, rs[i]) && i !in saved
      ensures |saved| == Quota(s) && forall k :: 0 <= k < Quota(s) ==> saved[k] < i
    {
      var p :| 0 <= p < |e| && e[p] == i;
      assert p >= |saved|;
    }
  }

  /** A loop that stops at hit `i`, at the end or at the quota, has saved the eligible
      hits before `i`. */
  lemma LegacySavedWhenStopped(s: Settings, rs: seq<LegacyResult>, i: nat)
    requires i <= |rs|
    requires |LegacyEligibleIndices(s, rs, i)| <= Quota(s)
    requires i == |rs| || |LegacyEligibleIndices(s, rs, i)| == Quota(s)
    ensures LegacySaved(s, rs) == LegacyEligibleIndices(s, rs, i)
  {
    LegacyEligibleIndicesPrefix(s, rs, i, |rs|);
  }

  /** Passing one hit adds it to the eligible list exactly when it is eligible. */
  lemma LegacyScanStep(s: Settings, rs: seq<LegacyResult>, i: nat)
    requires i < |rs|
    ensures LegacyEligible(s, rs[i]) ==> LegacyEligibleIndices(s, rs, i + 1) == LegacyEligibleIndices(s, rs, i) + [i]
    ensures !LegacyEligible(s, rs[i]) ==> LegacyEligibleIndices(s, rs, i + 1) == LegacyEligibleIndices(s, rs, i)
  {
    assert LegacyEligibleIndices(s, rs, i) + [] == LegacyEligibleIndices(s, rs, i);
  }

  /** The URL of hit `i`, "" when it has none. */
  function LegacyUrlAt(rs: seq<LegacyResult>, i: nat): string
  {
    if i < |rs| && rs[i].url.Some? then rs[i].url.value else ""
  }

  /** The URLs of the saved hits, in order. */
  function LegacySavedUrls(rs: seq<LegacyResult>, saved: seq<nat>): (r: seq<string>)
    ensures |r| == |saved| && forall k :: 0 <= k < |saved| ==> r[k] == LegacyUrlAt(rs, saved[k])
  {
    seq(|saved|, k requires 0 <= k < |saved| => LegacyUrlAt(rs, saved[k]))
  }

  /** `os.path.join(output_dir, f"{filename}.{ext}")` for the download numbered `count`. */
  function LegacyDestination(s: Settings, keyword: string, count: nat, url: string): string
  {
    Join(s.outDir, FileName(keyword, count, LegacyExtension(url)))
  }

  /** What the saved hits write: each body at the path numbered by its place among the
      saved hits. */
  function LegacyWritten(s: Settings, keyword: string, rs: seq<LegacyResult>, saved: seq<nat>)
    : map<string, seq<byte>>
  {
    WriteAll((k: nat, u: string) => LegacyDestination(s, keyword, k, u), (u: string) => BodyOf(s.fetch(u)),
             LegacySavedUrls(rs, saved))
  }

  /** Saving one more hit writes its body at the next numbered path. */
  lemma LegacyWrittenStep(s: Settings, keyword: string, rs: seq<LegacyResult>, saved: seq<nat>, i: nat)
    ensures LegacyWritten(s, keyword, rs, saved + [i])
            == LegacyWritten(s, keyword, rs, saved)[LegacyDestination(s, keyword, |saved|, LegacyUrlAt(rs, i))
                                                    := BodyOf(s.fetch(LegacyUrlAt(rs, i)))]
  {
    var urls := LegacySavedUrls(rs, saved);
    assert LegacySavedUrls(rs, saved + [i]) == urls + [LegacyUrlAt(rs, i)];
    WriteAllSnoc((k: nat, u: string) => LegacyDestination(s, keyword, k, u), (u: string) => BodyOf(s.fetch(u)),
                 urls, LegacyUrlAt(rs, i));
  }

  /** No download of a keyword overwrites another: each saved hit's body is at its own
      path, and nothing else is written. */
  lemma LegacyWrittenPaths(s: Settings, keyword: string, rs: seq<LegacyResult>, saved: seq<nat>)
    ensures forall k :: 0 <= k < |saved| ==>
              LegacyDestination(s, keyword, k, LegacyUrlAt(rs, saved[k])) in LegacyWritten(s, keyword, rs, saved)
              && LegacyWritten(s, keyword, rs, saved)[LegacyDestination(s, keyword, k, LegacyUrlAt(rs, saved[k]))]
                 == BodyOf(s.fetch(LegacyUrlAt(rs, saved[k])))
    ensures forall path :: path in LegacyWritten(s, keyword, rs, saved) ==>
              exists k :: 0 <= k < |saved| && path == LegacyDestination(s, keyword, k, LegacyUrlAt(rs, saved[k]))
  {
    var urls := LegacySavedUrls(rs, saved);
    var name := (k: nat, u: string) => LegacyDestination(s, keyword, k, u);
    var body := (u: string) => BodyOf(s.fetch(u));
    forall i, j | 0 <= i < j < |urls|
      ensures name(i, urls[i]) != name(j, urls[j])
    {
      DestinationsDistinct(s.outDir, keyword, i, j, LegacyExtension(urls[i]), LegacyExtension(urls[j]));
    }
    WriteAllPaths(name, body, urls);
  }

  /** The files after one searched keyword's loop. */
  function LegacyKeywordFiles(s: Settings, keyword: string, rs: seq<LegacyResult>,
                              files: map<string, seq<byte>>): map<string, seq<byte>>
  {
    files + LegacyWritten(s, keyword, rs, LegacySaved(s, rs))
  }

  /** The download of hit `i` once its size has passed: the file is named by the count
      so far, and a success saves the hit. */
  method LegacySaveHit(store: FileStore, s: Settings, keyword: string, rs: seq<LegacyResult>, i: nat,
                       count: nat, ghost files0: map<string, seq<byte>>, ghost saved: seq<nat>)
    returns (ok: bool)
    requires i < |rs| && rs[i].width >= s.minWidth && rs[i].height >= s.minHeight
    requires count == |saved| && store.files == files0 + LegacyWritten(s, keyword, rs, saved)
    modifies store
    ensures ok == LegacyEligible(s, rs[i])
    ensures store.files == files0 + LegacyWritten(s, keyword, rs, if ok then saved + [i] else saved)
  {
    var filename := ImageStem(keyword, count);
    ok := LegacyDownloadImage(store, s.fetch, rs[i].url, s.outDir, filename);
    if ok {
      LegacyWrittenStep(s, keyword, rs, saved, i);
      MergeUpdate(files0, LegacyWritten(s, keyword, rs, saved),
                  LegacyDestination(s, keyword, count, rs[i].url.value), s.fetch(rs[i].url.value).content);
    }
  }

  /** One pass of `for result in results` below the quota: a hit of both minimum sizes
      is downloaded, and saved when the download succeeds. */
  method LegacyVisit(store: FileStore, s: Settings, keyword: string, rs: seq<LegacyResult>, i: nat,
                     count: nat, ghost files0: map<string, seq<byte>>, ghost saved: seq<nat>)
    returns (count': nat, ghost saved': seq<nat>)
    requires i < |rs| && saved == LegacyEligibleIndices(s, rs, i)
    requires count == |saved| && store.files == files0 + LegacyWritten(s, keyword, rs, saved)
    modifies store
    ensures saved' == LegacyEligibleIndices(s, rs, i + 1) && count' == |saved'|
    ensures store.files == files0 + LegacyWritten(s, keyword, rs, saved')
  {
    count', saved' := count, saved;
    var r := rs[i];
    if r.width >= s.minWidth && r.height >= s.minHeight {
      var ok := LegacySaveHit(store, s, keyword, rs, i, count, files0, saved);
      if ok {
        saved' := saved + [i];
        count' := count + 1;
      }
    }
    LegacyScanStep(s, rs, i);
  }

  /** The body of `for keyword in keywords` for a searched keyword: stop at the quota,
      try every hit meeting both minimum sizes, count the successes. */
  method LegacyFetchKeyword(store: FileStore, s: Settings, keyword: string, rs: seq<LegacyResult>)
    returns (count: nat)
    modifies store
    ensures count == |LegacySaved(s, rs)|
    ensures store.files == LegacyKeywordFiles(s, keyword, rs, old(store.files))
  {
    ghost var files0 := store.files;
    ghost var saved: seq<nat> := [];
    assert files0 + LegacyWritten(s, keyword, rs, saved) == files0;
    count := 0;
    var i: nat := 0;
    while i < |rs|
      invariant i <= |rs|
      invariant saved == LegacyEligibleIndices(s, rs, i) && |saved| <= Quota(s)
      invariant count == |saved|
      invariant store.files == files0 + LegacyWritten(s, keyword, rs, saved)
    {
      if count >= s.numImages {
        break;
      }
      count, saved := LegacyVisit(store, s, keyword, rs, i, count, files0, saved);
      i := i + 1;
    }
    LegacySavedWhenStopped(s, rs, i);
  }

  // ---------------------------------------------------------------------------
  // fetch_images
  // ---------------------------------------------------------------------------

  /** The files after one keyword's turn: a skipped keyword changes nothing. */
  function LegacyTurnFiles(s: Settings, search: string -> seq<LegacyResult>, keyword: string,
                           files: map<string, seq<byte>>): map<string, seq<byte>>
  {
    if Searched(keyword) then LegacyKeywordFiles(s, keyword, search(keyword), files) else files
  }

  /** The final `count` of one keyword: its saved hits, or 0 when it is skipped. */
  function LegacyCount(s: Settings, search: string -> seq<LegacyResult>, keyword: string): nat
  {
    if Searched(keyword) then |LegacySaved(s, search(keyword))| else 0
  }

  /** The body of `for keyword in keywords`: skip an empty or header keyword, search
      any other. */
  method LegacyKeywordTurn(store: FileStore, s: Settings, search: string -> seq<LegacyResult>, keyword: string)
    returns (count: nat)
    modifies store
    ensures count == LegacyCount(s, search, keyword)
    ensures store.files == LegacyTurnFiles(s, search, keyword, old(store.files))
  {
    if !Searched(keyword) {
      return 0;
    }
    count := LegacyFetchKeyword(store, s, keyword, search(keyword));
  }

  /** The files after the loops of the given keywords, in order; a keyword that is not
      searched changes nothing. */
  function LegacyFetchKeywords(s: Settings, search: string -> seq<LegacyResult>, keywords: seq<string>,
                               files: map<string, seq<byte>>): map<string, seq<byte>>
    decreases |keywords|
  {
    if |keywords| == 0 then files
    else
      var last := keywords[|keywords| - 1];
      LegacyTurnFiles(s, search, last, LegacyFetchKeywords(s, search, keywords[..|keywords| - 1], files))
  }

  /** The final counts of the given keywords, in order. */
  function LegacyCounts(s: Settings, search: string -> seq<LegacyResult>, keywords: seq<string>): seq<nat>
  {
    MapSeq(keywords, (keyword: string) => LegacyCount(s, search, keyword))
  }

  /** `for keyword in keywords`: each keyword gets its turn, in order, repeats included. */
  method LegacyFetchKeywordList(store: FileStore, s: Settings, search: string -> seq<LegacyResult>,
                                keywords: seq<string>)
    returns (counts: seq<nat>)
    modifies store
    ensures counts == LegacyCounts(s, search, keywords)
    ensures store.files == LegacyFetchKeywords(s, search, keywords, old(store.files))
  {
    ghost var files0 := store.files;
    counts := [];
    var i := 0;
    while i < |keywords|
      invariant 0 <= i <= |keywords|
      invariant counts == LegacyCounts(s, search, keywords[..i])
      invariant store.files == LegacyFetchKeywords(s, search, keywords[..i], files0)
    {
      var count := LegacyKeywordTurn(store, s, search, keywords[i]);
      assert keywords[..i + 1][..i] == keywords[..i];
      counts := counts + [count];
      i := i + 1;
    }
    assert keywords[..i] == keywords;
  }

  /** `fetch_images`: `lines` is None when the keywords file cannot be opened, which
      raises before anything is written. Otherwise every keyword of the list, repeats
      included, gets its turn; `counts` holds each keyword's final `count`, 0 for a
      skipped one. */
  method LegacyFetchAll(store: FileStore, s: Settings, search: string -> seq<LegacyResult>,
                        lines: Option<seq<string>>)
    returns (ok: bool, counts: seq<nat>)
    modifies store
    ensures ok == lines.Some?
    ensures !ok ==> store.files == old(store.files) && counts == []
    ensures ok ==> |counts| == |LegacyKeywords(lines.value)|
                   && store.files == LegacyFetchKeywords(s, search, LegacyKeywords(lines.value), old(store.files))
    ensures ok ==> forall k :: 0 <= k < |counts| ==> counts[k] == LegacyCount(s, search, LegacyKeywords(lines.value)[k])
  {
    if lines.None? {
      return false, [];
    }
    counts := LegacyFetchKeywordList(store, s, search, LegacyKeywords(lines.value));
    MapSeqAt(LegacyKeywords(lines.value), (keyword: string) => LegacyCount(s, search, keyword));
    ok := true;
  }
}
