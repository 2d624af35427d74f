/**
 * `scripts/actions/send-and-update-translation-queue.js`: the stages of the
 * translation-queue submission, each a pure function over sequences.
 *
 * Objects keyed by locale (`listByLocale`, `content`) are association lists
 * in `Object.keys` order. The database, the filesystem and the vendor are
 * parameters: file existence is a predicate, reading and rendering a file is
 * a function of its slug, and the vendor is a function from the request it
 * is sent to the replies of its successive attempts.
 */
module TranslationQueue {
  import opened Base
  import opened Strings
  import opened Sequences
  import opened Grouping
  import opened VendorRequest

  /** A pending row of the translation queue; only these two columns are read. */
  datatype Translation = Translation(locale: string, slug: string)

  /** A page to upload: its path from the project root and its rendered HTML. */
  datatype Page = Page(file: string, html: string)

  /** What `uploadFile` resolves to. */
  datatype UploadOutcome = UploadOutcome(code: Option<string>, locale: string, slug: string)

  const AcceptedCode := "ACCEPTED"
  const InitialStatus := "PENDING"
  const DocsSiteUrl := "https://docs.newrelic.com"
  const ContentRoot := "src/content/"
  const MdxExtension := ".mdx"

  /** `LOCALE_IDS[locale]`: the vendor's locale id, undefined for every locale but `jp`. */
  function VendorLocaleId(locale: string): Option<string> {
    if locale == "jp" then Some("ja-JP") else None
  }

  /** The string field `name` of a vendor `data` object, undefined when absent. */
  function Field(d: Data, name: string): (r: Option<string>)
    ensures r.Some? <==> name in d
    ensures r.Some? ==> r.value == d[name]
  {
    if name in d then Some(d[name]) else None
  }

  // ---------------------------------------------------------------------------
  // Grouping the pending queue by locale (`main`)

  function LocaleOf(t: Translation): string { t.locale }

  function SlugOf(t: Translation): string { t.slug }

  /** The pending requests' slugs grouped by locale: locales in order of first appearance, slugs in queue order. */
  function ListByLocale(pending: seq<Translation>): Groups<string, string> {
    GroupBy(pending, LocaleOf, SlugOf)
  }

  /**
   * Locales appear once each, in order of first appearance, and every
   * pending row's locale is among them.
   */
  lemma {:induction false} ListByLocaleKeys(pending: seq<Translation>)
    ensures Keys(ListByLocale(pending)) == Dedupe(KeysOf(pending, LocaleOf))
    ensures Distinct(Keys(ListByLocale(pending)))
    ensures forall j :: 0 <= j < |pending| ==> pending[j].locale in Keys(ListByLocale(pending))
  {
    GroupByKeys(pending, LocaleOf, SlugOf);
    GroupByPartition(pending, LocaleOf, SlugOf);
  }

  /**
   * Each locale's list is the slugs of the pending rows with that locale, in
   * queue order, and the lists hold as many slugs as there are rows.
   */
  lemma {:induction false} ListByLocaleGroups(pending: seq<Translation>)
    ensures forall i :: 0 <= i < |ListByLocale(pending)| ==>
      ListByLocale(pending)[i].1 == Select(pending, LocaleOf, SlugOf, ListByLocale(pending)[i].0)
    ensures Size(ListByLocale(pending)) == |pending|
  {
    GroupByPartition(pending, LocaleOf, SlugOf);
  }

  // ---------------------------------------------------------------------------
  // Loading content (`getContent`)

  function Files(pages: seq<Page>): (r: seq<string>)
    ensures |r| == |pages|
    ensures forall i :: 0 <= i < |pages| ==> r[i] == pages[i].file
  {
    seq(|pages|, i requires 0 <= i < |pages| => pages[i].file)
  }

  /**
   * One locale's pages: the slugs that still exist, in queue order, each
   * read and rendered. `render` stands for reading the file and
   * serialising its MDX to HTML.
   */
  function LoadPages(slugs: seq<string>, onDisk: string -> bool, render: string -> string): (r: seq<Page>)
    ensures Files(r) == Filter(slugs, onDisk)
    ensures forall i :: 0 <= i < |r| ==> r[i].html == render(r[i].file) && onDisk(r[i].file)
  {
    if |slugs| == 0 then []
    else if onDisk(slugs[0]) then [Page(slugs[0], render(slugs[0]))] + LoadPages(slugs[1..], onDisk, render)
    else LoadPages(slugs[1..], onDisk, render)
  }

  /**
   * `getContent(listByLocale)`: the same locales in the same order, and for
   * each exactly its existing slugs in order; a missing slug is dropped and
   * appears nowhere in the result.
   */
  function GetContent(listByLocale: Groups<string, string>, onDisk: string -> bool, render: string -> string)
    : (r: Groups<string, Page>)
    ensures Keys(r) == Keys(listByLocale)
    ensures forall i :: 0 <= i < |r| ==> Files(r[i].1) == Filter(listByLocale[i].1, onDisk)
    ensures forall i, j :: 0 <= i < |r| && 0 <= j < |r[i].1| ==>
      onDisk(r[i].1[j].file) && r[i].1[j].html == render(r[i].1[j].file)
  {
    seq(|listByLocale|, i requires 0 <= i < |listByLocale| =>
      (listByLocale[i].0, LoadPages(listByLocale[i].1, onDisk, render)))
  }

  /** The page lists of every locale, in locale order, once every promise settled. */
  function PagesOf(content: Groups<string, Page>): (r: seq<seq<Page>>)
    ensures |r| == |content|
    ensures forall i :: 0 <= i < |content| ==> r[i] == content[i].1
  {
    seq(|content|, i requires 0 <= i < |content| => content[i].1)
  }

  // ---------------------------------------------------------------------------
  // Jobs and batches (`sendContentToVendor`, steps 1 and 2)

  function JobsEndpoint(env: Env): string {
    "/jobs-api/v3/projects/" + JsStr(env.project) + "/jobs"
  }

  function BatchesEndpoint(env: Env): string {
    "/job-batches-api/v2/projects/" + JsStr(env.project) + "/batches"
  }

  /** The job name; `now` is the local date and time rendered as text. */
  function JobName(locale: string, now: string): string {
    "Gatsby Translation Queue (" + locale + ") " + now
  }

  /** One create-job request per locale, in locale order, each targeting that locale's vendor id only. */
  function JobRequests(env: Env, locales: seq<string>, accessToken: Option<string>, now: string): (r: seq<Request>)
    ensures |r| == |locales|
    ensures forall i :: 0 <= i < |r| ==>
      && r[i].url == Url(env.apiUrl, JobsEndpoint(env))
      && r[i].options.verb == "POST"
      && r[i].options.body == Some(JsonText(JobBody(JobName(locales[i], now), [VendorLocaleId(locales[i])])))
      && Header(r[i].options.headers, "Authorization") == Some("Bearer " + JsStr(accessToken))
  {
    seq(|locales|, i requires 0 <= i < |locales| =>
      VendorRequestFor(env, "POST", JobsEndpoint(env), accessToken,
                       Some(JobBody(JobName(locales[i], now), [VendorLocaleId(locales[i])])), None))
  }

  /** The job uid of each job reply, in order. */
  function JobUids(responses: seq<Data>): (r: seq<Option<string>>)
    ensures |r| == |responses|
    ensures forall i :: 0 <= i < |r| ==> r[i] == Field(responses[i], "translationJobUid")
  {
    seq(|responses|, i requires 0 <= i < |responses| => Field(responses[i], "translationJobUid"))
  }

  /**
   * One create-batch request per job: batch `i` names job `i` and carries
   * the files of the `i`-th locale's pages in order, unauthorised.
   */
  function BatchRequests(env: Env, accessToken: Option<string>, jobUids: seq<Option<string>>, pages: seq<seq<Page>>)
    : (r: seq<Request>)
    requires |jobUids| == |pages|
    ensures |r| == |jobUids|
    ensures forall i :: 0 <= i < |r| ==>
      && r[i].url == Url(env.apiUrl, BatchesEndpoint(env))
      && r[i].options.body == Some(JsonText(BatchBody(false, jobUids[i], Files(pages[i]))))
      && Header(r[i].options.headers, "Authorization") == Some("Bearer " + JsStr(accessToken))
  {
    seq(|jobUids|, i requires 0 <= i < |jobUids| =>
      VendorRequestFor(env, "POST", BatchesEndpoint(env), accessToken,
                       Some(BatchBody(false, jobUids[i], Files(pages[i]))), None))
  }

  /** A job/batch row as `addJob` writes it: job uid, batch uid, status. */
  datatype JobRecord = JobRecord(jobUid: Option<string>, batchUid: Option<string>, status: string)

  /** The `addJob` calls after batch creation: one PENDING record per batch reply, in order. */
  function JobRecords(batchResponses: seq<Data>): (r: seq<JobRecord>)
    ensures |r| == |batchResponses|
    ensures forall i :: 0 <= i < |r| ==>
      r[i] == JobRecord(Field(batchResponses[i], "job_uid"), Field(batchResponses[i], "batch_uid"), InitialStatus)
  {
    seq(|batchResponses|, i requires 0 <= i < |batchResponses| =>
      JobRecord(Field(batchResponses[i], "job_uid"), Field(batchResponses[i], "batch_uid"), InitialStatus))
  }

  /** The `batchUid` field of each batch reply, as written: a field the reply does not carry. */
  function BatchUidsAsWritten(batchResponses: seq<Data>): (r: seq<Option<string>>)
    ensures |r| == |batchResponses|
    ensures forall i :: 0 <= i < |r| ==> r[i] == Field(batchResponses[i], "batchUid")
  {
    seq(|batchResponses|, i requires 0 <= i < |batchResponses| => Field(batchResponses[i], "batchUid"))
  }

  /** The vendor's reply to create-batch carries `job_uid` and `batch_uid` only. */
  predicate BatchReplyShape(d: Data) {
    d.Keys <= {"job_uid", "batch_uid"}
  }

  /** As written, every batch uid handed to the uploads is undefined. */
  lemma BatchUidsAsWrittenUndefined(batchResponses: seq<Data>)
    requires forall i :: 0 <= i < |batchResponses| ==> BatchReplyShape(batchResponses[i])
    ensures forall i :: 0 <= i < |batchResponses| ==> BatchUidsAsWritten(batchResponses)[i] == None
  {
  }

  /** Batch uids read from the field the reply does carry, the one `addJob` is given. */
  function BatchUids(batchResponses: seq<Data>): (r: seq<Option<string>>)
    ensures |r| == |batchResponses|
    ensures forall i :: 0 <= i < |r| ==> r[i] == JobRecords(batchResponses)[i].batchUid
    ensures forall i :: 0 <= i < |r| ==> (r[i].Some? <==> "batch_uid" in batchResponses[i])
    ensures forall i :: 0 <= i < |r| && r[i].Some? ==> r[i].value == batchResponses[i]["batch_uid"]
  {
    seq(|batchResponses|, i requires 0 <= i < |batchResponses| => Field(batchResponses[i], "batch_uid"))
  }

  // ---------------------------------------------------------------------------
  // Upload fan-out (`sendContentToVendor`, step 3)

  /** One call `uploadFile(locale, batchUid, accessToken)(page)`. */
  datatype UploadTask = UploadTask(locale: string, batchUid: Option<string>, page: Page)

  function TotalPages(pages: seq<seq<Page>>): nat {
    if |pages| == 0 then 0 else |pages[0]| + TotalPages(pages[1..])
  }

  function TasksFor(locale: string, batchUid: Option<string>, ps: seq<Page>): (r: seq<UploadTask>)
    ensures |r| == |ps|
    ensures forall j :: 0 <= j < |ps| ==> r[j] == UploadTask(locale, batchUid, ps[j])
  {
    seq(|ps|, j requires 0 <= j < |ps| => UploadTask(locale, batchUid, ps[j]))
  }

  /**
   * The upload fan-out: the locales' page lists flattened in locale order,
   * one upload per page, each tagged with its own locale and batch.
   */
  function UploadPlan(keys: seq<string>, batchUids: seq<Option<string>>, pages: seq<seq<Page>>): (r: seq<UploadTask>)
    requires |keys| == |batchUids| == |pages|
    ensures |r| == TotalPages(pages)
    ensures forall k :: 0 <= k < |r| ==> r[k].locale in keys && r[k].batchUid in batchUids
  {
    if |batchUids| == 0 then []
    else TasksFor(keys[0], batchUids[0], pages[0]) + UploadPlan(keys[1..], batchUids[1..], pages[1..])
  }

  /** The upload for page `j` of locale `i` sits at offset `TotalPages(pages[..i]) + j` and uses `keys[i]` and `batchUids[i]`. */
  lemma {:induction false} UploadPlanIndex(keys: seq<string>, batchUids: seq<Option<string>>, pages: seq<seq<Page>>,
                                           i: nat, j: nat)
    requires |keys| == |batchUids| == |pages|
    requires i < |pages| && j < |pages[i]|
    ensures TotalPages(pages[..i]) + j < |UploadPlan(keys, batchUids, pages)|
    ensures UploadPlan(keys, batchUids, pages)[TotalPages(pages[..i]) + j] == UploadTask(keys[i], batchUids[i], pages[i][j])
    decreases i
  {
    if i == 0 {
      assert pages[..0] == [];
    } else {
      UploadPlanIndex(keys[1..], batchUids[1..], pages[1..], i - 1, j);
      assert pages[..i][1..] == pages[1..][..i - 1];
      assert pages[..i][0] == pages[0];
    }
  }

  // ---------------------------------------------------------------------------
  // One upload (`uploadFile`) and its context (`sendPageContext`)

  /** `resp.ok`. */
  predicate StatusOk(status: int) {
    200 <= status <= 299
  }

  /** The temporary file name: the base64 of `locale + page.file`, plus `.html`. */
  function UploadFileName(locale: string, file: string, base64: string -> string): string {
    base64(locale + file) + ".html"
  }

  /**
   * Concatenation without a separator is unambiguous here: when no locale
   * holds a `/` and both files start with `src/content/`, different
   * (locale, file) pairs concatenate to different strings.
   */
  lemma LocaleFileConcatOrdered(l1: string, f1: string, l2: string, f2: string)
    requires |l1| <= |l2|
    requires '/' !in l1 && '/' !in l2
    requires StartsWith(f1, ContentRoot) && StartsWith(f2, ContentRoot)
    requires l1 != l2 || f1 != f2
    ensures l1 + f1 != l2 + f2
  {
    var s1, s2 := l1 + f1, l2 + f2;
    assert f1[..|ContentRoot|] == ContentRoot && f2[..|ContentRoot|] == ContentRoot;
    assert f1[0] == 's' && f1[1] == 'r' && f1[2] == 'c' && f1[3] == '/' by {
      assert f1[..4] == f1[..|ContentRoot|][..4];
    }
    assert f2[0] == 's' by {
      assert f2[0] == f2[..|ContentRoot|][0];
    }
    if |l1| == |l2| {
      assert s1[..|l1|] == l1 && s2[..|l2|] == l2;
      assert s1[|l1|..] == f1 && s2[|l2|..] == f2;
    } else {
      var d := |l2| - |l1|;
      if d <= 3 {
        assert s2[|l2|] == f2[0];
        assert s1[|l2|] == f1[d];
        assert s1[|l2|] != s2[|l2|];
      } else {
        assert s2[|l1| + 3] == l2[|l1| + 3];
        assert s1[|l1| + 3] == f1[3];
        assert s1[|l1| + 3] != s2[|l1| + 3];
      }
    }
  }

  /** Every upload of the plan carries one of the pages it was given. */
  lemma {:induction false} UploadPlanPages(keys: seq<string>, batchUids: seq<Option<string>>, pages: seq<seq<Page>>,
                                           ok: Page -> bool)
    requires |keys| == |batchUids| == |pages|
    requires forall i, p :: 0 <= i < |pages| && p in pages[i] ==> ok(p)
    ensures forall k :: 0 <= k < |UploadPlan(keys, batchUids, pages)| ==> ok(UploadPlan(keys, batchUids, pages)[k].page)
    decreases |pages|
  {
    if |pages| > 0 {
      UploadPlanPages(keys[1..], batchUids[1..], pages[1..], ok);
      var head := TasksFor(keys[0], batchUids[0], pages[0]);
      var plan := UploadPlan(keys, batchUids, pages);
      assert plan == head + UploadPlan(keys[1..], batchUids[1..], pages[1..]);
      forall k | 0 <= k < |plan| ensures ok(plan[k].page) {
        if k < |head| {
          assert plan[k].page == pages[0][k];
        } else {
          assert plan[k] == UploadPlan(keys[1..], batchUids[1..], pages[1..])[k - |head|];
        }
      }
    }
  }

  /** Two uploads of the same file for the same locale. */
  predicate SameTarget(t: UploadTask, u: UploadTask) {
    t.locale == u.locale && t.page.file == u.page.file
  }

  /**
   * Within a run, two uploads for different (locale, file) pairs write
   * different temporary files, given an injective encoding, locale codes
   * without `/` and files under `src/content/`.
   */
  lemma UploadFileNamesDistinct(keys: seq<string>, batchUids: seq<Option<string>>, pages: seq<seq<Page>>,
                                base64: string -> string)
    requires |keys| == |batchUids| == |pages|
    requires forall a, b :: base64(a) == base64(b) ==> a == b
    requires forall l :: l in keys ==> '/' !in l
    requires forall i, p :: 0 <= i < |pages| && p in pages[i] ==> StartsWith(p.file, ContentRoot)
    ensures var plan := UploadPlan(keys, batchUids, pages);
      forall a, b :: 0 <= a < |plan| && 0 <= b < |plan| && !SameTarget(plan[a], plan[b]) ==>
        UploadFileName(plan[a].locale, plan[a].page.file, base64) != UploadFileName(plan[b].locale, plan[b].page.file, base64)
  {
    var plan := UploadPlan(keys, batchUids, pages);
    UploadPlanPages(keys, batchUids, pages, (p: Page) => StartsWith(p.file, ContentRoot));
    forall a, b | 0 <= a < |plan| && 0 <= b < |plan| && !SameTarget(plan[a], plan[b])
      ensures UploadFileName(plan[a].locale, plan[a].page.file, base64) != UploadFileName(plan[b].locale, plan[b].page.file, base64)
    {
      var l1, f1, l2, f2 := plan[a].locale, plan[a].page.file, plan[b].locale, plan[b].page.file;
      if |l1| <= |l2| {
        LocaleFileConcatOrdered(l1, f1, l2, f2);
      } else {
        LocaleFileConcatOrdered(l2, f2, l1, f1);
      }
      var n1, n2 := UploadFileName(l1, f1, base64), UploadFileName(l2, f2, base64);
      assert n1[..|n1| - 5] == base64(l1 + f1);
      assert n2[..|n2| - 5] == base64(l2 + f2);
    }
  }

  /** The path `uploadFile` posts a page to: the file endpoint of the batch. */
  function UploadEndpoint(env: Env, batchUid: Option<string>): string {
    "/job-batches-api/v2/projects/" + JsStr(env.project) + "/batches/" + JsStr(batchUid) + "/file"
  }

  /** The upload path opens with the project's batches. */
  lemma UploadEndpointPrefix(env: Env, batchUid: Option<string>)
    ensures StartsWith(UploadEndpoint(env, batchUid), "/job-batches-api/v2/projects/" + JsStr(env.project) + "/batches/")
  {
    var pre := "/job-batches-api/v2/projects/" + JsStr(env.project) + "/batches/";
    assert UploadEndpoint(env, batchUid) == pre + (JsStr(batchUid) + "/file");
  }

  /** The upload path ends in the batch uid followed by `/file`. */
  lemma UploadEndpointSuffix(env: Env, batchUid: Option<string>)
    ensures EndsWith(UploadEndpoint(env, batchUid), "/batches/" + JsStr(batchUid) + "/file")
  {
    var project := "/job-batches-api/v2/projects/" + JsStr(env.project);
    assert UploadEndpoint(env, batchUid) == project + ("/batches/" + JsStr(batchUid) + "/file");
  }

  /** An undefined batch uid gives an upload path ending in `/batches/undefined/file`. */
  lemma UndefinedBatchEndpoint(env: Env)
    ensures EndsWith(UploadEndpoint(env, None), "/batches/undefined/file")
  {
    var project := "/job-batches-api/v2/projects/" + JsStr(env.project);
    assert UploadEndpoint(env, None) == project + "/batches/undefined/file";
  }

  /**
   * Within one project the upload path determines the batch uid as
   * rendered: uploads to different batch uids never share a path (an
   * undefined uid and the uid `"undefined"` render alike).
   */
  lemma UploadEndpointDeterminesBatch(env: Env, a: Option<string>, b: Option<string>)
    requires UploadEndpoint(env, a) == UploadEndpoint(env, b)
    ensures JsStr(a) == JsStr(b)
  {
    var pre := "/job-batches-api/v2/projects/" + JsStr(env.project) + "/batches/";
    var ea, eb := UploadEndpoint(env, a), UploadEndpoint(env, b);
    assert ea == pre + JsStr(a) + "/file";
    assert eb == pre + JsStr(b) + "/file";
    assert JsStr(a) == ea[|pre|..|ea| - 5];
    assert JsStr(b) == eb[|pre|..|eb| - 5];
  }

  /**
   * As written, every planned upload posts to `/batches/undefined/file`:
   * the batch uids read from the replies' `batchUid` are all undefined.
   */
  lemma AsWrittenUploadsPostToUndefined(env: Env, keys: seq<string>, batchResponses: seq<Data>,
                                        pages: seq<seq<Page>>, k: nat)
    requires |keys| == |batchResponses| == |pages|
    requires forall i :: 0 <= i < |batchResponses| ==> BatchReplyShape(batchResponses[i])
    requires k < TotalPages(pages)
    ensures var plan := UploadPlan(keys, BatchUidsAsWritten(batchResponses), pages);
      EndsWith(UploadEndpoint(env, plan[k].batchUid), "/batches/undefined/file")
  {
    var uids := BatchUidsAsWritten(batchResponses);
    BatchUidsAsWrittenUndefined(batchResponses);
    var t := UploadPlan(keys, uids, pages)[k];
    assert t.batchUid in uids;
    assert t.batchUid == None;
    UndefinedBatchEndpoint(env);
  }

  /**
   * The public page a source file is published at: `fileUri` with the
   * first `src/content/` removed, then the first `.mdx` removed.
   */
  function ContextSlug(fileUri: string): string {
    ReplaceFirst(ReplaceFirst(fileUri, ContentRoot, ""), MdxExtension, "")
  }

  /** The slug resolved against the public docs site. */
  function ContextUrl(fileUri: string): Url {
    Url(Some(DocsSiteUrl), ContextSlug(fileUri))
  }

  lemma {:induction false} NoMdxStraddle(m: string)
    requires forall j :: !OccursAt(m, MdxExtension, j)
    ensures forall j :: 0 <= j < |m| ==> !OccursAt(m + MdxExtension, MdxExtension, j)
  {
    var s := m + MdxExtension;
    forall j | 0 <= j < |m|
      ensures !OccursAt(s, MdxExtension, j)
    {
      if j + 4 <= |m| {
        assert s[j..j + 4] == m[j..j + 4];
        assert !OccursAt(m, MdxExtension, j);
      } else {
        var k := |m| - j;
        assert 1 <= k <= 3;
        assert s[j..j + 4][k] == s[|m|] == '.';
        assert MdxExtension[k] != '.';
        assert s[j..j + 4] != MdxExtension;
      }
    }
  }

  /**
   * For a file under `src/content/` ending in `.mdx`, the context slug is
   * the path between the two, provided that path holds no other `.mdx`.
   */
  lemma {:induction false} ContextSlugOfContentFile(m: string)
    requires !Includes(m, MdxExtension)
    ensures ContextSlug(ContentRoot + m + MdxExtension) == m
  {
    IncludesIffOccurs(m, MdxExtension);
    var s := ContentRoot + m + MdxExtension;
    assert StartsWith(s, ContentRoot);
    RemoveLeading(s, ContentRoot);
    assert s[|ContentRoot|..] == m + MdxExtension;
    NoMdxStraddle(m);
    assert OccursAt(m + MdxExtension, MdxExtension, |m|);
    assert (m + MdxExtension)[..|m|] == m;
  }

  /** The page URL of a content file is the docs site with the path between `src/content/` and `.mdx`. */
  lemma ContextUrlOfContentFile(m: string)
    requires !Includes(m, MdxExtension)
    ensures ContextUrl(ContentRoot + m + MdxExtension) == Url(Some(DocsSiteUrl), m)
  {
    ContextSlugOfContentFile(m);
  }

  /** The public site: the HTML a fetch of a URL reads, or `None` when the fetch rejects. */
  type Site = Url -> Option<string>

  /** The context form: the page's HTML, filed under the source path and named by the page's URL. */
  datatype ContextUpload = ContextUpload(name: Url, fileName: string, html: string)

  /** Failures of `sendPageContext` that reject its promise. */
  datatype ContextError = PageFetchFailed | ContextNetworkFailure | ContextMalformedBody

  /** What one `sendPageContext` call did: the context it sent, if it got that far, and how it settled. */
  datatype ContextRun = ContextRun(sent: Option<ContextUpload>, result: Result<bool, ContextError>)

  /**
   * `sendPageContext(fileUri, accessToken)`: fetches the public page of the
   * file from `site`, uploads its HTML as a context named by the page's URL,
   * and resolves once the upload replies; whether the vendor reported
   * success (`SUCCESS` with an ok status) is only logged.
   */
  function SendPageContext(fileUri: string, site: Site, reply: HttpOutcome): (r: ContextRun)
    ensures r.sent.Some? <==> site(ContextUrl(fileUri)).Some?
    ensures r.sent.Some? ==> r.sent.value == ContextUpload(ContextUrl(fileUri), fileUri, site(ContextUrl(fileUri)).value)
    ensures r.result.Ok? <==> r.sent.Some? && reply.Response? && reply.body.Some?
    ensures r.result.Ok? ==> (r.result.value <==> reply.body.value.code == Some(SuccessCode) && StatusOk(reply.status))
  {
    var page := ContextUrl(fileUri);
    match site(page)
    case None => ContextRun(None, Err(PageFetchFailed))
    case Some(html) =>
      var sent := Some(ContextUpload(page, fileUri, html));
      match reply
      case NetworkError => ContextRun(sent, Err(ContextNetworkFailure))
      case Response(_, None) => ContextRun(sent, Err(ContextMalformedBody))
      case Response(status, Some(env)) => ContextRun(sent, Ok(env.code == Some(SuccessCode) && StatusOk(status)))
  }

  /** Failures that reject the promise of `uploadFile`. */
  datatype UploadError = TempFileFailed | UploadNetworkFailure | UploadMalformedBody | ContextFailed(cause: ContextError)

  /** What one `uploadFile` call did: its settled result, and the context upload it went on to, if any. */
  datatype UploadRun = UploadRun(result: Result<UploadOutcome, UploadError>, context: Option<ContextRun>)

  /** The upload reply is an accepted one with an ok HTTP status. */
  predicate Accepted(reply: HttpOutcome) {
    reply.Response? && reply.body.Some? && reply.body.value.code == Some(AcceptedCode) && StatusOk(reply.status)
  }

  /**
   * `uploadFile(locale, batchUid, accessToken)(page)`: it writes the page's
   * HTML to a temporary file and streams it back into the form (`written`
   * says whether both succeed; a failure of either rejects the upload before
   * or during the fetch), then resolves to `{code, locale, slug: page.file}`
   * with the vendor's code, whatever that code is; the context of
   * `page.file` is uploaded only after an accepted reply with an ok status,
   * and its reported outcome never changes the result.
   */
  function UploadFile(locale: string, page: Page, written: bool, reply: HttpOutcome, site: Site, contextReply: HttpOutcome)
    : (r: UploadRun)
    ensures !written ==> r == UploadRun(Err(TempFileFailed), None)
    ensures r.context.Some? <==> written && Accepted(reply)
    ensures r.context.Some? ==> r.context.value == SendPageContext(page.file, site, contextReply)
    ensures r.result.Ok? <==>
      && written && reply.Response? && reply.body.Some?
      && (Accepted(reply) ==> SendPageContext(page.file, site, contextReply).result.Ok?)
    ensures r.result.Ok? ==> r.result.value == UploadOutcome(reply.body.value.code, locale, page.file)
    ensures r.result.Err? && written && Accepted(reply) ==>
      r.result == Err(ContextFailed(SendPageContext(page.file, site, contextReply).result.error))
  {
    if !written then UploadRun(Err(TempFileFailed), None)
    else match reply
      case NetworkError => UploadRun(Err(UploadNetworkFailure), None)
      case Response(_, None) => UploadRun(Err(UploadMalformedBody), None)
      case Response(status, Some(env)) =>
        var outcome := UploadOutcome(env.code, locale, page.file);
        if env.code == Some(AcceptedCode) && StatusOk(status) then
          var context := SendPageContext(page.file, site, contextReply);
          match context.result
          case Err(e) => UploadRun(Err(ContextFailed(e)), Some(context))
          case Ok(_) => UploadRun(Ok(outcome), Some(context))
        else UploadRun(Ok(outcome), None)
  }

  /** Two context uploads that both settle, whatever they report, leave the upload's result the same. */
  lemma ContextNeverChangesCode(locale: string, page: Page, written: bool, reply: HttpOutcome,
                                s1: Site, c1: HttpOutcome, s2: Site, c2: HttpOutcome)
    requires SendPageContext(page.file, s1, c1).result.Ok? && SendPageContext(page.file, s2, c2).result.Ok?
    ensures UploadFile(locale, page, written, reply, s1, c1).result == UploadFile(locale, page, written, reply, s2, c2).result
  {
  }

  // ---------------------------------------------------------------------------
  // Outcomes and exit code

  predicate IsAccepted(o: UploadOutcome) { o.code == Some(AcceptedCode) }

  predicate IsFailed(o: UploadOutcome) { o.code != Some(AcceptedCode) }

  predicate AllAccepted(rs: seq<UploadOutcome>) {
    forall i :: 0 <= i < |rs| ==> IsAccepted(rs[i])
  }

  /** The upload outcomes whose code is `ACCEPTED`, in order. */
  function SuccessfulUploads(rs: seq<UploadOutcome>): seq<UploadOutcome> {
    Filter(rs, IsAccepted)
  }

  /** The upload outcomes whose code is anything but `ACCEPTED`, in order. */
  function FailedUploads(rs: seq<UploadOutcome>): seq<UploadOutcome> {
    Filter(rs, IsFailed)
  }

  /** Successful and failed uploads partition the responses. */
  lemma {:induction false} UploadsPartition(rs: seq<UploadOutcome>)
    ensures multiset(SuccessfulUploads(rs)) + multiset(FailedUploads(rs)) == multiset(rs)
    ensures |SuccessfulUploads(rs)| + |FailedUploads(rs)| == |rs|
    decreases |rs|
  {
    if |rs| > 0 {
      UploadsPartition(rs[1..]);
      assert rs == [rs[0]] + rs[1..];
    }
  }

  /**
   * The process exit code of `main`: 1 when anything was thrown inside the
   * `try`, otherwise 1 exactly when some upload failed.
   */
  function ExitCode<E>(run: Result<seq<UploadOutcome>, E>): (code: int)
    ensures code == 0 || code == 1
    ensures code == 0 <==> run.Ok? && AllAccepted(run.value)
  {
    match run
    case Err(_) => 1
    case Ok(rs) =>
      var failed := FailedUploads(rs);
      assert |failed| > 0 ==> failed[0] in rs && IsFailed(failed[0]);
      assert forall i :: 0 <= i < |rs| && IsFailed(rs[i]) ==> rs[i] in failed;
      if |failed| > 0 then 1 else 0
  }

  // ---------------------------------------------------------------------------
  // The whole run of `main`

  /**
   * What one upload meets: whether its temporary file is written and read
   * back, the upload reply and the context upload reply.
   */
  type UploadReplies = UploadTask -> (bool, HttpOutcome, HttpOutcome)

  datatype RunError =
    | TokenFailed(tokenError: TokenError)
    | CallFailed(requestError: RequestError)
    | NoReplyData
    | JobRecordsUndefined
    | UploadFailed(uploadError: UploadError)

  /** Request `i` is the first, in list order, whose `vendorRequest` rejects. */
  predicate FirstFailing(requests: seq<Request>, vendor: Vendor, i: int) {
    && 0 <= i < |requests|
    && MakeRequest(vendor(requests[i])).Err?
    && forall j :: 0 <= j < i ==> MakeRequest(vendor(requests[j])).Ok?
  }

  /**
   * `Promise.all` over `vendorRequest` for each request: the resolved value
   * of every request, or the failure of the first one that rejects.
   */
  function AwaitAll(requests: seq<Request>, vendor: Vendor): (r: Result<seq<Option<Data>>, RunError>)
    ensures r.Ok? <==> forall i :: 0 <= i < |requests| ==> MakeRequest(vendor(requests[i])).Ok?
    ensures r.Ok? ==> |r.value| == |requests|
    ensures r.Ok? ==> forall i :: 0 <= i < |requests| ==> r.value[i] == MakeRequest(vendor(requests[i])).value
    ensures forall i :: FirstFailing(requests, vendor, i) ==> r == Err(CallFailed(MakeRequest(vendor(requests[i])).error))
  {
    if |requests| == 0 then Ok([])
    else match MakeRequest(vendor(requests[0]))
      case Err(e) => Err(CallFailed(e))
      case Ok(d) =>
        var rest := AwaitAll(requests[1..], vendor);
        assert forall i :: FirstFailing(requests, vendor, i) ==> i > 0 && FirstFailing(requests[1..], vendor, i - 1);
        match rest
        case Err(e) => Err(e)
        case Ok(ds) => Ok([d] + ds)
  }

  /** Reading a field of every resolved value, in order: a value without data throws. */
  function ReadAll(replies: seq<Option<Data>>): (r: Result<seq<Data>, RunError>)
    ensures r.Ok? <==> forall i :: 0 <= i < |replies| ==> replies[i].Some?
    ensures r.Err? ==> r == Err(NoReplyData)
    ensures r.Ok? ==> |r.value| == |replies| && forall i :: 0 <= i < |replies| ==> r.value[i] == replies[i].value
  {
    if |replies| == 0 then Ok([])
    else match replies[0]
      case None => Err(NoReplyData)
      case Some(d) =>
        match ReadAll(replies[1..])
        case Err(e) => Err(e)
        case Ok(ds) => Ok([d] + ds)
  }

  /**
   * The requests awaited together, then a field read from every reply: the
   * data of every reply; otherwise the first rejection, or, when every
   * request resolved, the error of reading a field of a missing `data`.
   */
  function SendAll(requests: seq<Request>, vendor: Vendor): (r: Result<seq<Data>, RunError>)
    ensures r.Ok? <==> forall i :: 0 <= i < |requests| ==>
      MakeRequest(vendor(requests[i])).Ok? && MakeRequest(vendor(requests[i])).value.Some?
    ensures r.Ok? ==> |r.value| == |requests|
    ensures r.Ok? ==> forall i :: 0 <= i < |requests| ==> r.value[i] == MakeRequest(vendor(requests[i])).value.value
    ensures forall i :: FirstFailing(requests, vendor, i) ==> r == Err(CallFailed(MakeRequest(vendor(requests[i])).error))
    ensures r == Err(NoReplyData) <==>
      && (forall i :: 0 <= i < |requests| ==> MakeRequest(vendor(requests[i])).Ok?)
      && (exists i :: 0 <= i < |requests| && MakeRequest(vendor(requests[i])).value.None?)
    ensures r.Err? && r != Err(NoReplyData) ==> exists i :: FirstFailing(requests, vendor, i)
  {
    match AwaitAll(requests, vendor)
    case Err(e) =>
      assert exists i :: FirstFailing(requests, vendor, i) by {
        var i :| 0 <= i < |requests| && MakeRequest(vendor(requests[i])).Err?;
        FirstFailingExists(requests, vendor, i);
      }
      Err(e)
    case Ok(replies) => ReadAll(replies)
  }

  /** When some request rejects, a first one does. */
  lemma {:induction false} FirstFailingExists(requests: seq<Request>, vendor: Vendor, i: int)
    requires 0 <= i < |requests| && MakeRequest(vendor(requests[i])).Err?
    ensures exists k :: FirstFailing(requests, vendor, k)
    decreases i
  {
    if !FirstFailing(requests, vendor, i) {
      var j :| 0 <= j < i && MakeRequest(vendor(requests[j])).Err?;
      FirstFailingExists(requests, vendor, j);
    }
  }

  /** Every upload, awaited together: each one's outcome, or the first failure. */
  function UploadAll(tasks: seq<UploadTask>, site: Site, replies: UploadReplies): (r: Result<seq<UploadOutcome>, RunError>)
    ensures r.Ok? <==> forall i :: 0 <= i < |tasks| ==> RunUpload(tasks[i], site, replies).result.Ok?
    ensures r.Ok? ==> |r.value| == |tasks|
    ensures r.Ok? ==> forall i :: 0 <= i < |tasks| ==>
      r.value[i] == RunUpload(tasks[i], site, replies).result.value
  {
    if |tasks| == 0 then Ok([])
    else match RunUpload(tasks[0], site, replies).result
      case Err(e) => Err(UploadFailed(e))
      case Ok(o) =>
        match UploadAll(tasks[1..], site, replies)
        case Err(e) => Err(e)
        case Ok(os) => Ok([o] + os)
  }

  function RunUpload(t: UploadTask, site: Site, replies: UploadReplies): UploadRun {
    var (written, reply, contextReply) := replies(t);
    UploadFile(t.locale, t.page, written, reply, site, contextReply)
  }

  /** The inputs of one run: the queue, the filesystem, the clock, the vendor and the public site. */
  datatype World = World(
    env: Env,
    pending: seq<Translation>,
    onDisk: string -> bool,
    render: string -> string,
    now: string,
    vendor: Vendor,
    uploads: UploadReplies,
    site: Site)

  /** What the run reaches once the jobs and batches exist: the content, the batch replies, the token. */
  datatype Staged = Staged(content: Groups<string, Page>, batchData: seq<Data>, accessToken: Option<string>)

  /**
   * With the token granted, the staging outcome: the jobs requests fail with
   * their error; otherwise the batch requests, built from the created job
   * uids and the content's pages, fail with theirs; otherwise the staged
   * content, the batch replies in locale order, and the token.
   */
  predicate StagedWith(w: World, token: Option<string>, r: Result<Staged, RunError>) {
    var content := GetContent(ListByLocale(w.pending), w.onDisk, w.render);
    var jobs := SendAll(JobRequests(w.env, Keys(content), token, w.now), w.vendor);
    && (jobs.Err? ==> r == Err(jobs.error))
    && (jobs.Ok? ==>
          var batches := SendAll(BatchRequests(w.env, token, JobUids(jobs.value), PagesOf(content)), w.vendor);
          && (batches.Err? ==> r == Err(batches.error))
          && (batches.Ok? ==> r == Ok(Staged(content, batches.value, token))))
  }

  /**
   * The `try` block of `main` up to the `addJob` loop: token, jobs,
   * batches. Both the as-written and the corrected run share it.
   */
  function StageBatches(w: World): (r: Result<Staged, RunError>)
    ensures r.Ok? ==> Keys(r.value.content) == Keys(ListByLocale(w.pending))
    ensures r.Ok? ==> |r.value.batchData| == |r.value.content|
    ensures r.Ok? ==> r.value.content == GetContent(ListByLocale(w.pending), w.onDisk, w.render)
    ensures GetAccessToken(w.env, w.vendor).Err? ==> r == Err(TokenFailed(GetAccessToken(w.env, w.vendor).error))
    ensures GetAccessToken(w.env, w.vendor).Ok? ==> StagedWith(w, GetAccessToken(w.env, w.vendor).value, r)
  {
    var content := GetContent(ListByLocale(w.pending), w.onDisk, w.render);
    match GetAccessToken(w.env, w.vendor)
    case Err(e) => Err(TokenFailed(e))
    case Ok(token) =>
      var keys := Keys(content);
      match SendAll(JobRequests(w.env, keys, token, w.now), w.vendor)
      case Err(e) => Err(e)
      case Ok(jobs) =>
        match SendAll(BatchRequests(w.env, token, JobUids(jobs), PagesOf(content)), w.vendor)
        case Err(e) => Err(e)
        case Ok(batches) => Ok(Staged(content, batches, token))
  }

  /**
   * Staging ties locale, job and batch together: the `i`-th staged locale
   * is the queue's `i`-th, with its pages on disk; the job created for it
   * replied with data, and the `i`-th batch reply answers the batch request
   * naming that job's uid and carrying that locale's files, sent with the
   * granted token.
   */
  lemma StagedBatchFollowsJob(w: World, i: nat)
    requires StageBatches(w).Ok? && i < |StageBatches(w).value.content|
    ensures var s := StageBatches(w).value; var locale := s.content[i].0;
      var jobReq := VendorRequestFor(w.env, "POST", JobsEndpoint(w.env), s.accessToken,
                                     Some(JobBody(JobName(locale, w.now), [VendorLocaleId(locale)])), None);
      && GetAccessToken(w.env, w.vendor).Ok? && s.accessToken == GetAccessToken(w.env, w.vendor).value
      && i < |ListByLocale(w.pending)| && locale == ListByLocale(w.pending)[i].0
      && Files(s.content[i].1) == Filter(ListByLocale(w.pending)[i].1, w.onDisk)
      && MakeRequest(w.vendor(jobReq)).Ok? && MakeRequest(w.vendor(jobReq)).value.Some?
      && var jobUid := Field(MakeRequest(w.vendor(jobReq)).value.value, "translationJobUid");
         var batchReq := VendorRequestFor(w.env, "POST", BatchesEndpoint(w.env), s.accessToken,
                                          Some(BatchBody(false, jobUid, Files(s.content[i].1))), None);
         && MakeRequest(w.vendor(batchReq)).Ok? && MakeRequest(w.vendor(batchReq)).value.Some?
         && s.batchData[i] == MakeRequest(w.vendor(batchReq)).value.value
  {
    var token := GetAccessToken(w.env, w.vendor).value;
    var content := GetContent(ListByLocale(w.pending), w.onDisk, w.render);
    var jobRequests := JobRequests(w.env, Keys(content), token, w.now);
    var jobs := SendAll(jobRequests, w.vendor).value;
    var batchRequests := BatchRequests(w.env, token, JobUids(jobs), PagesOf(content));
    var batches := SendAll(batchRequests, w.vendor).value;
    assert StageBatches(w).value == Staged(content, batches, token);
    assert |Keys(ListByLocale(w.pending))| == |ListByLocale(w.pending)|;
    assert jobRequests[i] == VendorRequestFor(w.env, "POST", JobsEndpoint(w.env), token,
                               Some(JobBody(JobName(content[i].0, w.now), [VendorLocaleId(content[i].0)])), None);
    assert batchRequests[i] == VendorRequestFor(w.env, "POST", BatchesEndpoint(w.env), token,
                                 Some(BatchBody(false, JobUids(jobs)[i], Files(content[i].1))), None);
  }

  /**
   * The `try` block of `main` as written: a failing token, job or batch
   * request throws its own error; once the batches exist, the log line
   * reads the undeclared `jobRecords`, which throws, so the uploads never
   * start.
   */
  function RunAsWritten(w: World): (r: Result<seq<UploadOutcome>, RunError>)
    ensures r.Err?
    ensures StageBatches(w).Ok? ==> r == Err(JobRecordsUndefined)
    ensures StageBatches(w).Err? ==> r == Err(StageBatches(w).error)
  {
    match StageBatches(w)
    case Err(e) => Err(e)
    case Ok(_) => Err(JobRecordsUndefined)
  }

  /**
   * `main` as written: the exit code of its `try` block, which is 1 for
   * every run, whatever the queue and the vendor do.
   */
  function MainAsWritten(w: World): (code: int)
    ensures code == ExitCode(RunAsWritten(w))
    ensures code == 1
  {
    ExitCode(RunAsWritten(w))
  }

  /** The uploads a run issues once its batches exist, with the batch uids read from `batch_uid`. */
  function Uploads(s: Staged): seq<UploadTask>
    requires |s.batchData| == |s.content|
  {
    UploadPlan(Keys(s.content), BatchUids(s.batchData), PagesOf(s.content))
  }

  /**
   * The `try` block with the log line dropped and the batch uids read from
   * the field the reply carries: the first stage error, or every page
   * uploaded once, in plan order.
   */
  function Run(w: World): (r: Result<seq<UploadOutcome>, RunError>)
    ensures StageBatches(w).Err? ==> r == Err(StageBatches(w).error)
    ensures StageBatches(w).Ok? ==> r == UploadAll(Uploads(StageBatches(w).value), w.site, w.uploads)
    ensures r.Ok? ==> |r.value| == TotalPages(PagesOf(StageBatches(w).value.content))
  {
    match StageBatches(w)
    case Err(e) => Err(e)
    case Ok(s) =>
      UploadsUseCreatedBatches(s);
      UploadAll(Uploads(s), w.site, w.uploads)
  }

  /**
   * `main` corrected: the exit code is 0 exactly when every stage succeeded
   * and every upload was accepted.
   */
  function Main(w: World): (code: int)
    ensures code == 0 || code == 1
    ensures code == 0 <==> Run(w).Ok? && AllAccepted(Run(w).value)
    ensures code == 0 <==>
      && StageBatches(w).Ok?
      && UploadAll(Uploads(StageBatches(w).value), w.site, w.uploads).Ok?
      && AllAccepted(UploadAll(Uploads(StageBatches(w).value), w.site, w.uploads).value)
  {
    ExitCode(Run(w))
  }

  /**
   * The discrepancy on the smallest run: with nothing pending and a token
   * granted, the corrected `main` exits 0 while `main` as written exits 1.
   */
  lemma EmptyQueueExitCodes(w: World)
    requires w.pending == []
    requires GetAccessToken(w.env, w.vendor).Ok?
    ensures Main(w) == 0
    ensures MainAsWritten(w) == 1
  {
    ListByLocaleKeys(w.pending);
    var content := GetContent(ListByLocale(w.pending), w.onDisk, w.render);
    assert Keys(content) == [];
    assert |content| == 0;
    var token := GetAccessToken(w.env, w.vendor).value;
    assert JobRequests(w.env, [], token, w.now) == [];
    assert PagesOf(content) == [];
    var jobs := SendAll([], w.vendor);
    assert jobs == Ok([]);
    assert BatchRequests(w.env, token, JobUids([]), []) == [];
    var s := StageBatches(w);
    assert s == Ok(Staged(content, [], token));
    assert Uploads(s.value) == [];
  }

  /** In a corrected run, every upload goes to a batch created in that run. */
  lemma UploadsUseCreatedBatches(s: Staged)
    requires |s.batchData| == |s.content|
    ensures |Uploads(s)| == TotalPages(PagesOf(s.content))
    ensures forall k :: 0 <= k < |Uploads(s)| ==>
      Uploads(s)[k].batchUid in BatchUids(s.batchData) && Uploads(s)[k].locale in Keys(s.content)
  {
  }

  /** `updateStatus` as written looks each successful upload up by `upload.batchUid`, a field outcomes never carry. */
  function StatusKeyAsWritten(o: UploadOutcome): Option<string> {
    var fields := map["code" := JsStr(o.code), "locale" := o.locale, "slug" := o.slug];
    if "batchUid" in fields then Some(fields["batchUid"]) else None
  }

  lemma StatusKeysAsWrittenUndefined(rs: seq<UploadOutcome>)
    ensures forall o :: o in SuccessfulUploads(rs) ==> StatusKeyAsWritten(o) == None
  {
  }

  /** `key` is the batch uid of some accepted upload's task at or after `from`. */
  ghost predicate AcceptedTaskKey(tasks: seq<UploadTask>, outcomes: seq<UploadOutcome>, from: nat, key: Option<string>)
    requires |tasks| == |outcomes|
  {
    exists i :: from <= i < |tasks| && IsAccepted(outcomes[i]) && key == tasks[i].batchUid
  }

  /** The number of accepted uploads among `outcomes[from..i]`. */
  function AcceptedBefore(outcomes: seq<UploadOutcome>, from: nat, i: nat): nat
    requires from <= i <= |outcomes|
  {
    |SuccessfulUploads(outcomes[from..i])|
  }

  /** Counting accepted uploads from `from` counts `outcomes[from]`, then goes on from `from + 1`. */
  lemma AcceptedBeforeStep(outcomes: seq<UploadOutcome>, from: nat, i: nat)
    requires from < i <= |outcomes|
    ensures AcceptedBefore(outcomes, from, i) ==
      (if IsAccepted(outcomes[from]) then 1 else 0) + AcceptedBefore(outcomes, from + 1, i)
  {
    assert outcomes[from..i][0] == outcomes[from];
    assert outcomes[from..i][1..] == outcomes[from + 1..i];
  }

  /** The lookups from upload `from` on. */
  function StatusKeysFrom(tasks: seq<UploadTask>, outcomes: seq<UploadOutcome>, from: nat): (r: seq<Option<string>>)
    requires |tasks| == |outcomes| && from <= |tasks|
    ensures |r| == |SuccessfulUploads(outcomes[from..])|
    ensures forall k :: 0 <= k < |r| ==> AcceptedTaskKey(tasks, outcomes, from, r[k])
    decreases |tasks| - from
  {
    if from == |tasks| then []
    else
      var rest := StatusKeysFrom(tasks, outcomes, from + 1);
      assert outcomes[from..][0] == outcomes[from];
      assert outcomes[from..][1..] == outcomes[from + 1..];
      if IsAccepted(outcomes[from]) then [tasks[from].batchUid] + rest else rest
  }

  /** The accepted upload `i` is looked up at the position its accepted predecessors leave it. */
  lemma {:induction false} StatusKeysFromOrder(tasks: seq<UploadTask>, outcomes: seq<UploadOutcome>, from: nat, i: nat)
    requires |tasks| == |outcomes| && from <= i < |tasks| && IsAccepted(outcomes[i])
    ensures AcceptedBefore(outcomes, from, i) < |StatusKeysFrom(tasks, outcomes, from)|
    ensures StatusKeysFrom(tasks, outcomes, from)[AcceptedBefore(outcomes, from, i)] == tasks[i].batchUid
    decreases i - from
  {
    var r := StatusKeysFrom(tasks, outcomes, from);
    var rest := StatusKeysFrom(tasks, outcomes, from + 1);
    var head: seq<Option<string>> := if IsAccepted(outcomes[from]) then [tasks[from].batchUid] else [];
    assert r == head + rest;
    if i == from {
      assert outcomes[from..from] == [];
      assert AcceptedBefore(outcomes, from, i) == 0;
    } else {
      AcceptedBeforeStep(outcomes, from, i);
      StatusKeysFromOrder(tasks, outcomes, from + 1, i);
      var k := AcceptedBefore(outcomes, from + 1, i);
      assert AcceptedBefore(outcomes, from, i) == |head| + k;
      assert r[|head| + k] == rest[k];
    }
  }

  /**
   * The lookups `updateStatus` should make: one per accepted upload, in
   * upload order; the lookup of the accepted upload `i` comes after those of
   * the accepted uploads before it and uses the batch uid of its task.
   */
  function StatusKeys(tasks: seq<UploadTask>, outcomes: seq<UploadOutcome>): (r: seq<Option<string>>)
    requires |tasks| == |outcomes|
    ensures |r| == |SuccessfulUploads(outcomes)|
    ensures forall k :: 0 <= k < |r| ==> AcceptedTaskKey(tasks, outcomes, 0, r[k])
    ensures forall i :: 0 <= i < |tasks| && IsAccepted(outcomes[i]) ==>
      AcceptedBefore(outcomes, 0, i) < |r| && r[AcceptedBefore(outcomes, 0, i)] == tasks[i].batchUid
  {
    assert outcomes[0..] == outcomes;
    assert forall i :: 0 <= i < |tasks| && IsAccepted(outcomes[i]) ==>
      AcceptedBefore(outcomes, 0, i) < |StatusKeysFrom(tasks, outcomes, 0)| &&
      StatusKeysFrom(tasks, outcomes, 0)[AcceptedBefore(outcomes, 0, i)] == tasks[i].batchUid
    by {
      forall i | 0 <= i < |tasks| && IsAccepted(outcomes[i]) {
        StatusKeysFromOrder(tasks, outcomes, 0, i);
      }
    }
    StatusKeysFrom(tasks, outcomes, 0)
  }
}
